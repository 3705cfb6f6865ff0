/**
 What every run of the coalescer keeps, whatever the timers, the busy probe,
 the forced flushes and the dispatches do.
 */
module CoalescerProofs {
  import opened Common
  import opened BatchMerge
  import opened CoalescerModel

  // --- The invariant ------------------------------------------------------------

  type Tasks = map<TaskId, Task>
  type Registry = map<Key, TaskId>

  predicate Waits(phase: Phase) {
    phase.Sleeping? || phase.Polling?
  }

  predicate PhaseFits(task: Task) {
    match task.kind
    case IdleTimer => task.phase.Sleeping? || task.phase.Dispatching? || task.phase.Cancelled?
    case MaxWaitTimer => task.phase.Sleeping? || task.phase.Dispatching? || task.phase.Cancelled?
    case BusyWaiter => task.phase.Polling? || task.phase.Dispatching?
    case Caller => task.phase.Gathering? || task.phase.Dispatching?
  }

  /** Registered tasks are exactly the waiting tasks of that kind; `self` may be
      waiting without being registered while its own step runs. */
  ghost predicate RegistryFits(tasks: Tasks, registry: Registry, kind: Kind, self: Option<TaskId>) {
    && (forall k :: k in registry ==>
          && registry[k] in tasks
          && tasks[registry[k]].kind == kind && tasks[registry[k]].key == k && Waits(tasks[registry[k]].phase))
    && (forall t :: t in tasks && tasks[t].kind == kind && Waits(tasks[t].phase) && self != Some(t) ==>
          tasks[t].key in registry && registry[tasks[t].key] == t)
  }

  /** A gathered task is cancelled or already over. */
  predicate Stopped(tasks: Tasks, next: TaskId, id: Option<TaskId>) {
    id.Some? ==> id.value < next && (id.value in tasks ==> tasks[id.value].phase.Cancelled?)
  }

  ghost predicate TasksFit(tasks: Tasks, next: TaskId) {
    && (forall t :: t in tasks ==> t < next && PhaseFits(tasks[t]))
    && (forall t :: t in tasks && tasks[t].phase.Gathering? ==>
          Stopped(tasks, next, tasks[t].phase.first) && Stopped(tasks, next, tasks[t].phase.second))
  }

  ghost predicate Fits(
      tasks: Tasks, next: TaskId, idle: Registry, maxWait: Registry, waiters: Registry, self: Option<TaskId>)
  {
    && TasksFit(tasks, next)
    && RegistryFits(tasks, idle, IdleTimer, self)
    && RegistryFits(tasks, maxWait, MaxWaitTimer, self)
    && RegistryFits(tasks, waiters, BusyWaiter, self)
  }

  ghost predicate Tables(s: State, self: Option<TaskId>) {
    Fits(s.tasks, s.nextTask, s.idle, s.maxWait, s.waiters, self)
  }

  // --- One change to the table of tasks at a time ------------------------------------------

  lemma FitsUnregistered(tasks: Tasks, registry: Registry, kind: Kind, self: Option<TaskId>, id: TaskId, task: Task)
    requires RegistryFits(tasks, registry, kind, self)
    requires forall k :: k in registry ==> registry[k] != id
    requires task.kind != kind || !Waits(task.phase)
    ensures RegistryFits(tasks[id := task], registry, kind, self)
  {
  }

  lemma FitsDropped(tasks: Tasks, registry: Registry, kind: Kind, self: Option<TaskId>, k: Key, task: Task)
    requires RegistryFits(tasks, registry, kind, self)
    requires k in registry && !Waits(task.phase)
    ensures RegistryFits(tasks[registry[k] := task], registry - {k}, kind, self)
  {
  }

  lemma FitsRegistered(tasks: Tasks, registry: Registry, kind: Kind, self: Option<TaskId>, id: TaskId, task: Task)
    requires RegistryFits(tasks, registry, kind, self)
    requires id !in tasks && task.kind == kind && Waits(task.phase) && task.key !in registry
    ensures RegistryFits(tasks[id := task], registry[task.key := id], kind, self)
  {
  }

  lemma FitsForgotten(tasks: Tasks, registry: Registry, kind: Kind, id: TaskId)
    requires RegistryFits(tasks, registry, kind, Some(id)) && id in tasks
    ensures tasks[id].kind == kind ==> RegistryFits(tasks - {id}, Unregister(registry, tasks[id].key, id), kind, None)
    ensures tasks[id].kind != kind ==> RegistryFits(tasks - {id}, registry, kind, None)
  {
  }

  lemma OfOtherKind(tasks: Tasks, registry: Registry, kind: Kind, self: Option<TaskId>, id: TaskId)
    requires RegistryFits(tasks, registry, kind, self)
    requires id in tasks ==> tasks[id].kind != kind || !Waits(tasks[id].phase)
    ensures forall k :: k in registry ==> registry[k] != id
  {
  }

  lemma TasksFitUpdated(tasks: Tasks, next: TaskId, id: TaskId, task: Task)
    requires TasksFit(tasks, next) && id in tasks && PhaseFits(task)
    requires !task.phase.Gathering? && (tasks[id].phase.Cancelled? ==> task.phase.Cancelled?)
    ensures TasksFit(tasks[id := task], next)
  {
  }

  lemma TasksFitSpawned(tasks: Tasks, next: TaskId, task: Task)
    requires TasksFit(tasks, next) && PhaseFits(task)
    requires task.phase.Gathering? ==> Stopped(tasks, next, task.phase.first) && Stopped(tasks, next, task.phase.second)
    ensures next !in tasks
    ensures TasksFit(tasks[next := task], next + 1)
  {
  }

  lemma TasksFitEnded(tasks: Tasks, next: TaskId, id: TaskId)
    requires TasksFit(tasks, next)
    ensures TasksFit(tasks - {id}, next)
  {
  }

  // --- The pieces of a step keep the tables -------------------------------------------------

  lemma SpawnIdleFits(tasks: Tasks, next: TaskId, idle: Registry, maxWait: Registry, waiters: Registry, task: Task)
    requires Fits(tasks, next, idle, maxWait, waiters, None)
    requires task.kind == IdleTimer && task.phase.Sleeping? && task.key !in idle
    ensures Fits(tasks[next := task], next + 1, idle[task.key := next], maxWait, waiters, None)
  {
    TasksFitSpawned(tasks, next, task);
    FitsRegistered(tasks, idle, IdleTimer, None, next, task);
    FitsUnregistered(tasks, maxWait, MaxWaitTimer, None, next, task);
    FitsUnregistered(tasks, waiters, BusyWaiter, None, next, task);
  }

  lemma SpawnMaxWaitFits(tasks: Tasks, next: TaskId, idle: Registry, maxWait: Registry, waiters: Registry, task: Task)
    requires Fits(tasks, next, idle, maxWait, waiters, None)
    requires task.kind == MaxWaitTimer && task.phase.Sleeping? && task.key !in maxWait
    ensures Fits(tasks[next := task], next + 1, idle, maxWait[task.key := next], waiters, None)
  {
    TasksFitSpawned(tasks, next, task);
    FitsRegistered(tasks, maxWait, MaxWaitTimer, None, next, task);
    FitsUnregistered(tasks, idle, IdleTimer, None, next, task);
    FitsUnregistered(tasks, waiters, BusyWaiter, None, next, task);
  }

  lemma SpawnCallerFits(tasks: Tasks, next: TaskId, idle: Registry, maxWait: Registry, waiters: Registry, task: Task)
    requires Fits(tasks, next, idle, maxWait, waiters, None)
    requires task.kind == Caller && task.phase.Gathering?
    requires Stopped(tasks, next, task.phase.first) && Stopped(tasks, next, task.phase.second)
    ensures Fits(tasks[next := task], next + 1, idle, maxWait, waiters, None)
  {
    TasksFitSpawned(tasks, next, task);
    FitsUnregistered(tasks, idle, IdleTimer, None, next, task);
    FitsUnregistered(tasks, maxWait, MaxWaitTimer, None, next, task);
    FitsUnregistered(tasks, waiters, BusyWaiter, None, next, task);
  }

  lemma HoldKeeps(s: State, key: Key, id: TaskId)
    requires Tables(s, Some(id)) && id in s.tasks
    ensures Tables(Hold(s, key), Some(id)) && s.nextTask !in s.tasks
  {
    if key !in s.waiters {
      var task := Task(BusyWaiter, key, Polling(s.now, Unset));
      TasksFitSpawned(s.tasks, s.nextTask, task);
      FitsRegistered(s.tasks, s.waiters, BusyWaiter, Some(id), s.nextTask, task);
      FitsUnregistered(s.tasks, s.idle, IdleTimer, Some(id), s.nextTask, task);
      FitsUnregistered(s.tasks, s.maxWait, MaxWaitTimer, Some(id), s.nextTask, task);
    }
  }

  lemma EndTaskKeeps(s: State, id: TaskId)
    requires Tables(s, Some(id)) && id in s.tasks
    ensures Tables(EndTask(s, id), None)
  {
    TasksFitEnded(s.tasks, s.nextTask, id);
    FitsForgotten(s.tasks, s.idle, IdleTimer, id);
    FitsForgotten(s.tasks, s.maxWait, MaxWaitTimer, id);
    FitsForgotten(s.tasks, s.waiters, BusyWaiter, id);
  }

  /** Dropping a timer registration while cancelling the timer. */
  lemma CancelIdleKeeps(tasks: Tasks, next: TaskId, idle: Registry, maxWait: Registry, waiters: Registry, key: Key)
    requires Fits(tasks, next, idle, maxWait, waiters, None)
    ensures Fits(CancelRegistered(tasks, idle, key, None), next, idle - {key}, maxWait, waiters, None)
  {
    if key in idle {
      var id := idle[key];
      var task := tasks[id].(phase := Cancelled);
      TasksFitUpdated(tasks, next, id, task);
      FitsDropped(tasks, idle, IdleTimer, None, key, task);
      OfOtherKind(tasks, maxWait, MaxWaitTimer, None, id);
      OfOtherKind(tasks, waiters, BusyWaiter, None, id);
      FitsUnregistered(tasks, maxWait, MaxWaitTimer, None, id, task);
      FitsUnregistered(tasks, waiters, BusyWaiter, None, id, task);
    } else {
      assert idle - {key} == idle;
    }
  }

  lemma CancelMaxWaitKeeps(tasks: Tasks, next: TaskId, idle: Registry, maxWait: Registry, waiters: Registry, key: Key)
    requires Fits(tasks, next, idle, maxWait, waiters, None)
    ensures Fits(CancelRegistered(tasks, maxWait, key, None), next, idle, maxWait - {key}, waiters, None)
  {
    if key in maxWait {
      var id := maxWait[key];
      var task := tasks[id].(phase := Cancelled);
      TasksFitUpdated(tasks, next, id, task);
      FitsDropped(tasks, maxWait, MaxWaitTimer, None, key, task);
      OfOtherKind(tasks, idle, IdleTimer, None, id);
      OfOtherKind(tasks, waiters, BusyWaiter, None, id);
      FitsUnregistered(tasks, idle, IdleTimer, None, id, task);
      FitsUnregistered(tasks, waiters, BusyWaiter, None, id, task);
    } else {
      assert maxWait - {key} == maxWait;
    }
  }

  predicate Flushing(s: State, id: TaskId) {
    && id in s.tasks
    && (Waits(s.tasks[id].phase) || s.tasks[id].phase.Gathering?)
    && (s.tasks[id].kind == BusyWaiter ==> forall k :: k in s.waiters ==> s.waiters[k] != id)
  }

  /** The dispatching task leaves its registry first, then the other timer goes. */
  lemma DispatchKeeps(s: State, id: TaskId, batch: seq<Arrival>)
    requires Tables(s, None) || Tables(s, Some(id))
    requires Flushing(s, id)
    ensures var key := s.tasks[id].key;
      Fits(s.tasks[id := s.tasks[id].(phase := Dispatching(batch))], s.nextTask,
           Unregister(s.idle, key, id), Unregister(s.maxWait, key, id), s.waiters, None)
  {
    var old', key := s.tasks[id], s.tasks[id].key;
    var task := old'.(phase := Dispatching(batch));
    TasksFitUpdated(s.tasks, s.nextTask, id, task);
    DispatchKeepsRegistry(s.tasks, s.idle, IdleTimer, id, task);
    DispatchKeepsRegistry(s.tasks, s.maxWait, MaxWaitTimer, id, task);
    if old'.kind != BusyWaiter {
      OfOtherKind(s.tasks, s.waiters, BusyWaiter, Some(id), id);
    }
    FitsUnregistered(s.tasks, s.waiters, BusyWaiter, Some(id), id, task);
  }

  lemma DispatchKeepsRegistry(tasks: Tasks, registry: Registry, kind: Kind, id: TaskId, task: Task)
    requires RegistryFits(tasks, registry, kind, None) || RegistryFits(tasks, registry, kind, Some(id))
    requires id in tasks && task == tasks[id].(phase := task.phase) && task.phase.Dispatching?
    ensures RegistryFits(tasks[id := task], Unregister(registry, task.key, id), kind, None)
  {
    if task.key in registry && registry[task.key] == id {
      FitsDropped(tasks, registry, kind, Some(id), task.key, task);
    } else {
      FitsUnregistered(tasks, registry, kind, Some(id), id, task);
    }
  }

  lemma TakeKeeps(s: State, id: TaskId, key: Key)
    requires Tables(s, None) || Tables(s, Some(id))
    requires Flushing(s, id) && s.tasks[id].key == key && key in s.pending && s.pending[key] != []
    ensures Tables(Take(s, id, key), None)
  {
    DispatchKeeps(s, id, s.pending[key]);
    var tasks1 := s.tasks[id := s.tasks[id].(phase := Dispatching(s.pending[key]))];
    var idle1, maxWait1 := Unregister(s.idle, key, id), Unregister(s.maxWait, key, id);
    DropBothTimers(tasks1, s.nextTask, s.idle, s.maxWait, s.waiters, key, id, idle1, maxWait1);
  }

  /** The timers leave, each cancelled unless it is the one running. */
  lemma DropBothTimers(
      tasks: Tasks, next: TaskId, idle: Registry, maxWait: Registry, waiters: Registry, key: Key, id: TaskId,
                       idle1: Registry, maxWait1: Registry)
    requires idle1 == Unregister(idle, key, id) && maxWait1 == Unregister(maxWait, key, id)
    requires Fits(tasks, next, idle1, maxWait1, waiters, None)
    ensures var tasks2 := CancelRegistered(tasks, idle, key, Some(id));
      Fits(CancelRegistered(tasks2, maxWait, key, Some(id)), next, idle - {key}, maxWait - {key}, waiters, None)
  {
    CancelIdleKeeps(tasks, next, idle1, maxWait1, waiters, key);
    assert CancelRegistered(tasks, idle1, key, None) == CancelRegistered(tasks, idle, key, Some(id));
    assert idle1 - {key} == idle - {key};
    var tasks2 := CancelRegistered(tasks, idle, key, Some(id));
    CancelMaxWaitKeeps(tasks2, next, idle - {key}, maxWait1, waiters, key);
    assert CancelRegistered(tasks2, maxWait1, key, None) == CancelRegistered(tasks2, maxWait, key, Some(id));
    assert maxWait1 - {key} == maxWait - {key};
  }

  lemma FlushKeepsTables(s: State, id: TaskId, busy: bool, force: bool)
    requires Tables(s, None) || Tables(s, Some(id))
    requires Flushing(s, id)
    ensures Tables(Flush(s, id, busy, force), None)
  {
    var key := s.tasks[id].key;
    if !force && key in s.pending && busy {
      HoldKeeps(s, key, id);
      EndTaskKeeps(Hold(s, key), id);
    } else if Pending(s, key) == [] {
      EndTaskKeeps(s.(pending := s.pending - {key}), id);
    } else {
      TakeKeeps(s, id, key);
    }
  }

  lemma ResetIdleKeepsTables(s: State, key: Key, delay: nat)
    requires Tables(s, None)
    ensures Tables(ResetIdle(s, key, delay), None)
  {
    CancelIdleKeeps(s.tasks, s.nextTask, s.idle, s.maxWait, s.waiters, key);
    var tasks, task := CancelRegistered(s.tasks, s.idle, key, None), Task(IdleTimer, key, Sleeping(s.now + delay));
    SpawnIdleFits(tasks, s.nextTask, s.idle - {key}, s.maxWait, s.waiters, task);
    ResetIdleTables(s, key, delay, tasks, task);
  }

  lemma ResetIdleTables(s: State, key: Key, delay: nat, tasks: Tasks, task: Task)
    requires tasks == CancelRegistered(s.tasks, s.idle, key, None)
    requires task == Task(IdleTimer, key, Sleeping(s.now + delay))
    ensures var r := ResetIdle(s, key, delay);
      && r.tasks == tasks[s.nextTask := task] && r.nextTask == s.nextTask + 1
      && r.idle == (s.idle - {key})[key := s.nextTask] && r.maxWait == s.maxWait && r.waiters == s.waiters
  {
  }

  lemma StartMaxWaitKeepsTables(s: State, key: Key, delay: nat)
    requires Tables(s, None) && key !in s.maxWait
    ensures Tables(StartMaxWait(s, key, delay), None)
  {
    var task := Task(MaxWaitTimer, key, Sleeping(s.now + delay));
    SpawnMaxWaitFits(s.tasks, s.nextTask, s.idle, s.maxWait, s.waiters, task);
    var r := StartMaxWait(s, key, delay);
    assert r.tasks == s.tasks[s.nextTask := task] && r.nextTask == s.nextTask + 1;
    assert r.idle == s.idle && r.waiters == s.waiters && r.maxWait == s.maxWait[key := s.nextTask];
  }

  lemma EnqueueKeepsTables(c: Config, s: State, key: Key, message: InboundMessage, idleOverride: Option<nat>)
    requires Tables(s, None)
    ensures Tables(EnqueueStep(c, s, key, message, idleOverride), None)
  {
    var delay := DelayOf(c, idleOverride);
    var s1 := s.(pending := s.pending[key := Pending(s, key) + [Arrival(message, s.now, delay)]]);
    ResetIdleKeepsTables(s1, key, delay);
    var s2 := ResetIdle(s1, key, delay);
    if key !in s2.maxWait {
      StartMaxWaitKeepsTables(s2, key, Max(c.maxWaitMs, delay));
    }
  }

  lemma CancelTimersKeeps(tasks: Tasks, next: TaskId, idle: Registry, maxWait: Registry, waiters: Registry, key: Key)
    requires Fits(tasks, next, idle, maxWait, waiters, None)
    ensures var after := CancelRegistered(CancelRegistered(tasks, idle, key, None), maxWait, key, None);
      && Fits(after, next, idle - {key}, maxWait - {key}, waiters, None)
      && Stopped(after, next, Lookup(idle, key)) && Stopped(after, next, Lookup(maxWait, key))
  {
    CancelIdleKeeps(tasks, next, idle, maxWait, waiters, key);
    CancelMaxWaitKeeps(CancelRegistered(tasks, idle, key, None), next, idle - {key}, maxWait, waiters, key);
  }

  lemma OpenFlushNowKeepsTables(s: State, key: Key)
    requires Tables(s, None)
    ensures Tables(OpenFlushNow(s, key), None)
  {
    CancelTimersKeeps(s.tasks, s.nextTask, s.idle, s.maxWait, s.waiters, key);
    var tasks := CancelRegistered(CancelRegistered(s.tasks, s.idle, key, None), s.maxWait, key, None);
    var task := Task(Caller, key, Gathering(Lookup(s.idle, key), Lookup(s.maxWait, key)));
    SpawnCallerFits(tasks, s.nextTask, s.idle - {key}, s.maxWait - {key}, s.waiters, task);
    var r := OpenFlushNow(s, key);
    assert r.tasks == tasks[s.nextTask := task] && r.nextTask == s.nextTask + 1;
    assert r.idle == s.idle - {key} && r.maxWait == s.maxWait - {key} && r.waiters == s.waiters;
  }

  lemma FlushNowKeepsTables(s: State, key: Key, busy: bool)
    requires Tables(s, None)
    ensures Tables(FlushNowStep(s, key, busy), None)
  {
    OpenFlushNowKeepsTables(s, key);
    if key !in s.idle && key !in s.maxWait {
      FlushKeepsTables(OpenFlushNow(s, key), s.nextTask, busy, false);
    }
  }

  lemma StopWaitingKeepsTables(s: State, id: TaskId)
    requires Tables(s, None) && id in s.tasks && s.tasks[id].phase.Polling?
    ensures Tables(StopWaiting(s, id), Some(id))
    ensures Flushing(StopWaiting(s, id), id)
  {
  }

  lemma FitsPollsAgain(tasks: Tasks, registry: Registry, kind: Kind, id: TaskId, task: Task)
    requires RegistryFits(tasks, registry, kind, None) && id in tasks
    requires task == tasks[id].(phase := task.phase) && Waits(task.phase) && Waits(tasks[id].phase)
    ensures RegistryFits(tasks[id := task], registry, kind, None)
  {
  }

  lemma PollAgainKeepsTables(s: State, id: TaskId, task: Task)
    requires Tables(s, None) && id in s.tasks && s.tasks[id].phase.Polling?
    requires task == s.tasks[id].(phase := task.phase) && task.phase.Polling?
    ensures Tables(s.(tasks := s.tasks[id := task]), None)
  {
    TasksFitUpdated(s.tasks, s.nextTask, id, task);
    FitsPollsAgain(s.tasks, s.idle, IdleTimer, id, task);
    FitsPollsAgain(s.tasks, s.maxWait, MaxWaitTimer, id, task);
    FitsPollsAgain(s.tasks, s.waiters, BusyWaiter, id, task);
  }

  // --- The pieces of a step keep every key covered ---------------------------------------------

  /** A busy waiter or a `flush_now` between its halves will flush the key. */
  ghost predicate Responsible(s: State, k: Key) {
    k in s.waiters || exists t :: t in s.tasks && s.tasks[t].key == k && s.tasks[t].phase.Gathering?
  }

  /** The max-wait timer is due exactly at the oldest message's deadline. */
  predicate OnTime(c: Config, s: State, k: Key)
    requires k in s.pending && s.pending[k] != []
  {
    var oldest := s.pending[k][0];
    k in s.maxWait && s.maxWait[k] in s.tasks
    && s.tasks[s.maxWait[k]].phase == Sleeping(oldest.at + Max(c.maxWaitMs, oldest.delay))
  }

  /** Queues are never empty, and a timer stands only for a queue. */
  predicate Queued(s: State, k: Key) {
    && (k in s.pending ==> s.pending[k] != [])
    && (k in s.idle || k in s.maxWait ==> k in s.pending)
  }

  ghost predicate Covered(c: Config, s: State, k: Key) {
    Queued(s, k) && (k in s.pending ==> OnTime(c, s, k) || Responsible(s, k))
  }

  predicate SameAt<V(==)>(a: map<Key, V>, b: map<Key, V>, k: Key) {
    if k in a then k in b && a[k] == b[k] else k !in b
  }

  predicate Live(phase: Phase) {
    Waits(phase) || phase.Gathering?
  }

  /** Nothing about a key changes, except for tasks that are over for it. */
  ghost predicate Untouched(s: State, s': State, k: Key) {
    && SameAt(s.pending, s'.pending, k) && SameAt(s.idle, s'.idle, k)
    && SameAt(s.maxWait, s'.maxWait, k) && SameAt(s.waiters, s'.waiters, k)
    && (forall t :: t in s.tasks && s.tasks[t].key == k && Live(s.tasks[t].phase) ==>
          t in s'.tasks && s'.tasks[t] == s.tasks[t])
  }

  lemma UntouchedStaysCovered(c: Config, s: State, s': State, k: Key)
    requires Tables(s, None) && Covered(c, s, k) && Untouched(s, s', k)
    ensures Covered(c, s', k)
  {
  }

  lemma EndUntouched(s: State, id: TaskId, k: Key)
    requires Tables(s, Some(id)) && id in s.tasks
    requires k != s.tasks[id].key || (!Waits(s.tasks[id].phase) && !s.tasks[id].phase.Gathering?)
    ensures Untouched(s, EndTask(s, id), k)
  {
  }

  lemma TakeUntouched(s: State, id: TaskId, key: Key, k: Key)
    requires Tables(s, Some(id)) && id in s.tasks && s.tasks[id].key == key != k
    requires key in s.pending && s.pending[key] != []
    ensures Untouched(s, Take(s, id, key), k)
  {
    forall t | t in s.tasks && s.tasks[t].key == k
      ensures t in Take(s, id, key).tasks && Take(s, id, key).tasks[t] == s.tasks[t]
    {
      assert t != id && (key in s.idle ==> t != s.idle[key]) && (key in s.maxWait ==> t != s.maxWait[key]);
    }
  }

  lemma UntouchedTwice(s: State, s1: State, s2: State, k: Key)
    requires Untouched(s, s1, k) && Untouched(s1, s2, k)
    ensures Untouched(s, s2, k)
  {
  }

  lemma HoldOnlyUntouched(s: State, key: Key, k: Key)
    requires s.nextTask !in s.tasks && key != k
    ensures Untouched(s, Hold(s, key), k)
    ensures forall t :: t in s.tasks ==> t in Hold(s, key).tasks && Hold(s, key).tasks[t] == s.tasks[t]
  {
  }

  lemma HoldUntouched(s: State, id: TaskId, key: Key, k: Key)
    requires Tables(s, Some(id)) && id in s.tasks && s.tasks[id].key == key != k
    ensures Untouched(s, EndTask(Hold(s, key), id), k)
  {
    HoldKeeps(s, key, id);
    HoldOnlyUntouched(s, key, k);
    var held := Hold(s, key);
    EndUntouched(held, id, k);
    UntouchedTwice(s, held, EndTask(held, id), k);
  }

  lemma FlushUntouched(s: State, id: TaskId, busy: bool, force: bool, k: Key)
    requires Tables(s, Some(id)) && Flushing(s, id) && k != s.tasks[id].key
    ensures Untouched(s, Flush(s, id, busy, force), k)
  {
    var key := s.tasks[id].key;
    if !force && key in s.pending && busy {
      HoldUntouched(s, id, key, k);
    } else if Pending(s, key) == [] {
      EndUntouched(s.(pending := s.pending - {key}), id, k);
    } else {
      TakeUntouched(s, id, key, k);
    }
  }

  lemma FlushCovers(c: Config, s: State, id: TaskId, busy: bool, force: bool)
    requires Tables(s, Some(id)) && Flushing(s, id) && Queued(s, s.tasks[id].key)
    ensures Covered(c, Flush(s, id, busy, force), s.tasks[id].key)
  {
    if !force && s.tasks[id].key in s.pending && busy {
      HoldKeeps(s, s.tasks[id].key, id);
    }
  }

  /** Resetting the idle timer disturbs no other waiting task. */
  lemma ResetIdleCovers(c: Config, s: State, key: Key, delay: nat, k: Key)
    requires Tables(s, None) && key in s.pending && Covered(c, s, k)
    ensures Covered(c, ResetIdle(s, key, delay), k)
  {
    var s' := ResetIdle(s, key, delay);
    assert s.nextTask !in s.tasks;
    assert forall t :: t in s.tasks && (key in s.idle ==> t != s.idle[key]) ==>
      t in s'.tasks && s'.tasks[t] == s.tasks[t];
    if k in s.maxWait {
      assert key in s.idle ==> s.maxWait[k] != s.idle[key];
    }
    if k in s.pending && !OnTime(c, s, k) && k !in s.waiters {
      var t :| t in s.tasks && s.tasks[t].key == k && s.tasks[t].phase.Gathering?;
      assert s'.tasks[t] == s.tasks[t];
    }
  }

  lemma StartMaxWaitCovers(c: Config, s: State, key: Key, delay: nat, k: Key)
    requires Tables(s, None) && key in s.pending && key !in s.maxWait
    requires k != key ==> Covered(c, s, k)
    requires k == key ==>
      |s.pending[key]| == 1 && s.pending[key][0].at == s.now && delay == Max(c.maxWaitMs, s.pending[key][0].delay)
    ensures Covered(c, StartMaxWait(s, key, delay), k)
  {
    var s' := StartMaxWait(s, key, delay);
    assert s.nextTask !in s.tasks;
    if k != key && k in s.pending && !OnTime(c, s, k) && k !in s.waiters {
      var t :| t in s.tasks && s.tasks[t].key == k && s.tasks[t].phase.Gathering?;
      assert s'.tasks[t] == s.tasks[t];
    }
  }

  lemma StartMaxWaitLater(c: Config, s: State, key: Key, delay: nat)
    requires Tables(s, None) && key !in s.maxWait && key in s.pending && Covered(c, s, key)
    ensures Covered(c, StartMaxWait(s, key, delay), key)
  {
    var s' := StartMaxWait(s, key, delay);
    assert s.nextTask !in s.tasks;
    if key !in s.waiters {
      var t :| t in s.tasks && s.tasks[t].key == key && s.tasks[t].phase.Gathering?;
      assert s'.tasks[t] == s.tasks[t];
    }
  }

  /** The queue grows at its end, so the oldest message and its deadline stay. */
  lemma AppendCovers(c: Config, s: State, key: Key, arrival: Arrival, k: Key)
    requires Covered(c, s, k) && Queued(s, key) && (k == key ==> key in s.pending)
    ensures Covered(c, s.(pending := s.pending[key := Pending(s, key) + [arrival]]), k)
  {
    var s' := s.(pending := s.pending[key := Pending(s, key) + [arrival]]);
    if k == key {
      assert s'.pending[key][0] == s.pending[key][0];
    }
    if k in s.pending && !OnTime(c, s, k) && k !in s.waiters {
      var t :| t in s.tasks && s.tasks[t].key == k && s.tasks[t].phase.Gathering?;
      assert s'.tasks[t] == s.tasks[t];
    }
  }

  lemma EnqueueCovers(c: Config, s: State, key: Key, message: InboundMessage, idleOverride: Option<nat>, k: Key)
    requires Tables(s, None) && Covered(c, s, key) && Covered(c, s, k)
    ensures Covered(c, EnqueueStep(c, s, key, message, idleOverride), k)
  {
    var delay := DelayOf(c, idleOverride);
    var s1 := s.(pending := s.pending[key := Pending(s, key) + [Arrival(message, s.now, delay)]]);
    assert Tables(s1, None);
    var s2 := ResetIdle(s1, key, delay);
    ResetIdleKeepsTables(s1, key, delay);
    if k != key || key in s.pending {
      AppendCovers(c, s, key, Arrival(message, s.now, delay), k);
      ResetIdleCovers(c, s1, key, delay, k);
    }
    if key !in s.maxWait {
      if k == key && key in s.pending {
        StartMaxWaitLater(c, s2, key, Max(c.maxWaitMs, delay));
      } else {
        StartMaxWaitCovers(c, s2, key, Max(c.maxWaitMs, delay), k);
      }
    }
  }

  lemma OpenFlushNowCovers(c: Config, s: State, key: Key, k: Key)
    requires Tables(s, None) && Covered(c, s, k)
    ensures Covered(c, OpenFlushNow(s, key), k)
  {
    var s' := OpenFlushNow(s, key);
    if k != key {
      UntouchedStaysCovered(c, s, s', k);
    } else {
      assert s'.tasks[s.nextTask].phase.Gathering?;
    }
  }

  lemma FlushCoversAll(c: Config, s0: State, s: State, id: TaskId, busy: bool, force: bool, k: Key)
    requires Tables(s0, None) && Covered(c, s0, k) && Tables(s, Some(id)) && Flushing(s, id)
    requires Queued(s, s.tasks[id].key)
    requires k != s.tasks[id].key ==> Untouched(s0, s, k)
    ensures Covered(c, Flush(s, id, busy, force), k)
  {
    if k == s.tasks[id].key {
      FlushCovers(c, s, id, busy, force);
    } else {
      var s' := Flush(s, id, busy, force);
      FlushUntouched(s, id, busy, force, k);
      assert Untouched(s0, s', k);
      UntouchedStaysCovered(c, s0, s', k);
    }
  }

  // --- Every step, every run --------------------------------------------------------------------

  ghost predicate Inv(c: Config, s: State) {
    Tables(s, None) && forall k :: Covered(c, s, k)
  }

  lemma StepKeepsTables(c: Config, s: State, e: Event)
    requires Tables(s, None)
    ensures Tables(Step(c, s, e), None)
  {
    if Enabled(s, e) {
      match e
      case Elapse(ms) =>
      case Enqueue(key, message, idleOverride) => EnqueueKeepsTables(c, s, key, message, idleOverride);
      case FlushNow(key, busy) => FlushNowKeepsTables(s, key, busy);
      case FlushNowResumes(id, busy) => FlushKeepsTables(s, id, busy, false);
      case TimerFires(id, busy) => FlushKeepsTables(s, id, busy, false);
      case WaiterPolls(id, busy, keepWaiting, busyAgain) =>
        WaiterKeepsTables(c, s, id, busy, keepWaiting, busyAgain);
      case CancelledTaskEnds(id) => EndTaskKeeps(s, id);
      case DispatchEnds(id) => EndTaskKeeps(s, id);
    }
  }

  lemma FlushNowCovers(c: Config, s: State, key: Key, busy: bool, k: Key)
    requires Tables(s, None) && Covered(c, s, key) && Covered(c, s, k)
    ensures Covered(c, FlushNowStep(s, key, busy), k)
  {
    var s1 := OpenFlushNow(s, key);
    OpenFlushNowCovers(c, s, key, k);
    if key !in s.idle && key !in s.maxWait {
      OpenFlushNowKeepsTables(s, key);
      OpenFlushNowCovers(c, s, key, key);
      FlushCoversAll(c, s1, s1, s.nextTask, busy, false, k);
    }
  }

  lemma EndCovers(c: Config, s: State, id: TaskId, k: Key)
    requires Tables(s, None) && Covered(c, s, k) && id in s.tasks
    requires s.tasks[id].phase.Cancelled? || s.tasks[id].phase.Dispatching?
    ensures Covered(c, EndTask(s, id), k)
  {
    EndUntouched(s, id, k);
    UntouchedStaysCovered(c, s, EndTask(s, id), k);
  }

  lemma ElapseCovers(c: Config, s: State, ms: nat, k: Key)
    requires Tables(s, None) && Covered(c, s, k)
    ensures Covered(c, s.(now := s.now + ms), k)
  {
    UntouchedStaysCovered(c, s, s.(now := s.now + ms), k);
  }

  lemma ReadyTaskCovers(c: Config, s: State, id: TaskId, busy: bool, k: Key)
    requires Inv(c, s) && (Enabled(s, TimerFires(id, busy)) || Enabled(s, FlushNowResumes(id, busy)))
    ensures Covered(c, Flush(s, id, busy, false), k)
  {
    hide Flush;
    assert Covered(c, s, k) && Covered(c, s, s.tasks[id].key);
    FlushCoversAll(c, s, s, id, busy, false, k);
  }

  lemma StepKeepsCovered(c: Config, s: State, e: Event, k: Key)
    requires Inv(c, s)
    ensures Covered(c, Step(c, s, e), k)
  {
    hide Flush, EnqueueStep, FlushNowStep, WaiterStep, EndTask;
    assert Covered(c, s, k);
    if Enabled(s, e) {
      match e
      case Elapse(ms) => ElapseCovers(c, s, ms, k);
      case Enqueue(key, message, idleOverride) =>
        assert Covered(c, s, key);
        EnqueueCovers(c, s, key, message, idleOverride, k);
      case FlushNow(key, busy) =>
        assert Covered(c, s, key);
        FlushNowCovers(c, s, key, busy, k);
      case FlushNowResumes(id, busy) => ReadyTaskCovers(c, s, id, busy, k);
      case TimerFires(id, busy) => ReadyTaskCovers(c, s, id, busy, k);
      case WaiterPolls(id, busy, keepWaiting, busyAgain) =>
        assert Covered(c, s, s.tasks[id].key);
        WaiterCovers(c, s, id, busy, keepWaiting, busyAgain, k);
      case CancelledTaskEnds(id) => EndCovers(c, s, id, k);
      case DispatchEnds(id) => EndCovers(c, s, id, k);
    }
  }

  lemma PollAgainCovers(c: Config, s: State, id: TaskId, k: Key)
    requires Tables(s, None) && Covered(c, s, k) && id in s.tasks && s.tasks[id].phase.Polling?
    ensures Covered(c, PollAgain(c, s, id), k)
  {
    var s' := PollAgain(c, s, id);
    assert s.tasks[id].kind == BusyWaiter;
    if k in s.maxWait {
      assert s.maxWait[k] != id;
    }
    if k in s.pending && !OnTime(c, s, k) && k !in s.waiters {
      var t :| t in s.tasks && s.tasks[t].key == k && s.tasks[t].phase.Gathering?;
      assert s'.tasks[t] == s.tasks[t];
    }
  }

  lemma WaiterKeepsTables(c: Config, s: State, id: TaskId, busy: bool, keepWaiting: bool, busyAgain: bool)
    requires Tables(s, None) && id in s.tasks && s.tasks[id].phase.Polling?
    ensures Tables(WaiterStep(c, s, id, busy, keepWaiting, busyAgain), None)
  {
    if busy && (keepWaiting || !Late(c, s, id)) {
      PollAgainKeepsTables(s, id, PollAgain(c, s, id).tasks[id]);
    } else {
      StopWaitingKeepsTables(s, id);
      FlushKeepsTables(StopWaiting(s, id), id, busyAgain, busy);
    }
  }

  lemma WaiterCovers(c: Config, s: State, id: TaskId, busy: bool, keepWaiting: bool, busyAgain: bool, k: Key)
    requires Tables(s, None) && Covered(c, s, k) && id in s.tasks && s.tasks[id].phase.Polling?
    requires Covered(c, s, s.tasks[id].key)
    ensures Covered(c, WaiterStep(c, s, id, busy, keepWaiting, busyAgain), k)
  {
    if busy && (keepWaiting || !Late(c, s, id)) {
      PollAgainCovers(c, s, id, k);
    } else {
      StopWaitingKeepsTables(s, id);
      FlushCoversAll(c, s, StopWaiting(s, id), id, busyAgain, busy, k);
    }
  }

  lemma StepKeepsInv(c: Config, s: State, e: Event)
    requires Inv(c, s)
    ensures Inv(c, Step(c, s, e))
  {
    StepKeepsTables(c, s, e);
    forall k ensures Covered(c, Step(c, s, e), k) {
      StepKeepsCovered(c, s, e, k);
    }
  }

  lemma {:induction false} RunKeepsInv(c: Config, events: seq<Event>)
    ensures Inv(c, Run(c, events))
  {
    if events != [] {
      RunKeepsInv(c, events[..|events| - 1]);
      StepKeepsInv(c, Run(c, events[..|events| - 1]), Last(events));
    }
  }
}
