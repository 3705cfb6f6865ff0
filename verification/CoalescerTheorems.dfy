/**
 The coalescer's promises over every run: no batch is stranded, no dispatch is
 cut off, nothing is lost or reordered, and talking cannot put off the flush.
 */
module CoalescerTheorems {
  import opened Common
  import opened BatchMerge
  import opened CoalescerModel
  import opened CoalescerProofs

  // --- No batch is stranded -----------------------------------------------------------

  /** A task that is alive, is for this key, and will run `flush` when it goes on. */
  predicate WillFlush(s: State, t: TaskId, k: Key) {
    t in s.tasks && s.tasks[t].key == k && Live(s.tasks[t].phase)
  }

  predicate RegisteredAnywhere(s: State, t: TaskId) {
    t in s.idle.Values || t in s.maxWait.Values || t in s.waiters.Values
  }

  /** In every reachable state a queue has a live task that will flush it. */
  lemma NoStrandedBatch(c: Config, events: seq<Event>, k: Key)
    ensures var s := Run(c, events);
      k in s.pending ==> s.pending[k] != [] && exists t :: WillFlush(s, t, k)
  {
    RunKeepsInv(c, events);
    var s := Run(c, events);
    assert Covered(c, s, k);
    if k in s.pending {
      if OnTime(c, s, k) {
        assert WillFlush(s, s.maxWait[k], k);
      } else if k in s.waiters {
        assert WillFlush(s, s.waiters[k], k);
      } else {
        var t :| t in s.tasks && s.tasks[t].key == k && s.tasks[t].phase.Gathering?;
        assert WillFlush(s, t, k);
      }
    }
  }

  /** The registries name exactly the waiting timers and waiters, one per key and kind;
      a task that is dispatching is registered nowhere. */
  lemma RegisteredIffWaiting(c: Config, events: seq<Event>, t: TaskId)
    ensures var s := Run(c, events);
      RegisteredAnywhere(s, t) <==> t in s.tasks && Waits(s.tasks[t].phase)
  {
    RunKeepsInv(c, events);
    var s := Run(c, events);
    if t in s.idle.Values { var k :| k in s.idle && s.idle[k] == t; }
    if t in s.maxWait.Values { var k :| k in s.maxWait && s.maxWait[k] == t; }
    if t in s.waiters.Values { var k :| k in s.waiters && s.waiters[k] == t; }
    if t in s.tasks && Waits(s.tasks[t].phase) {
      var k := s.tasks[t].key;
      assert PhaseFits(s.tasks[t]);
      match s.tasks[t].kind
      case IdleTimer => assert k in s.idle.Keys && s.idle[k] == t;
      case MaxWaitTimer => assert k in s.maxWait.Keys && s.maxWait[k] == t;
      case BusyWaiter => assert k in s.waiters.Keys && s.waiters[k] == t;
    }
  }

  // --- A dispatch in flight is never disturbed -------------------------------------------

  predicate DispatchingTask(s: State, t: TaskId) {
    t in s.tasks && s.tasks[t].phase.Dispatching?
  }

  lemma EndSpares(s: State, id: TaskId, t: TaskId)
    requires id in s.tasks && t in s.tasks && id != t
    ensures t in EndTask(s, id).tasks && EndTask(s, id).tasks[t] == s.tasks[t]
  {
  }

  lemma TakeSpares(s: State, id: TaskId, key: Key, t: TaskId)
    requires Tables(s, Some(id)) && Flushing(s, id) && DispatchingTask(s, t)
    requires key in s.pending && s.pending[key] != []
    ensures t in Take(s, id, key).tasks && Take(s, id, key).tasks[t] == s.tasks[t]
  {
    assert t != id && (key in s.idle ==> s.idle[key] != t) && (key in s.maxWait ==> s.maxWait[key] != t);
  }

  lemma FlushSpares(s: State, id: TaskId, busy: bool, force: bool, t: TaskId)
    requires Tables(s, Some(id)) && Flushing(s, id) && DispatchingTask(s, t)
    ensures t in Flush(s, id, busy, force).tasks && Flush(s, id, busy, force).tasks[t] == s.tasks[t]
  {
    var key := s.tasks[id].key;
    if !force && key in s.pending && busy {
      HoldKeeps(s, key, id);
      EndSpares(Hold(s, key), id, t);
    } else if Pending(s, key) == [] {
      EndSpares(s.(pending := s.pending - {key}), id, t);
    } else {
      TakeSpares(s, id, key, t);
    }
  }

  lemma OpenFlushNowSpares(s: State, key: Key, t: TaskId)
    requires Tables(s, None) && DispatchingTask(s, t)
    ensures t in OpenFlushNow(s, key).tasks && OpenFlushNow(s, key).tasks[t] == s.tasks[t]
  {
    assert t < s.nextTask && (key in s.idle ==> s.idle[key] != t) && (key in s.maxWait ==> s.maxWait[key] != t);
  }

  lemma EnqueueSpares(c: Config, s: State, key: Key, message: InboundMessage, idleOverride: Option<nat>, t: TaskId)
    requires Tables(s, None) && DispatchingTask(s, t)
    ensures var s' := EnqueueStep(c, s, key, message, idleOverride); t in s'.tasks && s'.tasks[t] == s.tasks[t]
  {
    assert t < s.nextTask && (key in s.idle ==> s.idle[key] != t);
    var delay := DelayOf(c, idleOverride);
    var s1 := s.(pending := s.pending[key := Pending(s, key) + [Arrival(message, s.now, delay)]]);
    ResetSpares(s1, key, delay, t);
    StartSpares(ResetIdle(s1, key, delay), key, Max(c.maxWaitMs, delay), t);
  }

  lemma ResetSpares(s: State, key: Key, delay: nat, t: TaskId)
    requires t in s.tasks && t < s.nextTask && (key in s.idle ==> s.idle[key] != t)
    ensures var s' := ResetIdle(s, key, delay); t in s'.tasks && s'.tasks[t] == s.tasks[t] && t < s'.nextTask
  {
  }

  lemma StartSpares(s: State, key: Key, delay: nat, t: TaskId)
    requires t in s.tasks && t < s.nextTask
    ensures t in StartMaxWait(s, key, delay).tasks && StartMaxWait(s, key, delay).tasks[t] == s.tasks[t]
  {
  }

  lemma WaiterSpares(c: Config, s: State, id: TaskId, busy: bool, keepWaiting: bool, busyAgain: bool, t: TaskId)
    requires Tables(s, None) && id in s.tasks && s.tasks[id].phase.Polling? && DispatchingTask(s, t)
    ensures var s' := WaiterStep(c, s, id, busy, keepWaiting, busyAgain); t in s'.tasks && s'.tasks[t] == s.tasks[t]
  {
    if !(busy && (keepWaiting || !Late(c, s, id))) {
      StopWaitingKeepsTables(s, id);
      FlushSpares(StopWaiting(s, id), id, busyAgain, busy, t);
    }
  }

  lemma FlushNowSpares(s: State, key: Key, busy: bool, t: TaskId)
    requires Tables(s, None) && DispatchingTask(s, t)
    ensures t in FlushNowStep(s, key, busy).tasks && FlushNowStep(s, key, busy).tasks[t] == s.tasks[t]
  {
    OpenFlushNowSpares(s, key, t);
    if key !in s.idle && key !in s.maxWait {
      OpenFlushNowKeepsTables(s, key);
      FlushSpares(OpenFlushNow(s, key), s.nextTask, busy, false, t);
    }
  }

  /** Once a task has taken a batch, only the end of that dispatch changes it:
      no enqueue, flush, timer, waiter or other task can cancel it. */
  lemma DispatchUndisturbed(c: Config, events: seq<Event>, e: Event, t: TaskId)
    requires DispatchingTask(Run(c, events), t) && e != DispatchEnds(t)
    ensures var s, s' := Run(c, events), Run(c, events + [e]);
      t in s'.tasks && s'.tasks[t] == s.tasks[t]
  {
    var s := Run(c, events);
    assert (events + [e])[..|events|] == events;
    RunKeepsInv(c, events);
    if Enabled(s, e) {
      match e
      case Elapse(ms) =>
      case Enqueue(key, message, idleOverride) => EnqueueSpares(c, s, key, message, idleOverride, t);
      case FlushNow(key, busy) => FlushNowSpares(s, key, busy, t);
      case FlushNowResumes(id, busy) => FlushSpares(s, id, busy, false, t);
      case TimerFires(id, busy) => FlushSpares(s, id, busy, false, t);
      case WaiterPolls(id, busy, keepWaiting, busyAgain) => WaiterSpares(c, s, id, busy, keepWaiting, busyAgain, t);
      case CancelledTaskEnds(id) => EndSpares(s, id, t);
      case DispatchEnds(id) => EndSpares(s, id, t);
    }
  }

  /** Shutdown cancels what waits and spares what is being dispatched. */
  lemma ShutdownSparesDispatches(c: Config, events: seq<Event>, t: TaskId)
    requires t in Run(c, events).tasks
    ensures var s := Run(c, events);
      t in Shutdown(s).tasks
      && Shutdown(s).tasks[t] == if Waits(s.tasks[t].phase) then s.tasks[t].(phase := Cancelled) else s.tasks[t]
  {
    RegisteredIffWaiting(c, events, t);
  }

  // --- Conservation and order ------------------------------------------------------------

  /** The messages enqueued for a key, in order, read off the run alone. */
  function Arrivals(c: Config, events: seq<Event>, k: Key): seq<Arrival> {
    if events == [] then []
    else
      var before := events[..|events| - 1];
      match Last(events)
      case Enqueue(key, message, idleOverride) =>
        if key == k then Arrivals(c, before, k) + [Arrival(message, Run(c, before).now, DelayOf(c, idleOverride))]
        else Arrivals(c, before, k)
      case _ => Arrivals(c, before, k)
  }

  function Accounted(s: State, k: Key): seq<Arrival> {
    Flatten(Handed(s, k)) + Pending(s, k)
  }

  lemma FlushConserves(s: State, id: TaskId, busy: bool, force: bool, k: Key)
    requires id in s.tasks
    ensures Accounted(Flush(s, id, busy, force), k) == Accounted(s, k)
  {
    var key := s.tasks[id].key;
    if !force && key in s.pending && busy {
      HoldHandsNothing(s, key);
      EndHandsNothing(Hold(s, key), id);
    } else if Pending(s, key) == [] {
      EndHandsNothing(s.(pending := s.pending - {key}), id);
    } else {
      TakeConserves(s, id, key, k);
    }
  }

  lemma HoldHandsNothing(s: State, key: Key)
    ensures Hold(s, key).handed == s.handed && Hold(s, key).pending == s.pending
    ensures Hold(s, key).dispatched == s.dispatched
    ensures forall t :: t in s.tasks ==> t in Hold(s, key).tasks
  {
  }

  lemma EndHandsNothing(s: State, id: TaskId)
    requires id in s.tasks
    ensures EndTask(s, id).handed == s.handed && EndTask(s, id).pending == s.pending
    ensures EndTask(s, id).dispatched == s.dispatched
  {
  }

  lemma TakeConserves(s: State, id: TaskId, key: Key, k: Key)
    requires id in s.tasks && key in s.pending && s.pending[key] != []
    ensures Accounted(Take(s, id, key), k) == Accounted(s, k)
  {
    var taken := Take(s, id, key);
    assert taken.handed == s.handed[key := Handed(s, key) + [s.pending[key]]] && taken.pending == s.pending - {key};
    if k == key {
      FlattenSnoc(Handed(s, k), s.pending[k]);
    }
  }

  lemma EnqueueConserves(c: Config, s: State, key: Key, message: InboundMessage, idleOverride: Option<nat>, k: Key)
    ensures var s' := EnqueueStep(c, s, key, message, idleOverride);
      Accounted(s', k) == if key == k then Accounted(s, k) + [Arrival(message, s.now, DelayOf(c, idleOverride))]
                          else Accounted(s, k)
  {
    var s' := EnqueueStep(c, s, key, message, idleOverride);
    assert s'.handed == s.handed;
    assert s'.pending == s.pending[key := Pending(s, key) + [Arrival(message, s.now, DelayOf(c, idleOverride))]];
  }

  lemma FlushNowConserves(s: State, key: Key, busy: bool, k: Key)
    ensures Accounted(FlushNowStep(s, key, busy), k) == Accounted(s, k)
  {
    var s1 := OpenFlushNow(s, key);
    assert s1.handed == s.handed && s1.pending == s.pending;
    if key !in s.idle && key !in s.maxWait {
      FlushConserves(s1, s.nextTask, busy, false, k);
    }
  }

  lemma StepConserves(c: Config, s: State, e: Event, k: Key)
    ensures Accounted(Step(c, s, e), k)
         == if e.Enqueue? && e.key == k then Accounted(s, k) + [Arrival(e.message, s.now, DelayOf(c, e.idleOverride))]
            else Accounted(s, k)
  {
    if Enabled(s, e) {
      match e
      case Elapse(ms) =>
      case Enqueue(key, message, idleOverride) => EnqueueConserves(c, s, key, message, idleOverride, k);
      case FlushNow(key, busy) => FlushNowConserves(s, key, busy, k);
      case FlushNowResumes(id, busy) => FlushConserves(s, id, busy, false, k);
      case TimerFires(id, busy) => FlushConserves(s, id, busy, false, k);
      case WaiterPolls(id, busy, keepWaiting, busyAgain) => WaiterConserves(c, s, id, busy, keepWaiting, busyAgain, k);
      case CancelledTaskEnds(id) => EndHandsNothing(s, id);
      case DispatchEnds(id) => EndHandsNothing(s, id);
    }
  }

  lemma WaiterConserves(c: Config, s: State, id: TaskId, busy: bool, keepWaiting: bool, busyAgain: bool, k: Key)
    requires id in s.tasks && s.tasks[id].phase.Polling?
    ensures Accounted(WaiterStep(c, s, id, busy, keepWaiting, busyAgain), k) == Accounted(s, k)
  {
    if !(busy && (keepWaiting || !Late(c, s, id))) {
      FlushConserves(StopWaiting(s, id), id, busyAgain, busy, k);
    }
  }

  /** The batches handed to dispatch, one after the other, and then the queue
      are exactly the messages enqueued, in order, in every run. */
  lemma {:induction false} Conservation(c: Config, events: seq<Event>, k: Key)
    ensures Flatten(Handed(Run(c, events), k)) + Pending(Run(c, events), k) == Arrivals(c, events, k)
  {
    if events != [] {
      var before := events[..|events| - 1];
      Conservation(c, before, k);
      StepConserves(c, Run(c, before), Last(events), k);
    }
  }

  // --- The flush deadline --------------------------------------------------------------------

  /** No timer of the event loop is overdue. */
  predicate Prompt(s: State) {
    forall t :: t in s.tasks && s.tasks[t].phase.Sleeping? ==> s.now <= s.tasks[t].phase.due
  }

  /** However often a chat talks, its oldest queued message waits no longer than
      max(max_wait, its own delay) before a waiter or a forced flush is in charge. */
  lemma FlushDeadline(c: Config, events: seq<Event>, k: Key)
    requires k in Run(c, events).pending
    ensures var s := Run(c, events);
      && s.pending[k] != []
      && var oldest := s.pending[k][0];
         var due := oldest.at + Max(c.maxWaitMs, oldest.delay);
         Responsible(s, k)
         || (k in s.maxWait && s.maxWait[k] in s.tasks
             && s.tasks[s.maxWait[k]] == Task(MaxWaitTimer, k, Sleeping(due))
             && (Prompt(s) ==> s.now <= due))
  {
    RunKeepsInv(c, events);
    assert Covered(c, Run(c, events), k);
  }

  // --- A queue can always be delivered ----------------------------------------------------------

  lemma RunAppend(c: Config, events: seq<Event>, e: Event)
    ensures Run(c, events + [e]) == Step(c, Run(c, events), e)
  {
    assert (events + [e])[..|events|] == events && Last(events + [e]) == e;
  }

  /** From every reachable state with a queue there is a way on that hands it over
      whole: let time pass, let cancelled timers end, and find the chat free. */
  lemma QueueCanBeDelivered(c: Config, events: seq<Event>, k: Key) returns (more: seq<Event>)
    requires k in Run(c, events).pending
    ensures forall e :: e in more ==> !e.Enqueue?
    ensures var s, s' := Run(c, events), Run(c, events + more);
      k !in s'.pending && Handed(s', k) == Handed(s, k) + [s.pending[k]]
  {
    NoStrandedBatch(c, events, k);
    RunKeepsInv(c, events);
    var s := Run(c, events);
    var t :| WillFlush(s, t, k);
    if s.tasks[t].phase.Gathering? {
      more := DeliverGathering(c, events, k, t);
    } else {
      more := DeliverWaiting(c, events, k, t);
    }
  }

  lemma FreeFlushTakes(s: State, t: TaskId, force: bool, k: Key)
    requires t in s.tasks && s.tasks[t].key == k && k in s.pending && s.pending[k] != []
    ensures var s' := Flush(s, t, false, force);
      k !in s'.pending && Handed(s', k) == Handed(s, k) + [s.pending[k]]
  {
  }

  function WaitFor(s: State, due: nat): Event {
    Elapse(if due > s.now then due - s.now else 0)
  }

  lemma TimerDelivers(c: Config, s: State, t: TaskId, k: Key)
    requires t in s.tasks && s.tasks[t].key == k && s.tasks[t].phase.Sleeping? && k in s.pending && s.pending[k] != []
    ensures var s' := Step(c, Step(c, s, WaitFor(s, s.tasks[t].phase.due)), TimerFires(t, false));
      k !in s'.pending && Handed(s', k) == Handed(s, k) + [s.pending[k]]
  {
    FreeFlushTakes(Step(c, s, WaitFor(s, s.tasks[t].phase.due)), t, false, k);
  }

  lemma WaiterDelivers(c: Config, s: State, t: TaskId, k: Key)
    requires t in s.tasks && s.tasks[t].key == k && s.tasks[t].phase.Polling? && k in s.pending && s.pending[k] != []
    ensures var s' := Step(c, Step(c, s, WaitFor(s, s.tasks[t].phase.next)), WaiterPolls(t, false, false, false));
      k !in s'.pending && Handed(s', k) == Handed(s, k) + [s.pending[k]]
  {
    FreeFlushTakes(StopWaiting(Step(c, s, WaitFor(s, s.tasks[t].phase.next)), t), t, false, k);
  }

  lemma DeliverWaiting(c: Config, events: seq<Event>, k: Key, t: TaskId) returns (more: seq<Event>)
    requires k in Run(c, events).pending && Run(c, events).pending[k] != []
    requires WillFlush(Run(c, events), t, k) && Waits(Run(c, events).tasks[t].phase)
    ensures forall e :: e in more ==> !e.Enqueue?
    ensures var s, s' := Run(c, events), Run(c, events + more);
      k !in s'.pending && Handed(s', k) == Handed(s, k) + [s.pending[k]]
  {
    var s := Run(c, events);
    var wait, go;
    if s.tasks[t].phase.Sleeping? {
      wait, go := WaitFor(s, s.tasks[t].phase.due), TimerFires(t, false);
      TimerDelivers(c, s, t, k);
    } else {
      wait, go := WaitFor(s, s.tasks[t].phase.next), WaiterPolls(t, false, false, false);
      WaiterDelivers(c, s, t, k);
    }
    RunAppend(c, events, wait);
    RunAppend(c, events + [wait], go);
    more := [wait, go];
    assert events + more == events + [wait] + [go];
  }

  function EndOf(id: Option<TaskId>): Event {
    match id case Some(t) => CancelledTaskEnds(t) case None => Elapse(0)
  }

  lemma EndOfStopped(c: Config, s: State, id: Option<TaskId>, k: Key, t: TaskId)
    requires Tables(s, None) && WillFlush(s, t, k) && s.tasks[t].phase.Gathering?
    requires Stopped(s.tasks, s.nextTask, id)
    ensures var s' := Step(c, s, EndOf(id));
      Gone(s', id) && t in s'.tasks && s'.tasks[t] == s.tasks[t]
      && s'.pending == s.pending && s'.handed == s.handed
      && (forall other: Option<TaskId> :: Gone(s, other) ==> Gone(s', other))
  {
  }

  lemma DeliverGathering(c: Config, events: seq<Event>, k: Key, t: TaskId) returns (more: seq<Event>)
    requires k in Run(c, events).pending && Inv(c, Run(c, events))
    requires WillFlush(Run(c, events), t, k) && Run(c, events).tasks[t].phase.Gathering?
    ensures forall e :: e in more ==> !e.Enqueue?
    ensures var s, s' := Run(c, events), Run(c, events + more);
      k !in s'.pending && Handed(s', k) == Handed(s, k) + [s.pending[k]]
  {
    var s := Run(c, events);
    assert Covered(c, s, k);
    var phase := s.tasks[t].phase;
    var end1, end2, go := EndOf(phase.first), EndOf(phase.second), FlushNowResumes(t, false);
    EndOfStopped(c, s, phase.first, k, t);
    RunAppend(c, events, end1);
    var s1 := Step(c, s, end1);
    StepKeepsTables(c, s, end1);
    assert Stopped(s1.tasks, s1.nextTask, phase.second);
    EndOfStopped(c, s1, phase.second, k, t);
    RunAppend(c, events + [end1], end2);
    RunAppend(c, events + [end1] + [end2], go);
    more := [end1, end2, go];
    assert events + more == events + [end1] + [end2] + [go];
  }
}
