/**
 The coalescer as the object it is: four dictionaries and the event loop's task
 table, changed in place. Each entry point is proved to be one step of the state
 machine whose runs CoalescerTheorems is about.
 */
module Coalescer {
  import opened Common
  import opened BatchMerge
  import opened CoalescerModel

  lemma CancelOneMore(tasks: map<TaskId, Task>, ids: set<TaskId>, id: TaskId)
    ensures CancelTask(CancelAll(tasks, ids), id) == CancelAll(tasks, ids + {id})
  {
  }

  lemma NoneCancelled(tasks: map<TaskId, Task>)
    ensures CancelAll(tasks, {}) == tasks
  {
  }

  lemma LeftOut(ids: set<TaskId>, left: set<TaskId>, id: TaskId)
    requires left <= ids && id in left
    ensures ids - left + {id} == ids - (left - {id})
  {
  }

  class GroupMessageCoalescer {
    const config: Config
    var now: nat
    var pending: map<Key, seq<Arrival>>
    var idleTasks: map<Key, TaskId>
    var maxWaitTasks: map<Key, TaskId>
    var busyWaiters: map<Key, TaskId>
    var loop: map<TaskId, Task>
    var nextTask: TaskId
    /** Every merged message passed to the dispatch callback, in order. */
    var dispatched: seq<Dispatch>
    ghost var handed: map<Key, seq<seq<Arrival>>>

    ghost function View(): State
      reads this
    {
      State(now, pending, idleTasks, maxWaitTasks, busyWaiters, loop, nextTask, handed, dispatched)
    }

    constructor (config: Config)
      ensures this.config == config && View() == INITIAL
    {
      this.config := config;
      now, nextTask := 0, 0;
      pending, idleTasks, maxWaitTasks, busyWaiters, loop := map[], map[], map[], map[], map[];
      dispatched, handed := [], map[];
    }

    method CreateTask(task: Task) returns (id: TaskId)
      modifies this`loop, this`nextTask
      ensures id == old(nextTask) && nextTask == id + 1 && loop == old(loop)[id := task]
    {
      id := nextTask;
      loop := loop[id := task];
      nextTask := nextTask + 1;
    }

    method CancelTaskById(id: TaskId)
      modifies this`loop
      ensures loop == CancelTask(old(loop), id)
    {
      if id in loop {
        loop := loop[id := loop[id].(phase := Cancelled)];
      }
    }

    method CancelTasks(ids: set<TaskId>)
      modifies this`loop
      ensures loop == CancelAll(old(loop), ids)
    {
      hide CancelAll, CancelTask;
      var left := ids;
      assert ids - left == {};
      NoneCancelled(loop);
      while left != {}
        invariant left <= ids && loop == CancelAll(old(loop), ids - left)
        decreases |left|
      {
        var id :| id in left;
        CancelOneMore(old(loop), ids - left, id);
        CancelTaskById(id);
        LeftOut(ids, left, id);
        left := left - {id};
      }
      assert ids - {} == ids;
    }

    /** Shutdown: the registered tasks are cancelled, then all tables emptied. */
    method Cancel()
      modifies this
      ensures View() == Shutdown(old(View()))
    {
      CancelTasks(idleTasks.Values + maxWaitTasks.Values + busyWaiters.Values);
      pending, idleTasks, maxWaitTasks, busyWaiters := map[], map[], map[], map[];
    }

    method Enqueue(key: Key, message: InboundMessage, idleOverride: Option<nat>)
      modifies this
      ensures View() == Step(config, old(View()), Event.Enqueue(key, message, idleOverride))
    {
      var delay := match idleOverride case Some(d) => d case None => config.idleMs;
      if key !in pending {
        pending := pending[key := []];
      }
      pending := pending[key := pending[key] + [Arrival(message, now, delay)]];
      assert pending == old(pending)[key := Pending(old(View()), key) + [Arrival(message, now, delay)]];
      ResetIdleTask(key, delay);
      if key !in maxWaitTasks {
        StartMaxWaitTask(key, Max(config.maxWaitMs, delay));
      }
    }

    method StartMaxWaitTask(key: Key, delay: nat)
      modifies this`maxWaitTasks, this`loop, this`nextTask
      ensures View() == StartMaxWait(old(View()), key, delay)
    {
      var id := CreateTask(Task(MaxWaitTimer, key, Sleeping(now + delay)));
      maxWaitTasks := maxWaitTasks[key := id];
    }

    method ResetIdleTask(key: Key, delay: nat)
      modifies this`idleTasks, this`loop, this`nextTask
      ensures View() == ResetIdle(old(View()), key, delay)
    {
      if key in idleTasks {
        var task := idleTasks[key];
        idleTasks := idleTasks - {key};
        CancelTaskById(task);
      }
      var id := CreateTask(Task(IdleTimer, key, Sleeping(now + delay)));
      idleTasks := idleTasks[key := id];
    }

    method HoldUntilIdle(key: Key)
      modifies this`busyWaiters, this`loop, this`nextTask
      ensures View() == Hold(old(View()), key)
    {
      if key in busyWaiters {
        return;
      }
      var id := CreateTask(Task(BusyWaiter, key, Polling(now, Unset)));
      busyWaiters := busyWaiters[key := id];
    }

    /** The `finally` clause of the three task bodies, and the end of the run. */
    method Finish(id: TaskId)
      requires id in loop
      modifies this`idleTasks, this`maxWaitTasks, this`busyWaiters, this`loop
      ensures View() == EndTask(old(View()), id)
    {
      var key := loop[id].key;
      match loop[id].kind {
        case IdleTimer =>
          if key in idleTasks && idleTasks[key] == id { idleTasks := idleTasks - {key}; }
        case MaxWaitTimer =>
          if key in maxWaitTasks && maxWaitTasks[key] == id { maxWaitTasks := maxWaitTasks - {key}; }
        case BusyWaiter =>
          if key in busyWaiters && busyWaiters[key] == id { busyWaiters := busyWaiters - {key}; }
        case Caller =>
      }
      loop := loop - {id};
    }

    /** The key's idle timer is unregistered, and cancelled unless it is `self`. */
    method DropIdleTask(key: Key, self: TaskId)
      modifies this`idleTasks, this`loop
      ensures idleTasks == old(idleTasks) - {key}
      ensures loop == CancelRegistered(old(loop), old(idleTasks), key, Some(self))
    {
      if key in idleTasks {
        var task := idleTasks[key];
        idleTasks := idleTasks - {key};
        if task != self { CancelTaskById(task); }
      }
    }

    method DropMaxWaitTask(key: Key, self: TaskId)
      modifies this`maxWaitTasks, this`loop
      ensures maxWaitTasks == old(maxWaitTasks) - {key}
      ensures loop == CancelRegistered(old(loop), old(maxWaitTasks), key, Some(self))
    {
      if key in maxWaitTasks {
        var task := maxWaitTasks[key];
        maxWaitTasks := maxWaitTasks - {key};
        if task != self { CancelTaskById(task); }
      }
    }

    /** `flush` up to the dispatch, which is then in flight in task `id`. */
    method FlushIn(id: TaskId, busy: bool, force: bool)
      requires id in loop
      modifies this
      ensures View() == Flush(old(View()), id, busy, force)
    {
      var key := loop[id].key;
      if !force && key in pending && busy {
        HoldUntilIdle(key);
        Finish(id);
        return;
      }
      var batch := if key in pending then pending[key] else [];
      pending := pending - {key};
      if batch == [] {
        Finish(id);
        return;
      }
      assert pending[key := batch] == old(pending);
      HandOver(id, key, batch);
      var merged := MergeBatch(MessagesOf(batch));
      dispatched := dispatched + [Dispatch(key, merged)];
    }

    /** The batch now belongs to task `id`; both timers are dropped. */
    method HandOver(id: TaskId, key: Key, batch: seq<Arrival>)
      requires id in loop && key !in pending && batch != []
      modifies this`loop, this`idleTasks, this`maxWaitTasks, this`handed
      ensures View() ==
        Take(old(View()).(pending := old(pending)[key := batch]), id, key).(dispatched := dispatched)
    {
      loop := loop[id := loop[id].(phase := Dispatching(batch))];
      DropIdleTask(key, id);
      DropMaxWaitTask(key, id);
      handed := handed[key := (if key in handed then handed[key] else []) + [batch]];
      assert old(pending)[key := batch] - {key} == old(pending);
    }

    /** Both timers are taken out and cancelled. */
    method TakeTimers(key: Key) returns (first: Option<TaskId>, second: Option<TaskId>)
      modifies this`idleTasks, this`maxWaitTasks, this`loop
      ensures first == Lookup(old(idleTasks), key) && second == Lookup(old(maxWaitTasks), key)
      ensures idleTasks == old(idleTasks) - {key} && maxWaitTasks == old(maxWaitTasks) - {key}
      ensures loop ==
        CancelRegistered(CancelRegistered(old(loop), old(idleTasks), key, None), old(maxWaitTasks), key, None)
    {
      first, second := None, None;
      if key in idleTasks {
        first := Some(idleTasks[key]);
        idleTasks := idleTasks - {key};
        CancelTaskById(first.value);
      }
      if key in maxWaitTasks {
        second := Some(maxWaitTasks[key]);
        maxWaitTasks := maxWaitTasks - {key};
        CancelTaskById(second.value);
      }
    }

    /** First half of `flush_now`; with no timer to wait for it goes on at once. */
    method BeginFlushNow(key: Key, busy: bool)
      modifies this
      ensures View() == Step(config, old(View()), FlushNow(key, busy))
    {
      var first, second := TakeTimers(key);
      var id := CreateTask(Task(Caller, key, Gathering(first, second)));
      assert View() == OpenFlushNow(old(View()), key);
      if first.None? && second.None? {
        FlushIn(id, busy, false);
      }
    }

    /** Second half of `flush_now`, and a timer that wakes up. */
    method ResumeFlush(id: TaskId, busy: bool)
      requires id in loop
      requires Enabled(View(), FlushNowResumes(id, busy)) || Enabled(View(), TimerFires(id, busy))
      modifies this
      ensures View() == Step(config, old(View()),
        if old(loop)[id].phase.Gathering? then FlushNowResumes(id, busy) else TimerFires(id, busy))
    {
      FlushIn(id, busy, false);
    }

    /** One turn of the busy waiter's polling loop, and what follows it. */
    method PollWaiter(id: TaskId, busy: bool, keepWaiting: bool, busyAgain: bool)
      requires Enabled(View(), WaiterPolls(id, busy, keepWaiting, busyAgain))
      modifies this
      ensures View() == Step(config, old(View()), WaiterPolls(id, busy, keepWaiting, busyAgain))
    {
      var task := loop[id];
      var deadline := BeginDeadline(config, now, task.phase.deadline);
      var timedOut := false;
      if busy {
        if deadline.At? && now >= deadline.time {
          if keepWaiting {
            if config.busyTimeoutMs.Some? {
              deadline := At(now + config.busyTimeoutMs.value);
            }
          } else {
            timedOut := true;
          }
        }
        if !timedOut {
          loop := loop[id := task.(phase := Polling(now + config.pollMs, deadline))];
          return;
        }
      }
      if task.key in busyWaiters && busyWaiters[task.key] == id {
        busyWaiters := busyWaiters - {task.key};
      }
      assert View() == StopWaiting(old(View()), id);
      FlushIn(id, busyAgain, timedOut);
    }

    /** A cancelled task or a dispatching one reaches its end. */
    method EndOfTask(id: TaskId)
      requires id in loop && (loop[id].phase.Cancelled? || loop[id].phase.Dispatching?)
      modifies this`idleTasks, this`maxWaitTasks, this`busyWaiters, this`loop
      ensures View() == Step(config, old(View()),
        if old(loop)[id].phase.Cancelled? then CancelledTaskEnds(id) else DispatchEnds(id))
    {
      Finish(id);
    }
  }
}
