/**
 When the coalescer's timers are due, over every run: the idle timer follows the last message, and
 a busy waiter forces its batch out only after the busy timeout.
 */
module CoalescerTimers {
  import opened Common
  import opened BatchMerge
  import opened CoalescerModel
  import opened CoalescerProofs
  import opened CoalescerTheorems

  // --- The idle timer -------------------------------------------------------------------------------

  /** The idle timer of a key is due when its last message's delay is over. */
  predicate IdleOnTime(s: State, k: Key) {
    k in s.idle ==>
      && k in s.pending && s.pending[k] != [] && s.idle[k] in s.tasks
      && s.tasks[s.idle[k]].phase == Sleeping(Last(s.pending[k]).at + Last(s.pending[k]).delay)
  }

  lemma EndKeepsIdle(s: State, id: TaskId, k: Key)
    requires Tables(s, Some(id)) && id in s.tasks && IdleOnTime(s, k)
    ensures IdleOnTime(EndTask(s, id), k)
  {
  }

  lemma HoldKeepsIdle(s: State, key: Key, k: Key)
    requires s.nextTask !in s.tasks && IdleOnTime(s, k)
    ensures IdleOnTime(Hold(s, key), k)
  {
  }

  lemma TakeKeepsIdle(s: State, id: TaskId, key: Key, k: Key)
    requires Tables(s, Some(id)) && id in s.tasks && s.tasks[id].key == key && key in s.pending && s.pending[key] != []
    requires IdleOnTime(s, k)
    ensures IdleOnTime(Take(s, id, key), k)
  {
    if k != key {
      TakeUntouched(s, id, key, k);
      if k in s.idle {
        assert s.tasks[s.idle[k]].key == k;
      }
    }
  }

  lemma FlushKeepsIdle(s: State, id: TaskId, busy: bool, force: bool, k: Key)
    requires Tables(s, Some(id)) && Flushing(s, id) && IdleOnTime(s, k)
    ensures IdleOnTime(Flush(s, id, busy, force), k)
  {
    var key := s.tasks[id].key;
    if !force && key in s.pending && busy {
      HoldKeeps(s, key, id);
      HoldKeepsIdle(s, key, k);
      EndKeepsIdle(Hold(s, key), id, k);
    } else if Pending(s, key) == [] {
      EndKeepsIdle(s.(pending := s.pending - {key}), id, k);
    } else {
      TakeKeepsIdle(s, id, key, k);
    }
  }

  /** A new message restarts its key's idle timer. */
  lemma ResetStartsIdle(s: State, key: Key, delay: nat)
    requires key in s.pending && s.pending[key] != []
    requires Last(s.pending[key]).at == s.now && Last(s.pending[key]).delay == delay
    ensures key in ResetIdle(s, key, delay).idle && IdleOnTime(ResetIdle(s, key, delay), key)
  {
  }

  lemma ResetKeepsOthers(s: State, key: Key, delay: nat, k: Key)
    requires Tables(s, None) && k != key && IdleOnTime(s, k)
    ensures IdleOnTime(ResetIdle(s, key, delay), k)
  {
    if k in s.idle && key in s.idle {
      assert s.tasks[s.idle[k]].key == k && s.tasks[s.idle[key]].key == key;
    }
    assert s.nextTask !in s.tasks;
  }

  lemma StartKeepsIdle(s: State, key: Key, delay: nat, k: Key)
    requires s.nextTask !in s.tasks && IdleOnTime(s, k)
    ensures IdleOnTime(StartMaxWait(s, key, delay), k)
  {
  }

  lemma QueueKeepsTables(s: State, s': State)
    requires Tables(s, None) && s' == s.(pending := s'.pending)
    ensures Tables(s', None)
  {
  }

  lemma NextIsFree(s: State, key: Key, delay: nat)
    requires Tables(s, None)
    ensures ResetIdle(s, key, delay).nextTask !in ResetIdle(s, key, delay).tasks
    ensures key in ResetIdle(s, key, delay).idle
  {
  }

  lemma EnqueueKeepsIdle(c: Config, s: State, key: Key, message: InboundMessage, idleOverride: Option<nat>, k: Key)
    requires Tables(s, None) && IdleOnTime(s, k)
    ensures IdleOnTime(EnqueueStep(c, s, key, message, idleOverride), k)
    ensures key in EnqueueStep(c, s, key, message, idleOverride).idle
  {
    hide RegistryFits, TasksFit;
    var delay := DelayOf(c, idleOverride);
    var s1 := s.(pending := s.pending[key := Pending(s, key) + [Arrival(message, s.now, delay)]]);
    QueueKeepsTables(s, s1);
    var s2 := ResetIdle(s1, key, delay);
    NextIsFree(s1, key, delay);
    if k == key {
      ResetStartsIdle(s1, key, delay);
    } else {
      ResetKeepsOthers(s1, key, delay, k);
    }
    StartKeepsIdle(s2, key, Max(c.maxWaitMs, delay), k);
  }

  lemma OpenFlushNowKeepsIdle(s: State, key: Key, k: Key)
    requires Tables(s, None) && IdleOnTime(s, k)
    ensures IdleOnTime(OpenFlushNow(s, key), k)
  {
    if k in s.idle && k != key {
      var t := s.idle[k];
      assert s.tasks[t].key == k && t < s.nextTask;
      assert (key in s.idle ==> s.idle[key] != t) && (key in s.maxWait ==> s.maxWait[key] != t);
    }
  }

  lemma FlushNowKeepsIdle(s: State, key: Key, busy: bool, k: Key)
    requires Tables(s, None) && IdleOnTime(s, k)
    ensures IdleOnTime(FlushNowStep(s, key, busy), k)
  {
    OpenFlushNowKeepsIdle(s, key, k);
    if key !in s.idle && key !in s.maxWait {
      OpenFlushNowKeepsTables(s, key);
      FlushKeepsIdle(OpenFlushNow(s, key), s.nextTask, busy, false, k);
    }
  }

  lemma PollAgainKeepsIdle(c: Config, s: State, id: TaskId, k: Key)
    requires Tables(s, None) && id in s.tasks && s.tasks[id].phase.Polling? && IdleOnTime(s, k)
    ensures IdleOnTime(PollAgain(c, s, id), k)
  {
    if k in s.idle {
      assert s.tasks[s.idle[k]].kind == IdleTimer && PhaseFits(s.tasks[id]);
    }
  }

  lemma WaiterKeepsIdle(c: Config, s: State, id: TaskId, busy: bool, keepWaiting: bool, busyAgain: bool, k: Key)
    requires Tables(s, None) && id in s.tasks && s.tasks[id].phase.Polling? && IdleOnTime(s, k)
    ensures IdleOnTime(WaiterStep(c, s, id, busy, keepWaiting, busyAgain), k)
  {
    if busy && (keepWaiting || !Late(c, s, id)) {
      PollAgainKeepsIdle(c, s, id, k);
    } else {
      StopWaitingKeepsTables(s, id);
      FlushKeepsIdle(StopWaiting(s, id), id, busyAgain, busy, k);
    }
  }

  lemma WithSelf(s: State, id: TaskId)
    requires Tables(s, None)
    ensures Tables(s, Some(id))
  {
  }

  lemma ReadyToFlush(s: State, id: TaskId)
    requires Tables(s, None) && id in s.tasks && (s.tasks[id].phase.Sleeping? || s.tasks[id].phase.Gathering?)
    ensures Tables(s, Some(id)) && Flushing(s, id)
  {
    assert PhaseFits(s.tasks[id]);
  }

  lemma StepKeepsIdle(c: Config, s: State, e: Event, k: Key)
    requires Tables(s, None) && IdleOnTime(s, k)
    ensures IdleOnTime(Step(c, s, e), k)
  {
    hide Flush, EnqueueStep, FlushNowStep, WaiterStep, EndTask, RegistryFits, TasksFit;
    if Enabled(s, e) {
      match e
      case Elapse(ms) =>
      case Enqueue(key, message, idleOverride) => EnqueueKeepsIdle(c, s, key, message, idleOverride, k);
      case FlushNow(key, busy) => FlushNowKeepsIdle(s, key, busy, k);
      case FlushNowResumes(id, busy) =>
        ReadyToFlush(s, id);
        FlushKeepsIdle(s, id, busy, false, k);
      case TimerFires(id, busy) =>
        ReadyToFlush(s, id);
        FlushKeepsIdle(s, id, busy, false, k);
      case WaiterPolls(id, busy, keepWaiting, busyAgain) =>
        WaiterKeepsIdle(c, s, id, busy, keepWaiting, busyAgain, k);
      case CancelledTaskEnds(id) =>
        WithSelf(s, id);
        EndKeepsIdle(s, id, k);
      case DispatchEnds(id) =>
        WithSelf(s, id);
        EndKeepsIdle(s, id, k);
    }
  }

  lemma {:induction false} RunKeepsIdle(c: Config, events: seq<Event>, k: Key)
    ensures IdleOnTime(Run(c, events), k)
  {
    if events != [] {
      var before := events[..|events| - 1];
      RunKeepsInv(c, before);
      RunKeepsIdle(c, before, k);
      StepKeepsIdle(c, Run(c, before), Last(events), k);
    }
  }

  /**
   In every run an idle timer is due exactly when the delay that the key's last message asked for
   has passed since that message.
   */
  lemma IdleFollowsLastMessage(c: Config, events: seq<Event>, k: Key)
    requires k in Run(c, events).idle
    ensures var s, arrivals := Run(c, events), Arrivals(c, events, k);
      && arrivals != [] && s.idle[k] in s.tasks
      && s.tasks[s.idle[k]] == Task(IdleTimer, k, Sleeping(Last(arrivals).at + Last(arrivals).delay))
  {
    RunKeepsInv(c, events);
    RunKeepsIdle(c, events, k);
    Conservation(c, events, k);
  }

  /** Every message starts one, due after the delay it asks for, or the configured one. */
  lemma MessageStartsIdle(c: Config, events: seq<Event>, k: Key, message: InboundMessage, idleOverride: Option<nat>)
    ensures var s, s' := Run(c, events), Run(c, events + [Enqueue(k, message, idleOverride)]);
      && k in s'.idle && s'.idle[k] in s'.tasks
      && s'.tasks[s'.idle[k]].phase
         == Sleeping(s.now + if idleOverride.Some? then idleOverride.value else c.idleMs)
  {
    var e := Enqueue(k, message, idleOverride);
    RunKeepsInv(c, events);
    RunKeepsIdle(c, events, k);
    RunAppend(c, events, e);
    EnqueueKeepsIdle(c, Run(c, events), k, message, idleOverride, k);
    IdleFollowsLastMessage(c, events + [e], k);
    assert (events + [e])[..|events|] == events && Last(events + [e]) == e;
  }

  // --- The busy timeout ------------------------------------------------------------------------------

  /**
   When a waiter's patience last began: at its first poll that found the chat busy, or at a later one
   after the timeout when it was told to keep waiting.
   */
  function PatientSince(c: Config, events: seq<Event>, w: TaskId): Option<nat> {
    if events == [] then None
    else
      var before := events[..|events| - 1];
      Since(c, Run(c, before), Last(events), w, PatientSince(c, before, w))
  }

  function Since(c: Config, s: State, e: Event, w: TaskId, since: Option<nat>): Option<nat> {
    if !e.WaiterPolls? || e.waiter != w || !e.busy || !Enabled(s, e) then since
    else if since.None? || (TimedOut(c, since.value, s.now) && e.keepWaiting) then Some(s.now)
    else since
  }

  predicate TimedOut(c: Config, since: nat, now: nat) {
    c.busyTimeoutMs.Some? && now >= since + c.busyTimeoutMs.value
  }

  /** The deadline of a waiter whose patience began then. */
  function DeadlineFrom(c: Config, since: Option<nat>): Deadline {
    match since
    case None => Unset
    case Some(t) => if c.busyTimeoutMs.Some? then At(t + c.busyTimeoutMs.value) else Never
  }

  predicate PollsWith(s: State, w: TaskId, deadline: Deadline) {
    w in s.tasks && s.tasks[w].phase.Polling? ==> s.tasks[w].phase.deadline == deadline
  }

  /** A polling task is an old one with its old deadline, or a new one without. */
  predicate NewPollsOnly(s: State, s': State) {
    && s.nextTask <= s'.nextTask
    && forall t :: t in s'.tasks && s'.tasks[t].phase.Polling? ==>
         (t in s.tasks && s.tasks[t].phase == s'.tasks[t].phase)
         || (t >= s.nextTask && s'.tasks[t].phase.deadline == Unset)
  }

  lemma EndPolls(s: State, id: TaskId)
    requires id in s.tasks
    ensures NewPollsOnly(s, EndTask(s, id))
  {
  }

  lemma TakePolls(s: State, id: TaskId, key: Key)
    requires id in s.tasks && key in s.pending && s.pending[key] != []
    ensures NewPollsOnly(s, Take(s, id, key))
  {
  }

  lemma FlushPolls(s: State, id: TaskId, busy: bool, force: bool)
    requires id in s.tasks
    ensures NewPollsOnly(s, Flush(s, id, busy, force))
  {
    var key := s.tasks[id].key;
    if !force && key in s.pending && busy {
      EndPolls(Hold(s, key), id);
    } else if Pending(s, key) == [] {
      EndPolls(s.(pending := s.pending - {key}), id);
    } else {
      TakePolls(s, id, key);
    }
  }

  lemma EnqueuePolls(c: Config, s: State, key: Key, message: InboundMessage, idleOverride: Option<nat>)
    ensures NewPollsOnly(s, EnqueueStep(c, s, key, message, idleOverride))
  {
  }

  lemma FlushNowPolls(s: State, key: Key, busy: bool)
    ensures NewPollsOnly(s, FlushNowStep(s, key, busy))
  {
    var open := OpenFlushNow(s, key);
    assert NewPollsOnly(s, open);
    if key !in s.idle && key !in s.maxWait {
      FlushPolls(open, s.nextTask, busy, false);
    }
  }

  lemma WaiterPollsOn(c: Config, s: State, id: TaskId, busy: bool, keepWaiting: bool, busyAgain: bool, w: TaskId)
    requires id in s.tasks && s.tasks[id].phase.Polling? && w != id
    ensures var s' := WaiterStep(c, s, id, busy, keepWaiting, busyAgain);
      && s.nextTask <= s'.nextTask
      && (w in s'.tasks && s'.tasks[w].phase.Polling? ==>
           (w in s.tasks && s.tasks[w].phase == s'.tasks[w].phase)
           || (w >= s.nextTask && s'.tasks[w].phase.deadline == Unset))
  {
    if !(busy && (keepWaiting || !Late(c, s, id))) {
      FlushPolls(StopWaiting(s, id), id, busyAgain, busy);
    }
  }

  /** Late by the deadline is late by the log. */
  lemma LateByTheLog(c: Config, s: State, w: TaskId, since: Option<nat>)
    requires w in s.tasks && s.tasks[w].phase.Polling? && s.tasks[w].phase.deadline == DeadlineFrom(c, since)
    ensures Late(c, s, w) == TimedOut(c, if since.Some? then since.value else s.now, s.now)
  {
  }

  lemma PollAgainDeadline(c: Config, s: State, w: TaskId, keepWaiting: bool, busyAgain: bool, since: Option<nat>)
    requires w in s.tasks && s.tasks[w].phase.Polling? && s.now >= s.tasks[w].phase.next
    requires s.tasks[w].phase.deadline == DeadlineFrom(c, since) && (keepWaiting || !Late(c, s, w))
    ensures var e := WaiterPolls(w, true, keepWaiting, busyAgain);
      PollsWith(PollAgain(c, s, w), w, DeadlineFrom(c, Since(c, s, e, w, since)))
  {
    LateByTheLog(c, s, w, since);
  }

  /** The polling waiter itself: it polls again with the deadline its patience gives it, or is done. */
  lemma OwnPoll(c: Config, s: State, w: TaskId, busy: bool, keepWaiting: bool, busyAgain: bool, since: Option<nat>)
    requires w in s.tasks && w < s.nextTask && s.tasks[w].phase.Polling? && s.now >= s.tasks[w].phase.next
    requires s.tasks[w].phase.deadline == DeadlineFrom(c, since)
    ensures var e := WaiterPolls(w, busy, keepWaiting, busyAgain);
      PollsWith(WaiterStep(c, s, w, busy, keepWaiting, busyAgain), w, DeadlineFrom(c, Since(c, s, e, w, since)))
  {
    if busy && (keepWaiting || !Late(c, s, w)) {
      PollAgainDeadline(c, s, w, keepWaiting, busyAgain, since);
    } else {
      FlusherIsDone(StopWaiting(s, w), w, busyAgain, busy);
    }
  }

  lemma FlusherIsDone(s: State, id: TaskId, busy: bool, force: bool)
    requires id in s.tasks && id < s.nextTask
    ensures id in Flush(s, id, busy, force).tasks ==> !Flush(s, id, busy, force).tasks[id].phase.Polling?
  {
  }

  /** What the log says of a waiter's patience is what its deadline says. */
  predicate Patient(c: Config, s: State, w: TaskId, since: Option<nat>) {
    PollsWith(s, w, DeadlineFrom(c, since)) && (w >= s.nextTask ==> since.None?)
  }

  lemma NewPollsPatient(c: Config, s: State, s': State, w: TaskId, since: Option<nat>)
    requires Patient(c, s, w, since) && NewPollsOnly(s, s')
    ensures Patient(c, s', w, since)
  {
  }

  lemma StepPatient(c: Config, s: State, e: Event, w: TaskId, since: Option<nat>)
    requires Tables(s, None) && Patient(c, s, w, since)
    ensures Patient(c, Step(c, s, e), w, Since(c, s, e, w, since))
  {
    if Enabled(s, e) {
      match e
      case Elapse(ms) => NewPollsPatient(c, s, s.(now := s.now + ms), w, since);
      case Enqueue(key, message, idleOverride) =>
        EnqueuePolls(c, s, key, message, idleOverride);
        NewPollsPatient(c, s, EnqueueStep(c, s, key, message, idleOverride), w, since);
      case FlushNow(key, busy) =>
        FlushNowPolls(s, key, busy);
        NewPollsPatient(c, s, FlushNowStep(s, key, busy), w, since);
      case FlushNowResumes(id, busy) =>
        FlushPolls(s, id, busy, false);
        NewPollsPatient(c, s, Flush(s, id, busy, false), w, since);
      case TimerFires(id, busy) =>
        FlushPolls(s, id, busy, false);
        NewPollsPatient(c, s, Flush(s, id, busy, false), w, since);
      case WaiterPolls(id, busy, keepWaiting, busyAgain) =>
        WaiterPatient(c, s, id, busy, keepWaiting, busyAgain, w, since);
      case CancelledTaskEnds(id) =>
        EndPolls(s, id);
        NewPollsPatient(c, s, EndTask(s, id), w, since);
      case DispatchEnds(id) =>
        EndPolls(s, id);
        NewPollsPatient(c, s, EndTask(s, id), w, since);
    }
  }

  lemma WaiterPatient(
      c: Config, s: State, id: TaskId, busy: bool, keepWaiting: bool, busyAgain: bool, w: TaskId, since: Option<nat>)
    requires Tables(s, None) && Patient(c, s, w, since)
    requires Enabled(s, WaiterPolls(id, busy, keepWaiting, busyAgain))
    ensures var e := WaiterPolls(id, busy, keepWaiting, busyAgain);
      Patient(c, WaiterStep(c, s, id, busy, keepWaiting, busyAgain), w, Since(c, s, e, w, since))
  {
    if w == id {
      OwnPoll(c, s, w, busy, keepWaiting, busyAgain, since);
      WaiterNext(c, s, id, busy, keepWaiting, busyAgain);
    } else {
      WaiterPollsOn(c, s, id, busy, keepWaiting, busyAgain, w);
    }
  }

  lemma WaiterNext(c: Config, s: State, id: TaskId, busy: bool, keepWaiting: bool, busyAgain: bool)
    requires Tables(s, None) && id in s.tasks && s.tasks[id].phase.Polling?
    ensures id < WaiterStep(c, s, id, busy, keepWaiting, busyAgain).nextTask
  {
    if !(busy && (keepWaiting || !Late(c, s, id))) {
      FlushPolls(StopWaiting(s, id), id, busyAgain, busy);
    }
  }

  lemma {:induction false} RunPatient(c: Config, events: seq<Event>, w: TaskId)
    ensures Patient(c, Run(c, events), w, PatientSince(c, events, w))
  {
    if events != [] {
      var before := events[..|events| - 1];
      RunKeepsInv(c, before);
      RunPatient(c, before, w);
      StepPatient(c, Run(c, before), Last(events), w, PatientSince(c, before, w));
    }
  }

  lemma ForcedFlushTakes(s: State, id: TaskId, busy: bool, k: Key)
    requires id in s.tasks && s.tasks[id].key == k && k in s.pending && s.pending[k] != []
    ensures k !in Flush(s, id, busy, true).pending
  {
  }

  lemma BusyPoll(c: Config, s: State, w: TaskId, keepWaiting: bool, busyAgain: bool, k: Key)
    requires w in s.tasks && s.tasks[w].phase.Polling? && s.tasks[w].key == k && k in s.pending && s.pending[k] != []
    ensures var s' := WaiterStep(c, s, w, true, keepWaiting, busyAgain);
      && (k !in s'.pending <==> !keepWaiting && Late(c, s, w))
      && (k in s'.pending ==>
           w in s'.tasks && s'.tasks[w].phase.Polling? && s'.tasks[w].phase.next == s.now + c.pollMs)
  {
    if !keepWaiting && Late(c, s, w) {
      ForcedFlushTakes(StopWaiting(s, w), w, busyAgain, k);
    }
  }

  /**
   A waiter that polls and finds the chat busy hands the queue over exactly when the busy timeout has
   passed since its patience began and it is not told to keep waiting; otherwise it polls again after
   the poll interval.
   */
  lemma BusyQueueIsForcedExactlyWhen(c: Config, events: seq<Event>, w: TaskId, keepWaiting: bool, busyAgain: bool)
    requires Enabled(Run(c, events), WaiterPolls(w, true, keepWaiting, busyAgain))
    requires Run(c, events).tasks[w].key in Run(c, events).pending
    ensures var s, s' := Run(c, events), Run(c, events + [WaiterPolls(w, true, keepWaiting, busyAgain)]);
      var since := if PatientSince(c, events, w).Some? then PatientSince(c, events, w).value else s.now;
      && (s.tasks[w].key !in s'.pending <==> !keepWaiting && TimedOut(c, since, s.now))
      && (s.tasks[w].key in s'.pending ==>
           w in s'.tasks && s'.tasks[w].phase.Polling? && s'.tasks[w].phase.next == s.now + c.pollMs)
  {
    hide WaiterStep, Late;
    var s, k := Run(c, events), Run(c, events).tasks[w].key;
    RunPatient(c, events, w);
    NoStrandedBatch(c, events, k);
    RunAppend(c, events, WaiterPolls(w, true, keepWaiting, busyAgain));
    LateByTheLog(c, s, w, PatientSince(c, events, w));
    BusyPoll(c, s, w, keepWaiting, busyAgain, k);
  }
}
