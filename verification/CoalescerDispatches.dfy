/**
 What the dispatched messages carry, over every run: all that was enqueued, in order, message by
 message inside them.
 */
module CoalescerDispatches {
  import opened Common
  import opened BatchMerge
  import opened CoalescerModel
  import opened CoalescerProofs
  import opened CoalescerTheorems

  /** The messages dispatched for a key, in order. */
  function DispatchedTo(dispatched: seq<Dispatch>, k: Key): seq<InboundMessage> {
    if dispatched == [] then []
    else
      DispatchedTo(dispatched[..|dispatched| - 1], k)
        + (if Last(dispatched).key == k then [Last(dispatched).message] else [])
  }

  /** The messages enqueued for a key, in order. */
  function Enqueued(events: seq<Event>, k: Key): seq<InboundMessage> {
    if events == [] then []
    else
      Enqueued(events[..|events| - 1], k)
        + (if Last(events).Enqueue? && Last(events).key == k then [Last(events).message] else [])
  }

  /** The messages still queued for a key. */
  function Queue(s: State, k: Key): seq<InboundMessage> {
    MessagesOf(Pending(s, k))
  }

  /** The raw messages inside a merged one. */
  function RawsInside(m: InboundMessage): seq<Raw> {
    match m.raw
    case Batch(messages) => messages
    case _ => []
  }

  // --- What is dispatched is what was handed over --------------------------------------------------

  /** One message per batch, each the merge of its batch. */
  ghost predicate Merges(sent: seq<InboundMessage>, batches: seq<seq<Arrival>>) {
    && |sent| == |batches|
    && forall i :: 0 <= i < |sent| ==> batches[i] != [] && sent[i] == Merge(MessagesOf(batches[i]))
  }

  ghost predicate Dispatched(s: State, k: Key) {
    Merges(DispatchedTo(s.dispatched, k), Handed(s, k))
  }

  lemma DispatchSnoc(dispatched: seq<Dispatch>, d: Dispatch, k: Key)
    ensures d.key == k ==> DispatchedTo(dispatched + [d], k) == DispatchedTo(dispatched, k) + [d.message]
    ensures d.key != k ==> DispatchedTo(dispatched + [d], k) == DispatchedTo(dispatched, k)
  {
    assert (dispatched + [d])[..|dispatched|] == dispatched;
  }

  lemma TakeHands(s: State, id: TaskId, key: Key)
    requires id in s.tasks && key in s.pending && s.pending[key] != []
    ensures var batch, after := s.pending[key], Take(s, id, key);
      && after.dispatched == s.dispatched + [Dispatch(key, Merge(MessagesOf(batch)))]
      && after.handed == s.handed[key := Handed(s, key) + [batch]]
  {
  }

  lemma SomeMessage(batch: seq<Arrival>)
    requires batch != []
    ensures MessagesOf(batch) != []
  {
  }

  lemma MergesSnoc(sent: seq<InboundMessage>, batches: seq<seq<Arrival>>, batch: seq<Arrival>)
    requires batch != [] && MessagesOf(batch) != []
    ensures Merges(sent, batches) ==> Merges(sent + [Merge(MessagesOf(batch))], batches + [batch])
  {
    hide Merge, MessagesOf;
  }

  lemma TakeDispatches(s: State, id: TaskId, key: Key, k: Key)
    requires id in s.tasks && key in s.pending && s.pending[key] != [] && Dispatched(s, k)
    ensures Dispatched(Take(s, id, key), k)
  {
    hide Take, Merge, MessagesOf;
    TakeHands(s, id, key);
    SomeMessage(s.pending[key]);
    MergesSnoc(DispatchedTo(s.dispatched, key), Handed(s, key), s.pending[key]);
    DispatchSnoc(s.dispatched, Dispatch(key, Merge(MessagesOf(s.pending[key]))), k);
  }

  lemma FlushDispatches(s: State, id: TaskId, busy: bool, force: bool, k: Key)
    requires id in s.tasks && Dispatched(s, k)
    ensures Dispatched(Flush(s, id, busy, force), k)
  {
    var key := s.tasks[id].key;
    if !force && key in s.pending && busy {
      HoldHandsNothing(s, key);
      EndHandsNothing(Hold(s, key), id);
    } else if Pending(s, key) == [] {
      EndHandsNothing(s.(pending := s.pending - {key}), id);
    } else {
      TakeDispatches(s, id, key, k);
    }
  }

  lemma EnqueueHandsNothing(c: Config, s: State, key: Key, message: InboundMessage, idleOverride: Option<nat>)
    ensures var after := EnqueueStep(c, s, key, message, idleOverride);
      after.handed == s.handed && after.dispatched == s.dispatched
  {
  }

  lemma FlushNowDispatches(s: State, key: Key, busy: bool, k: Key)
    requires Dispatched(s, k)
    ensures Dispatched(FlushNowStep(s, key, busy), k)
  {
    var open := OpenFlushNow(s, key);
    assert open.handed == s.handed && open.dispatched == s.dispatched;
    if key !in s.idle && key !in s.maxWait {
      FlushDispatches(open, s.nextTask, busy, false, k);
    }
  }

  lemma WaiterDispatches(c: Config, s: State, id: TaskId, busy: bool, keepWaiting: bool, busyAgain: bool, k: Key)
    requires id in s.tasks && s.tasks[id].phase.Polling? && Dispatched(s, k)
    ensures Dispatched(WaiterStep(c, s, id, busy, keepWaiting, busyAgain), k)
  {
    if !(busy && (keepWaiting || !Late(c, s, id))) {
      FlushDispatches(StopWaiting(s, id), id, busyAgain, busy, k);
    }
  }

  lemma StepDispatches(c: Config, s: State, e: Event, k: Key)
    requires Dispatched(s, k)
    ensures Dispatched(Step(c, s, e), k)
  {
    if Enabled(s, e) {
      match e
      case Elapse(ms) =>
      case Enqueue(key, message, idleOverride) => EnqueueHandsNothing(c, s, key, message, idleOverride);
      case FlushNow(key, busy) => FlushNowDispatches(s, key, busy, k);
      case FlushNowResumes(id, busy) => FlushDispatches(s, id, busy, false, k);
      case TimerFires(id, busy) => FlushDispatches(s, id, busy, false, k);
      case WaiterPolls(id, busy, keepWaiting, busyAgain) =>
        WaiterDispatches(c, s, id, busy, keepWaiting, busyAgain, k);
      case CancelledTaskEnds(id) => EndHandsNothing(s, id);
      case DispatchEnds(id) => EndHandsNothing(s, id);
    }
  }

  lemma {:induction false} RunDispatches(c: Config, events: seq<Event>, k: Key)
    ensures Dispatched(Run(c, events), k)
  {
    if events != [] {
      var before := events[..|events| - 1];
      RunDispatches(c, before, k);
      StepDispatches(c, Run(c, before), Last(events), k);
    }
  }

  lemma MessagesOfConcat(a: seq<Arrival>, b: seq<Arrival>)
    ensures MessagesOf(a + b) == MessagesOf(a) + MessagesOf(b)
  {
  }

  lemma {:induction false} ArrivalsAreEnqueued(c: Config, events: seq<Event>, k: Key)
    ensures MessagesOf(Arrivals(c, events, k)) == Enqueued(events, k)
  {
    if events != [] {
      ArrivalsAreEnqueued(c, events[..|events| - 1], k);
    }
  }

  lemma HandedAndQueued(c: Config, events: seq<Event>, k: Key)
    ensures var s := Run(c, events);
      MessagesOf(Flatten(Handed(s, k))) + Queue(s, k) == Enqueued(events, k)
  {
    var s := Run(c, events);
    Conservation(c, events, k);
    ArrivalsAreEnqueued(c, events, k);
    MessagesOfConcat(Flatten(Handed(s, k)), Pending(s, k));
  }

  // --- Message by message ---------------------------------------------------------------------------

  lemma MergesBefore(sent: seq<InboundMessage>, batches: seq<seq<Arrival>>)
    requires Merges(sent, batches) && sent != []
    ensures Merges(sent[..|sent| - 1], batches[..|batches| - 1])
    ensures MessagesOf(Last(batches)) != [] && Last(sent) == Merge(MessagesOf(Last(batches)))
  {
  }

  lemma FlattenedMessages(batches: seq<seq<Arrival>>)
    requires batches != []
    ensures MessagesOf(Flatten(batches))
         == MessagesOf(Flatten(batches[..|batches| - 1])) + MessagesOf(Last(batches))
  {
    var before, batch := batches[..|batches| - 1], Last(batches);
    FlattenSnoc(before, batch);
    assert batches == before + [batch];
    MessagesOfConcat(Flatten(before), batch);
  }

  lemma RawsConcat(a: seq<InboundMessage>, b: seq<InboundMessage>)
    ensures Raws(a + b) == Raws(a) + Raws(b)
  {
  }

  lemma MergeHoldsRaws(batch: seq<InboundMessage>)
    requires batch != []
    ensures RawsInside(Merge(batch)) == Raws(batch)
  {
  }

  lemma {:induction false} RawsOfMerges(sent: seq<InboundMessage>, batches: seq<seq<Arrival>>)
    requires Merges(sent, batches)
    ensures FlatMap(RawsInside, sent) == Raws(MessagesOf(Flatten(batches)))
  {
    if sent != [] {
      MergesBefore(sent, batches);
      RawsOfMerges(sent[..|sent| - 1], batches[..|batches| - 1]);
      FlattenedMessages(batches);
      var batch := MessagesOf(Last(batches));
      MergeHoldsRaws(batch);
      RawsConcat(MessagesOf(Flatten(batches[..|batches| - 1])), batch);
    }
  }

  /**
   In every run the raw messages inside the messages dispatched for a key, one after the other, and
   then those still queued are the raw messages enqueued for it.
   */
  lemma EveryRawIsDelivered(c: Config, events: seq<Event>, k: Key)
    ensures FlatMap(RawsInside, DispatchedTo(Run(c, events).dispatched, k)) + Raws(Queue(Run(c, events), k))
         == Raws(Enqueued(events, k))
  {
    var s := Run(c, events);
    RunDispatches(c, events, k);
    RawsOfMerges(DispatchedTo(s.dispatched, k), Handed(s, k));
    HandedAndQueued(c, events, k);
  }

  /** Every batch handed over is dispatched once. */
  lemma OneDispatchPerBatch(c: Config, events: seq<Event>, k: Key)
    ensures |DispatchedTo(Run(c, events).dispatched, k)| == |Handed(Run(c, events), k)|
  {
    RunDispatches(c, events, k);
  }

  // --- Mentions and media --------------------------------------------------------------------------

  function AsReceived(messages: seq<InboundMessage>): (hs: seq<History>)
    ensures |hs| == |messages|
  {
    seq(|messages|, i requires 0 <= i < |messages| => Received(messages[i]))
  }

  lemma {:induction false} ReceivedSaySo(messages: seq<InboundMessage>)
    ensures forall h :: h in AsReceived(messages) ==> WellFormed(h)
    ensures Values(AsReceived(messages)) == messages && OriginalsOf(AsReceived(messages)) == messages
  {
    if messages != [] {
      var before := messages[..|messages| - 1];
      ReceivedSaySo(before);
      assert AsReceived(messages)[..|before|] == AsReceived(before);
      assert messages == before + [Last(messages)];
    }
  }

  lemma HistorySnoc(hs: seq<History>, h: History)
    requires WellFormed(h) && forall other :: other in hs ==> WellFormed(other)
    ensures Values(hs + [h]) == Values(hs) + [Value(h)] && OriginalsOf(hs + [h]) == OriginalsOf(hs) + Originals(h)
  {
    assert (hs + [h])[..|hs|] == hs && Last(hs + [h]) == h;
  }

  lemma MergedHistory(batch: seq<InboundMessage>) returns (h: History)
    requires batch != []
    ensures WellFormed(h) && Value(h) == Merge(batch) && Originals(h) == batch
  {
    ReceivedSaySo(batch);
    h := Merged(AsReceived(batch));
  }

  lemma NothingMerged(batches: seq<seq<Arrival>>)
    requires batches == []
    ensures MessagesOf(Flatten(batches)) == []
  {
  }

  /** The dispatched messages as merges of received ones. */
  lemma {:induction false} HistoryOfMerges(sent: seq<InboundMessage>, batches: seq<seq<Arrival>>)
    returns (hs: seq<History>)
    requires Merges(sent, batches)
    ensures forall h :: h in hs ==> WellFormed(h)
    ensures Values(hs) == sent && OriginalsOf(hs) == MessagesOf(Flatten(batches))
  {
    hide Merge, MessagesOf;
    hs := [];
    if sent == [] {
      NothingMerged(batches);
    } else {
      MergesBefore(sent, batches);
      var before := HistoryOfMerges(sent[..|sent| - 1], batches[..|batches| - 1]);
      var h := MergedHistory(MessagesOf(Last(batches)));
      HistorySnoc(before, h);
      FlattenedMessages(batches);
      assert sent == sent[..|sent| - 1] + [Last(sent)];
      hs := before + [h];
    }
  }

  /** The queue behind them, as received. */
  lemma {:induction false} HistoryWithQueue(hs: seq<History>, queue: seq<InboundMessage>) returns (all: seq<History>)
    requires forall h :: h in hs ==> WellFormed(h)
    ensures forall h :: h in all ==> WellFormed(h)
    ensures Values(all) == Values(hs) + queue && OriginalsOf(all) == OriginalsOf(hs) + queue
  {
    all := hs;
    if queue != [] {
      all := HistoryWithQueue(hs, queue[..|queue| - 1]);
      HistorySnoc(all, Received(Last(queue)));
      assert queue == queue[..|queue| - 1] + [Last(queue)];
      all := all + [Received(Last(queue))];
    }
  }

  /**
   In every run the messages dispatched for a key and then those still queued say what the enqueued
   ones say: the same mentions, each at its first occurrence, the same media, and whether the agent
   was mentioned.
   */
  lemma EveryMentionIsDelivered(c: Config, events: seq<Event>, k: Key)
    ensures var said := DispatchedTo(Run(c, events).dispatched, k) + Queue(Run(c, events), k);
      var enqueued := Enqueued(events, k);
      && FirstBy(MentionId, AllMentions(said)) == FirstBy(MentionId, AllMentions(enqueued))
      && AllMediaUrls(said) == AllMediaUrls(enqueued) && AllMediaTypes(said) == AllMediaTypes(enqueued)
      && AnyMentioned(said) == AnyMentioned(enqueued)
  {
    var s := Run(c, events);
    RunDispatches(c, events, k);
    var hs := HistoryOfMerges(DispatchedTo(s.dispatched, k), Handed(s, k));
    var all := HistoryWithQueue(hs, Queue(s, k));
    HandedAndQueued(c, events, k);
    RemergingParts(all);
  }

  // --- When a dispatch happens --------------------------------------------------------------------

  /** The key that an event may flush, if it gets as far as `flush`, and whether it is held back. */
  predicate FlushesFreely(c: Config, s: State, e: Event, k: Key)
    requires Enabled(s, e)
  {
    match e
    case FlushNow(key, busy) => k == key && !busy && key !in s.idle && key !in s.maxWait
    case FlushNowResumes(id, busy) => k == s.tasks[id].key && !busy
    case TimerFires(id, busy) => k == s.tasks[id].key && !busy
    case WaiterPolls(id, busy, keepWaiting, busyAgain) =>
      k == s.tasks[id].key && (if busy then !keepWaiting && Late(c, s, id) else !busyAgain)
    case _ => false
  }

  lemma FlushSends(s: State, id: TaskId, busy: bool, force: bool, k: Key)
    requires id in s.tasks && id < s.nextTask && (k in s.pending ==> s.pending[k] != [])
    ensures var s' := Flush(s, id, busy, force);
      && (k in s.pending && k !in s'.pending <==> k == s.tasks[id].key && k in s.pending && (force || !busy))
      && (k == s.tasks[id].key && k in s.pending && busy && !force ==>
           s'.pending == s.pending && s'.dispatched == s.dispatched
           && (s.tasks[id].kind != BusyWaiter ==> k in s'.waiters))
  {
    var key := s.tasks[id].key;
    if !force && key in s.pending && busy {
      HoldHandsNothing(s, key);
      EndHandsNothing(Hold(s, key), id);
    }
  }

  lemma EnqueueSends(c: Config, s: State, key: Key, message: InboundMessage, idleOverride: Option<nat>, k: Key)
    ensures k in s.pending ==> k in EnqueueStep(c, s, key, message, idleOverride).pending
  {
  }

  lemma WaiterSends(c: Config, s: State, id: TaskId, busy: bool, keepWaiting: bool, busyAgain: bool, k: Key)
    requires Enabled(s, WaiterPolls(id, busy, keepWaiting, busyAgain)) && id < s.nextTask
    requires k in s.pending ==> s.pending[k] != []
    ensures k in s.pending && k !in WaiterStep(c, s, id, busy, keepWaiting, busyAgain).pending <==>
      k in s.pending && FlushesFreely(c, s, WaiterPolls(id, busy, keepWaiting, busyAgain), k)
  {
    if !(busy && (keepWaiting || !Late(c, s, id))) {
      FlushSends(StopWaiting(s, id), id, busyAgain, busy, k);
    }
  }

  lemma FlushNowSends(c: Config, s: State, key: Key, busy: bool, k: Key)
    requires k in s.pending ==> s.pending[k] != []
    ensures k in s.pending && k !in FlushNowStep(s, key, busy).pending <==>
      k in s.pending && FlushesFreely(c, s, FlushNow(key, busy), k)
  {
    if key !in s.idle && key !in s.maxWait {
      FlushSends(OpenFlushNow(s, key), s.nextTask, busy, false, k);
    }
  }

  /**
   In every run a queue goes out exactly when a timer, a forced flush or a waiter comes to it and the
   chat is free at that moment, or the waiter has run into the busy timeout.
   */
  lemma QueueGoesOutExactlyWhen(c: Config, events: seq<Event>, e: Event, k: Key)
    requires k in Run(c, events).pending
    ensures k !in Run(c, events + [e]).pending <==>
      Enabled(Run(c, events), e) && FlushesFreely(c, Run(c, events), e, k)
  {
    var s := Run(c, events);
    RunAppend(c, events, e);
    NoStrandedBatch(c, events, k);
    RunKeepsInv(c, events);
    if Enabled(s, e) {
      match e
      case Elapse(ms) =>
      case Enqueue(key, message, idleOverride) => EnqueueSends(c, s, key, message, idleOverride, k);
      case FlushNow(key, busy) => FlushNowSends(c, s, key, busy, k);
      case FlushNowResumes(id, busy) => FlushSends(s, id, busy, false, k);
      case TimerFires(id, busy) => FlushSends(s, id, busy, false, k);
      case WaiterPolls(id, busy, keepWaiting, busyAgain) => WaiterSends(c, s, id, busy, keepWaiting, busyAgain, k);
      case CancelledTaskEnds(id) => EndHandsNothing(s, id);
      case DispatchEnds(id) => EndHandsNothing(s, id);
    }
  }

  /** A timer that fires on a busy chat leaves the queue as it is, with a waiter for it. */
  lemma BusyQueueIsHeld(c: Config, events: seq<Event>, timer: TaskId)
    requires Enabled(Run(c, events), TimerFires(timer, true))
    requires Run(c, events).tasks[timer].key in Run(c, events).pending
    ensures var s, s' := Run(c, events), Run(c, events + [TimerFires(timer, true)]);
      s'.pending == s.pending && s'.dispatched == s.dispatched && s.tasks[timer].key in s'.waiters
  {
    RunAppend(c, events, TimerFires(timer, true));
    NoStrandedBatch(c, events, Run(c, events).tasks[timer].key);
    RunKeepsInv(c, events);
    assert PhaseFits(Run(c, events).tasks[timer]);
    FlushSends(Run(c, events), timer, true, false, Run(c, events).tasks[timer].key);
  }
}
