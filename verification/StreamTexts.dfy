/**
 Which text every frame of a run carries: over all sequences of events, overlapping or not, the
 frames handed over are those the operations ask for.
 */
module StreamTexts {
  import opened Common
  import opened ReplyStream

  function DoneTexts(frames: seq<Frame>): seq<string> {
    if frames == [] then []
    else DoneTexts(frames[..|frames| - 1]) + (if Last(frames).Done? then [Last(frames).text] else [])
  }

  function AddTexts(frames: seq<Frame>): seq<string> {
    if frames == [] then []
    else AddTexts(frames[..|frames| - 1]) + (if Last(frames).Add? then [Last(frames).text] else [])
  }

  function CreatedCount(frames: seq<Frame>): nat {
    if frames == [] then 0 else CreatedCount(frames[..|frames| - 1]) + (if Last(frames).Created? then 1 else 0)
  }

  function FailedCount(frames: seq<Frame>): nat {
    if frames == [] then 0 else FailedCount(frames[..|frames| - 1]) + (if Last(frames).Failed? then 1 else 0)
  }

  // --- What the operations ask for -------------------------------------------------------------------

  /** The final text of a finish that begins while the stream is open. */
  function FinalText(s: Run, e: Event): seq<string> {
    match e
    case Begins(Finish(finalText)) => if s.open then [finalText] else []
    case _ => []
  }

  /** An edit that says something new, may be streamed, is not kept back and comes before any failure. */
  predicate IsNews(s: Run, text: string, allowed: bool, held: bool) {
    allowed && !held && s.listed && !s.failed && text != "" && text != s.text
  }

  /** The text of an edit to be streamed: one that opens a stream or extends the stored text. */
  function EditText(s: Run, e: Event): seq<string> {
    match e
    case Begins(Update(text, allowed, held)) =>
      if IsNews(s, text, allowed, held) && (s.open ==> s.text <= text) then [text] else []
    case _ => []
  }

  /** An edit that opens a stream. */
  predicate Opens(s: Run, e: Event) {
    match e
    case Begins(Update(text, allowed, held)) => IsNews(s, text, allowed, held) && !s.open
    case _ => false
  }

  /** A failure, a retirement, or an edit that rewrites the text, while the stream is open. */
  predicate Fails(s: Run, e: Event) {
    match e
    case Begins(Fail) => s.open
    case Begins(Retire) => s.open
    case Begins(Update(text, allowed, held)) => IsNews(s, text, allowed, held) && s.open && !(s.text <= text)
    case _ => false
  }

  function FinalTexts(events: seq<Event>): seq<string> {
    if events == [] then []
    else FinalTexts(events[..|events| - 1]) + FinalText(After(events[..|events| - 1]), Last(events))
  }

  function EditTexts(events: seq<Event>): seq<string> {
    if events == [] then []
    else EditTexts(events[..|events| - 1]) + EditText(After(events[..|events| - 1]), Last(events))
  }

  function Openings(events: seq<Event>): nat {
    if events == [] then 0
    else Openings(events[..|events| - 1]) + (if Opens(After(events[..|events| - 1]), Last(events)) then 1 else 0)
  }

  function Failures(events: seq<Event>): nat {
    if events == [] then 0
    else Failures(events[..|events| - 1]) + (if Fails(After(events[..|events| - 1]), Last(events)) then 1 else 0)
  }

  // --- The frames are those --------------------------------------------------------------------------

  lemma FrameSnoc(frames: seq<Frame>, frame: Frame)
    ensures DoneTexts(frames + [frame]) == DoneTexts(frames) + (if frame.Done? then [frame.text] else [])
    ensures AddTexts(frames + [frame]) == AddTexts(frames) + (if frame.Add? then [frame.text] else [])
    ensures CreatedCount(frames + [frame]) == CreatedCount(frames) + (if frame.Created? then 1 else 0)
    ensures FailedCount(frames + [frame]) == FailedCount(frames) + (if frame.Failed? then 1 else 0)
  {
    assert (frames + [frame])[..|frames|] == frames;
  }

  /** What a step adds to the frames: one, or none. */
  function Sends(s: Run, e: Event): seq<Frame> {
    var s' := Step(s, e);
    if |s'.sent| == |s.sent| + 1 then [Last(s'.sent)] else []
  }

  lemma StepSends(s: Run, e: Event)
    ensures Step(s, e).sent == s.sent + Sends(s, e)
  {
  }

  /** The frames after a step, by kind. */
  lemma StepCounts(s: Run, e: Event)
    ensures var sends, sent := Sends(s, e), Step(s, e).sent;
      && DoneTexts(sent) == DoneTexts(s.sent) + DoneTexts(sends) && AddTexts(sent) == AddTexts(s.sent) + AddTexts(sends)
      && CreatedCount(sent) == CreatedCount(s.sent) + CreatedCount(sends)
      && FailedCount(sent) == FailedCount(s.sent) + FailedCount(sends)
  {
    hide Step;
    StepSends(s, e);
    if Sends(s, e) == [] {
      assert s.sent + [] == s.sent;
    } else {
      FrameSnoc(s.sent, Sends(s, e)[0]);
      FrameSnoc([], Sends(s, e)[0]);
      assert [] + Sends(s, e) == Sends(s, e) == [Sends(s, e)[0]];
    }
  }

  lemma OneFrame(frame: Frame)
    ensures DoneTexts([frame]) == if frame.Done? then [frame.text] else []
    ensures AddTexts([frame]) == if frame.Add? then [frame.text] else []
    ensures CreatedCount([frame]) == (if frame.Created? then 1 else 0)
    ensures FailedCount([frame]) == (if frame.Failed? then 1 else 0)
  {
    FrameSnoc([], frame);
    assert [] + [frame] == [frame];
  }

  lemma FinishSends(s: Run, e: Event)
    ensures DoneTexts(Sends(s, e)) == FinalText(s, e)
    ensures CreatedCount(Sends(s, e)) == (if Opens(s, e) then 1 else 0)
    ensures FailedCount(Sends(s, e)) == (if Fails(s, e) then 1 else 0)
  {
    if Sends(s, e) != [] {
      OneFrame(Sends(s, e)[0]);
    }
  }

  /**
   In every run, whatever overlaps, the texts of the done frames are the final texts of the finishes
   that began while the stream was open, in order.
   */
  lemma {:induction false} DoneFramesCarryFinalTexts(events: seq<Event>)
    ensures DoneTexts(After(events).sent) == FinalTexts(events)
  {
    hide Step;
    if events != [] {
      var before := events[..|events| - 1];
      DoneFramesCarryFinalTexts(before);
      StepCounts(After(before), Last(events));
      FinishSends(After(before), Last(events));
    }
  }

  lemma SendsThat(s: Run, e: Event, frame: Frame)
    requires Step(s, e).sent == s.sent + [frame]
    ensures Sends(s, e) == [frame] && AddTexts(Sends(s, e)) == if frame.Add? then [frame.text] else []
  {
    hide Step;
    OneFrame(frame);
  }

  lemma UpdateWaits(s: Run, text: string, allowed: bool, held: bool, t: string)
    ensures Begin(s, Update(text, allowed, held)).waiting[Creating(t)]
         == s.waiting[Creating(t)] + (if IsNews(s, text, allowed, held) && !s.open && text == t then 1 else 0)
  {
  }

  lemma UpdateAdds(s: Run, text: string, allowed: bool, held: bool)
    ensures AddTexts(Sends(s, Begins(Update(text, allowed, held))))
         == if IsNews(s, text, allowed, held) && s.open && s.text <= text then [text] else []
  {
    var e := Begins(Update(text, allowed, held));
    if IsNews(s, text, allowed, held) {
      if !s.open {
        SendsThat(s, e, Created);
      } else if s.text <= text {
        SendsThat(s, e, Add(s.sequence + 1, text, Drop(text, |s.text|)));
      } else {
        SendsThat(s, e, Failed(s.sequence, s.text));
      }
    }
  }

  lemma UpdateSends(s: Run, text: string, allowed: bool, held: bool, t: string)
    ensures var e := Begins(Update(text, allowed, held));
      multiset(AddTexts(Sends(s, e)))[t] + Begin(s, e.op).waiting[Creating(t)]
      == s.waiting[Creating(t)] + multiset(EditText(s, e))[t]
  {
    hide Begin, Sends;
    UpdateWaits(s, text, allowed, held, t);
    UpdateAdds(s, text, allowed, held);
  }

  lemma OtherOpSends(s: Run, op: Op)
    requires !op.Update?
    ensures AddTexts(Sends(s, Begins(op))) == [] && EditText(s, Begins(op)) == []
    ensures forall t :: Begin(s, op).waiting[Creating(t)] == s.waiting[Creating(t)]
  {
    if Sends(s, Begins(op)) != [] {
      OneFrame(Sends(s, Begins(op))[0]);
    }
  }

  lemma BeginSends(s: Run, op: Op, t: string)
    ensures multiset(AddTexts(Sends(s, Begins(op))))[t] + Begin(s, op).waiting[Creating(t)]
         == s.waiting[Creating(t)] + multiset(EditText(s, Begins(op)))[t]
  {
    hide Begin;
    if op.Update? {
      UpdateSends(s, op.text, op.allowed, op.held, t);
    } else {
      OtherOpSends(s, op);
    }
  }

  lemma ResumeSends(s: Run, suspended: Suspended, t: string)
    ensures multiset(AddTexts(Sends(s, Resumes(suspended))))[t] + Resume(s, suspended).waiting[Creating(t)]
         == s.waiting[Creating(t)]
  {
    if Sends(s, Resumes(suspended)) != [] {
      OneFrame(Sends(s, Resumes(suspended))[0]);
    }
  }

  lemma AddSends(s: Run, e: Event, t: string)
    ensures multiset(AddTexts(Sends(s, e)))[t] + Step(s, e).waiting[Creating(t)]
         == s.waiting[Creating(t)] + multiset(EditText(s, e))[t]
  {
    hide Begin, Resume;
    match e
    case Begins(op) => BeginSends(s, op, t);
    case Resumes(suspended) => ResumeSends(s, suspended, t);
  }

  /**
   Every edit to be streamed goes out once, unless its created frame is still under way, and nothing
   else does: each text is sent as often as it was asked for.
   */
  lemma {:induction false} EveryEditIsSent(events: seq<Event>, t: string)
    ensures multiset(AddTexts(After(events).sent))[t] + After(events).waiting[Creating(t)]
         == multiset(EditTexts(events))[t]
  {
    hide Step;
    if events != [] {
      var before := events[..|events| - 1];
      EveryEditIsSent(before, t);
      StepCounts(After(before), Last(events));
      AddSends(After(before), Last(events), t);
    }
  }

  /** There are as many created frames as edits that opened a stream, as many failed as failures of an open one. */
  lemma {:induction false} OpeningsAndFailuresAreSent(events: seq<Event>)
    ensures CreatedCount(After(events).sent) == Openings(events)
    ensures FailedCount(After(events).sent) == Failures(events)
  {
    hide Step;
    if events != [] {
      var before := events[..|events| - 1];
      OpeningsAndFailuresAreSent(before);
      StepCounts(After(before), Last(events));
      FinishSends(After(before), Last(events));
    }
  }
}
