/**
 The frames of one reply while it is being written: created, then cumulative adds, then an
 end that is done or failed. Every operation is suspended while a frame goes out, so several
 may be under way on one run.
 */
module ReplyStream {
  import opened Common

  datatype Frame =
    | Created
    | Add(sequence: int, text: string, delta: string)
    | Done(sequence: int, text: string)
    | Failed(sequence: int, text: string)

  /** An operation that waits for its frame to go out, and what it will do then. */
  datatype Suspended = Creating(text: string) | Adding(text: string) | Finishing | Failing | Retiring

  /**
   The streaming fields of a run, whether the tables still list it, the frames handed over for
   it so far, and the operations suspended on it.
   */
  datatype Run = Run(
    open: bool, text: string, sequence: int, failed: bool, listed: bool,
    sent: seq<Frame>, waiting: multiset<Suspended>)

  /**
   `allowed` stands for the configuration, chat and media tests, `held` for the texts that are
   kept back because they may still turn into something else.
   */
  datatype Op =
    | Update(text: string, allowed: bool, held: bool)
    | Fail
    | Finish(finalText: string)
    | Retire

  datatype Event = Begins(op: Op) | Resumes(suspended: Suspended)

  const FRESH := Run(false, "", -1, false, true, [], multiset{})

  function Drop(text: string, n: nat): string {
    if n <= |text| then text[n..] else ""
  }

  /** Only a listed run is found by an edit. */
  predicate Streams(s: Run, text: string, allowed: bool, held: bool) {
    s.listed && allowed && !s.failed && text != "" && text != s.text && !held
  }

  /** A frame is handed over; the operation waits until it is out. */
  function Send(s: Run, frame: Frame, suspended: Suspended): Run {
    s.(sent := s.sent + [frame], waiting := s.waiting + multiset{suspended})
  }

  function SendFailed(s: Run, suspended: Suspended): Run {
    Send(s, Failed(s.sequence, s.text), suspended)
  }

  function SendAdd(s: Run, text: string): Run {
    Send(s.(sequence := s.sequence + 1), Add(s.sequence + 1, text, Drop(text, |s.text|)), Adding(text))
  }

  /** An operation up to its first wait, or to its end if it sends nothing. */
  function Begin(s: Run, op: Op): Run {
    match op
    case Update(text, allowed, held) =>
      if !Streams(s, text, allowed, held) then s
      else if !s.open then Send(s, Created, Creating(text))
      else if s.text <= text then SendAdd(s, text)
      else SendFailed(s, Failing)
    case Fail => if s.open then SendFailed(s, Failing) else s.(failed := true)
    case Finish(finalText) => if s.open then Send(s, Done(s.sequence, finalText), Finishing) else s
    case Retire => if s.open then SendFailed(s, Retiring) else s.(listed := false)
  }

  /** What a suspended operation does once its frame is out. */
  function Resume(s: Run, suspended: Suspended): Run {
    if suspended !in s.waiting then s
    else
      var s1 := s.(waiting := s.waiting - multiset{suspended});
      match suspended
      case Creating(text) => SendAdd(s1.(open := true), text)
      case Adding(text) => s1.(text := text)
      case Finishing => s1.(open := false)
      case Failing => s1.(open := false, failed := true)
      case Retiring => s1.(open := false, failed := true, listed := false)
  }

  function Step(s: Run, e: Event): Run {
    match e
    case Begins(op) => Begin(s, op)
    case Resumes(suspended) => Resume(s, suspended)
  }

  function After(events: seq<Event>): Run {
    if events == [] then FRESH else Step(After(events[..|events| - 1]), Last(events))
  }

  // --- The running code -----------------------------------------------------------------------

  class ActiveRun {
    var streamOpen: bool
    var streamedText: string
    var streamSequence: int
    var streamFailed: bool
    /** Whether the tables list the run. */
    var listed: bool
    /** Frames handed to the connection. */
    var sent: seq<Frame>
    /** The coroutines suspended on this run. */
    var waiting: multiset<Suspended>

    function State(): Run
      reads this
    {
      Run(streamOpen, streamedText, streamSequence, streamFailed, listed, sent, waiting)
    }

    constructor ()
      ensures State() == FRESH
    {
      streamOpen, streamedText, streamSequence, streamFailed := false, "", -1, false;
      listed, sent, waiting := true, [], multiset{};
    }

    method HandOver(frame: Frame, suspended: Suspended)
      modifies this`sent, this`waiting
      ensures sent == old(sent) + [frame] && waiting == old(waiting) + multiset{suspended}
    {
      sent := sent + [frame];
      waiting := waiting + multiset{suspended};
    }

    method StreamUpdate(text: string, allowed: bool, held: bool)
      modifies this
      ensures State() == Begin(old(State()), Update(text, allowed, held))
    {
      if !listed || !allowed || streamFailed || text == "" || text == streamedText {
        return;
      }
      if held {
        return;
      }
      if streamOpen && !(streamedText <= text) {
        StreamFail();
        return;
      }
      if !streamOpen {
        HandOver(Created, Creating(text));
        return;
      }
      AddFrame(text);
    }

    /** The part of an update that follows the created frame. */
    method AddFrame(text: string)
      modifies this
      ensures State() == SendAdd(old(State()), text)
    {
      streamSequence := streamSequence + 1;
      HandOver(Add(streamSequence, text, Drop(text, |streamedText|)), Adding(text));
    }

    method StreamFail()
      modifies this
      ensures State() == Begin(old(State()), Fail)
    {
      if streamOpen {
        HandOver(Failed(streamSequence, streamedText), Failing);
        return;
      }
      streamOpen := false;
      streamFailed := true;
    }

    method StreamFinish(finalText: string)
      modifies this
      ensures State() == Begin(old(State()), Finish(finalText))
    {
      if !streamOpen {
        return;
      }
      HandOver(Done(streamSequence, finalText), Finishing);
    }

    method RetireRun()
      modifies this
      ensures State() == Begin(old(State()), Retire)
    {
      if streamOpen {
        HandOver(Failed(streamSequence, streamedText), Retiring);
        return;
      }
      listed := false;
    }

    // What the operations do once their frames are out.

    method AfterCreated(text: string)
      requires Creating(text) in waiting
      modifies this
      ensures State() == Resume(old(State()), Creating(text))
    {
      waiting := waiting - multiset{Creating(text)};
      streamOpen := true;
      AddFrame(text);
    }

    method AfterAdded(text: string)
      requires Adding(text) in waiting
      modifies this
      ensures State() == Resume(old(State()), Adding(text))
    {
      waiting := waiting - multiset{Adding(text)};
      streamedText := text;
    }

    method AfterDone()
      requires Finishing in waiting
      modifies this
      ensures State() == Resume(old(State()), Finishing)
    {
      waiting := waiting - multiset{Finishing};
      streamOpen := false;
    }

    method AfterFailed()
      requires Failing in waiting
      modifies this
      ensures State() == Resume(old(State()), Failing)
    {
      waiting := waiting - multiset{Failing};
      streamOpen := false;
      streamFailed := true;
    }

    /** Retiring goes on to take the run out of the tables. */
    method AfterFailedForRetirement()
      requires Retiring in waiting
      modifies this
      ensures State() == Resume(old(State()), Retiring)
    {
      waiting := waiting - multiset{Retiring};
      streamOpen := false;
      streamFailed := true;
      listed := false;
    }
  }

  // --- The trace of a run -----------------------------------------------------------------------

  function AddCount(frames: seq<Frame>): nat {
    if frames == [] then 0 else AddCount(frames[..|frames| - 1]) + (if Last(frames).Add? then 1 else 0)
  }

  /** The text of the last add, empty before the first. */
  function LastText(frames: seq<Frame>): string {
    if frames == [] then ""
    else if Last(frames).Add? then Last(frames).text
    else LastText(frames[..|frames| - 1])
  }

  /** What the frame at position i may be, given those before it. */
  predicate FrameFits(frames: seq<Frame>, i: nat)
    requires i < |frames|
  {
    var before := frames[..i];
    match frames[i]
    case Created => i == 0 || frames[i - 1].Done?
    case Add(sequence, text, delta) =>
      && i > 0 && (frames[i - 1].Created? || frames[i - 1].Add?)
      && sequence == AddCount(before)
      && text != ""
      && delta == Drop(text, |LastText(before)|)
      && (frames[i - 1].Add? ==> frames[i - 1].text <= text)
    case Done(sequence, text) => i > 0 && frames[i - 1].Add? && sequence == AddCount(before) - 1
    case Failed(sequence, text) =>
      i > 0 && frames[i - 1].Add? && sequence == AddCount(before) - 1 && text == LastText(before)
  }

  predicate Fits(frames: seq<Frame>) {
    forall i :: 0 <= i < |frames| ==> FrameFits(frames, i)
  }

  lemma FitsAlike(a: seq<Frame>, b: seq<Frame>, i: nat)
    requires i < |a| && i < |b| && a[..i] == b[..i] && a[i] == b[i] && (i > 0 ==> a[i - 1] == b[i - 1])
    ensures FrameFits(a, i) == FrameFits(b, i)
  {
  }

  lemma CountsSnoc(frames: seq<Frame>, frame: Frame)
    ensures AddCount(frames + [frame]) == AddCount(frames) + (if frame.Add? then 1 else 0)
    ensures LastText(frames + [frame]) == if frame.Add? then frame.text else LastText(frames)
  {
    assert (frames + [frame])[..|frames|] == frames;
  }

  lemma FitsSnoc(frames: seq<Frame>, frame: Frame)
    requires Fits(frames) && FrameFits(frames + [frame], |frames|)
    ensures Fits(frames + [frame])
    ensures AddCount(frames + [frame]) == AddCount(frames) + (if frame.Add? then 1 else 0)
    ensures LastText(frames + [frame]) == if frame.Add? then frame.text else LastText(frames)
  {
    var all := frames + [frame];
    CountsSnoc(frames, frame);
    forall i | 0 <= i < |all|
      ensures FrameFits(all, i)
    {
      if i < |frames| {
        assert FrameFits(frames, i);
        FitsAlike(frames, all, i);
      }
    }
  }


  // --- Deltas ------------------------------------------------------------------------------------

  function Deltas(frames: seq<Frame>): string {
    if frames == [] then ""
    else Deltas(frames[..|frames| - 1]) + (if Last(frames).Add? then Last(frames).delta else "")
  }

  /** A stream within the trace: a created frame and at least one add. */
  predicate IsStream(frames: seq<Frame>, start: nat, end: nat) {
    && start + 1 < end <= |frames|
    && frames[start].Created?
    && forall i :: start < i < end ==> frames[i].Add?
  }

  lemma {:induction false} LastTextNonEmpty(frames: seq<Frame>)
    requires Fits(frames) && AddCount(frames) > 0
    ensures LastText(frames) != ""
  {
    var before := frames[..|frames| - 1];
    assert FrameFits(frames, |frames| - 1);
    if !Last(frames).Add? {
      forall i | 0 <= i < |before|
        ensures FrameFits(before, i)
      {
        assert FrameFits(frames, i);
        FitsAlike(frames, before, i);
      }
      LastTextNonEmpty(before);
    }
  }

  lemma FitsTake(frames: seq<Frame>, n: nat)
    requires Fits(frames) && n <= |frames|
    ensures Fits(frames[..n])
  {
    forall i | 0 <= i < n
      ensures FrameFits(frames[..n], i)
    {
      assert FrameFits(frames, i);
      FitsAlike(frames, frames[..n], i);
    }
  }

  /** Before a later stream something was streamed already. */
  lemma TextBefore(frames: seq<Frame>, start: nat)
    requires Fits(frames) && start < |frames| && frames[start].Created?
    ensures LastText(frames[..start]) == "" <==> start == 0
  {
    if start > 0 {
      assert FrameFits(frames, start) && FrameFits(frames, start - 1);
      var before := frames[..start];
      FitsTake(frames, start);
      assert frames[start - 2].Add? && before[..start - 1][..start - 2] == frames[..start - 2];
      assert AddCount(before[..start - 1]) > 0;
      LastTextNonEmpty(before);
    }
  }

  /**
   The deltas of a stream put together are its text exactly when it is the run's first stream;
   those of a later one fall short, as they continue the text of the one before.
   */
  lemma {:induction false} DeltasGiveText(frames: seq<Frame>, start: nat, end: nat)
    requires Fits(frames) && IsStream(frames, start, end)
    ensures Deltas(frames[start..end]) == frames[end - 1].text <==> start == 0
    ensures start > 0 ==> |Deltas(frames[start..end])| < |frames[end - 1].text|
    decreases end
  {
    if end == start + 2 {
      FirstAdd(frames, start);
    } else {
      DeltasGiveText(frames, start, end - 1);
      NextAdd(frames, start, end);
    }
  }

  lemma FirstAdd(frames: seq<Frame>, start: nat)
    requires Fits(frames) && IsStream(frames, start, start + 2)
    ensures Deltas(frames[start..start + 2]) == Drop(frames[start + 1].text, |LastText(frames[..start])|)
    ensures frames[start + 1].text != ""
    ensures LastText(frames[..start]) == "" <==> start == 0
  {
    TextBefore(frames, start);
    assert FrameFits(frames, start + 1);
    assert frames[..start + 1][..start] == frames[..start];
    DeltasOfTwo(frames[start], frames[start + 1]);
    assert frames[start..start + 2] == [frames[start], frames[start + 1]];
  }

  lemma DeltasOfTwo(created: Frame, add: Frame)
    requires created.Created? && add.Add?
    ensures Deltas([created, add]) == add.delta
  {
    assert [created, add][..1] == [created] && [created][..0] == [];
    assert Deltas([created]) == Deltas([]) + "";
    assert "" + add.delta == add.delta;
  }

  lemma NextAdd(frames: seq<Frame>, start: nat, end: nat)
    requires Fits(frames) && IsStream(frames, start, end) && start + 2 < end
    ensures frames[end - 1].text == frames[end - 2].text + frames[end - 1].delta
    ensures Deltas(frames[start..end]) == Deltas(frames[start..end - 1]) + frames[end - 1].delta
  {
    assert FrameFits(frames, end - 1);
    assert Last(frames[..end - 1]) == frames[end - 2];
    assert frames[start..end][..end - 1 - start] == frames[start..end - 1];
  }

}
