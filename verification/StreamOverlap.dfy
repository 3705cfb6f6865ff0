/**
 Operations on one run that overlap at their waits: exactly which of them keep the trace of the
 run well formed and a retired run closed.
 */
module StreamOverlap {
  import opened Common
  import opened ReplyStream

  // --- Which operations may overlap -----------------------------------------------------------------

  predicate Ending(s: Run) {
    Finishing in s.waiting || Failing in s.waiting || Retiring in s.waiting
  }

  ghost predicate CreatingAny(s: Run) {
    exists text :: Creating(text) in s.waiting
  }

  /** Every suspended add has this text. */
  ghost predicate AddsOnly(s: Run, text: string) {
    forall t :: Adding(t) in s.waiting ==> t == text
  }

  ghost predicate NoAdds(s: Run) {
    forall t :: Adding(t) !in s.waiting
  }

  /**
   Whether an update that streams may begin. An open stream must not be ending. Further text
   must wait for adds under way; a text that fails the stream only for adds of a text not yet
   stored. A closed one must not be opening, and adds still under way must be of the very text
   and no longer than the stored one.
   */
  ghost predicate MayStream(s: Run, text: string) {
    if s.open then !Ending(s) && (if s.text <= text then NoAdds(s) else AddsOnly(s, s.text))
    else !CreatingAny(s) && (NoAdds(s) || (AddsOnly(s, text) && |text| <= |s.text|))
  }

  /** Whether a failed frame may go out. */
  ghost predicate MaySendFailed(s: Run) {
    !Ending(s) && AddsOnly(s, s.text)
  }

  ghost predicate MayBegin(s: Run, op: Op) {
    match op
    case Update(text, allowed, held) => Streams(s, text, allowed, held) ==> MayStream(s, text)
    case Fail => s.open ==> MaySendFailed(s)
    case Finish(_) => s.open ==> !Ending(s)
    case Retire => if s.open then MaySendFailed(s) else !CreatingAny(s)
  }

  ghost predicate Guarded(events: seq<Event>) {
    forall i :: 0 <= i < |events| && events[i].Begins? ==> MayBegin(After(events[..i]), events[i].op)
  }

  // --- What guarded runs keep -------------------------------------------------------------------------

  /** The suspended ends: at most one, on an open run whose last frame is that end. */
  ghost predicate EndsOk(s: Run) {
    && s.waiting[Finishing] + s.waiting[Failing] + s.waiting[Retiring] <= 1
    && (Ending(s) ==> s.open && s.sent != [])
    && (Finishing in s.waiting ==> Last(s.sent).Done?)
    && (Failing in s.waiting || Retiring in s.waiting ==> Last(s.sent).Failed?)
  }

  /** A suspended opening: the only one, on a closed run whose last frame is the created one. */
  ghost predicate OpeningOk(s: Run, text: string) {
    && !s.open && text != "" && s.sent != [] && Last(s.sent).Created?
    && s.waiting[Creating(text)] == 1
    && (forall t :: Creating(t) in s.waiting ==> t == text)
    && (NoAdds(s) || (text == LastText(s.sent) && |text| <= |s.text|))
  }

  /** What the last frame is while no end is suspended. */
  ghost predicate LastOk(s: Run) {
    && (s.open && !Ending(s) ==> s.sent != [] && Last(s.sent).Add?)
    && (!s.open && !CreatingAny(s) && s.sent != [] ==> Last(s.sent).Done? || (Last(s.sent).Failed? && s.failed))
  }

  /** The run's fields agree with the frames handed over, up to the adds under way. */
  ghost predicate Inv(s: Run) {
    && Fits(s.sent)
    && s.sequence == AddCount(s.sent) - 1
    && AddsOnly(s, LastText(s.sent))
    && (s.text == LastText(s.sent) || !NoAdds(s))
    && EndsOk(s)
    && (forall text :: Creating(text) in s.waiting ==> OpeningOk(s, text))
    && LastOk(s)
  }

  /** A run no longer listed is closed and will stay so. */
  ghost predicate RetiredOk(s: Run) {
    s.listed || (!s.open && !CreatingAny(s))
  }

  // --- Handing a frame over keeps it ---------------------------------------------------------------

  lemma SendAddKeeps(s: Run, text: string)
    requires Fits(s.sent) && s.sequence == AddCount(s.sent) - 1 && s.open && s.sent != [] && text != ""
    requires !Ending(s) && !CreatingAny(s)
    requires Last(s.sent).Created? || (Last(s.sent).Add? && LastText(s.sent) <= text)
    requires Drop(text, |s.text|) == Drop(text, |LastText(s.sent)|)
    requires NoAdds(s) || (AddsOnly(s, text) && text == LastText(s.sent))
    ensures Inv(SendAdd(s, text))
  {
    var r := SendAdd(s, text);
    var frame := Add(s.sequence + 1, text, Drop(text, |s.text|));
    assert (s.sent + [frame])[..|s.sent|] == s.sent;
    FitsSnoc(s.sent, frame);
    assert Adding(text) in r.waiting;
    assert forall w :: w in r.waiting ==> w in s.waiting || w == Adding(text);
  }

  lemma SendEndKeeps(s: Run, frame: Frame, suspended: Suspended)
    requires Inv(s) && s.open && !Ending(s)
    requires if suspended == Finishing then frame.Done? && frame.sequence == s.sequence
      else (suspended == Failing || suspended == Retiring) && frame == Failed(s.sequence, s.text) && AddsOnly(s, s.text)
    ensures Inv(Send(s, frame, suspended))
  {
    var r := Send(s, frame, suspended);
    assert !CreatingAny(s);
    assert (s.sent + [frame])[..|s.sent|] == s.sent;
    StoredIsLast(s);
    FitsSnoc(s.sent, frame);
    assert forall w :: w in r.waiting <==> w in s.waiting || w == suspended;
    assert !CreatingAny(r);
  }

  /** When every add under way has the stored text, that is the last text handed over. */
  lemma StoredIsLast(s: Run)
    requires Inv(s)
    ensures AddsOnly(s, s.text) ==> s.text == LastText(s.sent)
  {
    if AddsOnly(s, s.text) && !NoAdds(s) {
      var t :| Adding(t) in s.waiting;
      assert t == s.text && t == LastText(s.sent);
    }
  }

  lemma SendCreatedKeeps(s: Run, text: string)
    requires Inv(s) && !s.open && !CreatingAny(s) && !s.failed && text != ""
    requires NoAdds(s) || (AddsOnly(s, text) && |text| <= |s.text|)
    ensures Inv(Send(s, Created, Creating(text)))
  {
    var r := Send(s, Created, Creating(text));
    assert (s.sent + [Created])[..|s.sent|] == s.sent;
    FitsSnoc(s.sent, Created);
    assert Creating(text) !in s.waiting;
    assert forall w :: w in r.waiting <==> w in s.waiting || w == Creating(text);
    assert r.waiting[Creating(text)] == 1;
    if !NoAdds(s) {
      var t :| Adding(t) in s.waiting;
      assert t == text && t == LastText(s.sent);
    }
    assert OpeningOk(r, text);
  }

  lemma BeginKeepsInv(s: Run, op: Op)
    requires Inv(s) && MayBegin(s, op)
    ensures Inv(Begin(s, op))
  {
    match op
    case Update(text, allowed, held) =>
      if Streams(s, text, allowed, held) {
        if !s.open {
          SendCreatedKeeps(s, text);
        } else if s.text <= text {
          assert !CreatingAny(s);
          SendAddKeeps(s, text);
        } else {
          SendEndKeeps(s, Failed(s.sequence, s.text), Failing);
        }
      }
    case Fail =>
      if s.open {
        SendEndKeeps(s, Failed(s.sequence, s.text), Failing);
      }
    case Finish(finalText) =>
      if s.open {
        SendEndKeeps(s, Done(s.sequence, finalText), Finishing);
      }
    case Retire =>
      if s.open {
        SendEndKeeps(s, Failed(s.sequence, s.text), Retiring);
      }
  }

  // --- Going on keeps it -------------------------------------------------------------------------

  lemma CreatedOutKeeps(s: Run, text: string)
    requires Inv(s) && Creating(text) in s.waiting
    ensures Inv(Resume(s, Creating(text)))
  {
    assert OpeningOk(s, text);
    var s1 := s.(waiting := s.waiting - multiset{Creating(text)}, open := true);
    assert Creating(text) !in s1.waiting;
    assert forall w :: w in s1.waiting <==> w in s.waiting && w != Creating(text);
    assert !CreatingAny(s1) && !Ending(s1);
    SendAddKeeps(s1, text);
  }

  lemma AddOutKeeps(s: Run, text: string)
    requires Inv(s) && Adding(text) in s.waiting
    ensures Inv(Resume(s, Adding(text)))
  {
    var r := Resume(s, Adding(text));
    assert text == LastText(s.sent);
    assert forall w :: w in r.waiting ==> w in s.waiting;
    assert forall w :: w != Adding(text) ==> r.waiting[w] == s.waiting[w];
    forall t | Creating(t) in r.waiting
      ensures OpeningOk(r, t)
    {
      assert OpeningOk(s, t);
    }
    assert CreatingAny(r) <==> CreatingAny(s) by {
      assert forall t :: Creating(t) in r.waiting <==> Creating(t) in s.waiting;
    }
  }

  lemma EndOutKeeps(s: Run, suspended: Suspended)
    requires Inv(s) && suspended in s.waiting
    requires (suspended == Finishing || suspended == Failing || suspended == Retiring)
    ensures Inv(Resume(s, suspended))
  {
    var r := Resume(s, suspended);
    assert forall w :: w != suspended ==> r.waiting[w] == s.waiting[w];
    assert forall w :: w in r.waiting ==> w in s.waiting;
    assert !CreatingAny(s);
    assert !Ending(r);
    if !NoAdds(s) {
      var t :| Adding(t) in s.waiting;
      assert Adding(t) in r.waiting;
    }
  }

  lemma ResumeKeepsInv(s: Run, suspended: Suspended)
    requires Inv(s)
    ensures Inv(Resume(s, suspended))
  {
    if suspended in s.waiting {
      match suspended
      case Creating(text) => CreatedOutKeeps(s, text);
      case Adding(text) => AddOutKeeps(s, text);
      case Finishing => EndOutKeeps(s, suspended);
      case Failing => EndOutKeeps(s, suspended);
      case Retiring => EndOutKeeps(s, suspended);
    }
  }

  lemma BeginKeepsRetired(s: Run, op: Op)
    requires RetiredOk(s) && MayBegin(s, op)
    ensures RetiredOk(Begin(s, op))
  {
  }

  lemma ResumeKeepsRetired(s: Run, suspended: Suspended)
    requires Inv(s) && RetiredOk(s)
    ensures RetiredOk(Resume(s, suspended))
  {
    var r := Resume(s, suspended);
    assert forall w :: w in r.waiting && w.Creating? ==> w in s.waiting;
    assert Retiring in s.waiting ==> !CreatingAny(s);
  }

  // --- Safe states ---------------------------------------------------------------------------------

  function Resumed(s: Run, order: seq<Suspended>): Run
    decreases |order|
  {
    if order == [] then s else Resumed(Resume(s, order[0]), order[1..])
  }

  /**
   The trace is well formed; and once nothing is suspended, the stored text is the last one handed
   over and a run no longer listed has no open stream.
   */
  ghost predicate Sound(s: Run) {
    Fits(s.sent) && (s.waiting == multiset{} ==> s.text == LastText(s.sent) && (s.listed || !s.open))
  }

  /** In whatever order the suspended operations go on, the run stays sound. */
  ghost predicate Safe(s: Run) {
    forall order :: Sound(Resumed(s, order))
  }

  lemma {:induction false} ResumedKeeps(s: Run, order: seq<Suspended>)
    requires Inv(s) && RetiredOk(s)
    ensures Inv(Resumed(s, order)) && RetiredOk(Resumed(s, order))
    decreases |order|
  {
    if order != [] {
      ResumeKeepsInv(s, order[0]);
      ResumeKeepsRetired(s, order[0]);
      ResumedKeeps(Resume(s, order[0]), order[1..]);
    }
  }

  lemma InvIsSound(s: Run)
    requires Inv(s) && RetiredOk(s)
    ensures Sound(s)
  {
    assert s.waiting == multiset{} ==> NoAdds(s);
  }

  lemma InvIsSafe(s: Run)
    requires Inv(s) && RetiredOk(s)
    ensures Safe(s)
  {
    forall order
      ensures Sound(Resumed(s, order))
    {
      ResumedKeeps(s, order);
      InvIsSound(Resumed(s, order));
    }
  }

  // --- Every other overlap can break the run --------------------------------------------------------

  lemma NotFits(frames: seq<Frame>, frame: Frame)
    requires !FrameFits(frames + [frame], |frames|)
    ensures !Fits(frames + [frame])
  {
  }

  lemma UnfitIsUnsafe(s: Run)
    requires !Fits(s.sent)
    ensures !Safe(s)
  {
    assert !Sound(Resumed(s, []));
  }

  /** An end or an opening or more text right after an end, or an opening after an opening. */
  lemma AfterWrongFrame(frames: seq<Frame>, frame: Frame)
    requires frames != []
    requires if frame.Created? then Last(frames).Created? else Last(frames).Done? || Last(frames).Failed?
    ensures !Fits(frames + [frame])
  {
    assert (frames + [frame])[|frames| - 1] == Last(frames);
    NotFits(frames, frame);
  }

  lemma ForeignFailure(s: Run)
    requires s.text != LastText(s.sent)
    ensures !Fits(s.sent + [Failed(s.sequence, s.text)])
  {
    assert (s.sent + [Failed(s.sequence, s.text)])[..|s.sent|] == s.sent;
    NotFits(s.sent, Failed(s.sequence, s.text));
  }

  /** While an add of another text is under way, further text does not continue it. */
  lemma ForeignAdd(s: Run, text: string)
    requires s.sent != [] && Last(s.sent).Add? && s.text != LastText(s.sent) && s.text <= text && s.text != text
    ensures !Fits(s.sent + [Add(s.sequence + 1, text, Drop(text, |s.text|))])
  {
    var frame := Add(s.sequence + 1, text, Drop(text, |s.text|));
    var all := s.sent + [frame];
    assert all[..|s.sent|] == s.sent && all[|s.sent| - 1] == Last(s.sent);
    assert LastText(s.sent) == Last(s.sent).text;
    PrefixesDiffer(LastText(s.sent), s.text, text);
    NotFits(s.sent, frame);
  }

  lemma PrefixesDiffer(a: string, b: string, text: string)
    requires a != b && b <= text
    ensures a <= text ==> |a| != |b|
  {
  }

  /** Only adds of one text are suspended. */
  ghost predicate OnlyAdds(s: Run, text: string) {
    forall w :: w in s.waiting ==> w == Adding(text)
  }

  lemma SuspendedAdds(s: Run)
    requires Inv(s) && !Ending(s) && (s.open || !CreatingAny(s))
    ensures OnlyAdds(s, LastText(s.sent))
  {
    forall w | w in s.waiting
      ensures w == Adding(LastText(s.sent))
    {
      assert w.Creating? ==> OpeningOk(s, w.text);
    }
  }

  lemma {:induction false} DrainAdds(s: Run, text: string) returns (order: seq<Suspended>)
    requires OnlyAdds(s, text)
    ensures var r := Resumed(s, order);
      && r.waiting == multiset{} && r.sent == s.sent && r.open == s.open && r.listed == s.listed
      && r.text == if s.waiting == multiset{} then s.text else text
    decreases |s.waiting|
  {
    order := [];
    if s.waiting != multiset{} {
      var w :| w in s.waiting;
      var next := Resume(s, Adding(text));
      var rest := DrainAdds(next, text);
      order := [Adding(text)] + rest;
      assert order[0] == Adding(text) && order[1..] == rest;
    }
  }

  /** Resuming an add before the older ones leaves an older text stored. */
  lemma OlderAddLast(s: Run, text: string, older: string)
    requires Adding(text) in s.waiting && OnlyAdds(s.(waiting := s.waiting - multiset{Adding(text)}), older)
    requires Adding(older) in s.waiting && older != text && LastText(s.sent) == text
    ensures !Safe(s)
  {
    var next := Resume(s, Adding(text));
    var rest := DrainAdds(next, older);
    var order := [Adding(text)] + rest;
    assert order[0] == Adding(text) && order[1..] == rest;
    assert Adding(older) in next.waiting;
    assert !Sound(Resumed(s, order));
  }

  lemma UnsafeLater(s: Run, suspended: Suspended)
    requires !Safe(Resume(s, suspended))
    ensures !Safe(s)
  {
    var order :| !Sound(Resumed(Resume(s, suspended), order));
    var longer := [suspended] + order;
    assert longer[0] == suspended && longer[1..] == order;
    assert !Sound(Resumed(s, longer));
  }

  lemma LastTextSnoc(frames: seq<Frame>, frame: Frame)
    ensures LastText(frames + [frame]) == if frame.Add? then frame.text else LastText(frames)
  {
    CountsSnoc(frames, frame);
  }

  lemma UnguardedAddIsUnsafe(s: Run, text: string)
    requires Inv(s) && s.open && s.text <= text && s.text != text && (Ending(s) || !NoAdds(s))
    ensures !Safe(SendAdd(s, text))
  {
    var r := SendAdd(s, text);
    var frame := Add(s.sequence + 1, text, Drop(text, |s.text|));
    if Ending(s) {
      AfterWrongFrame(s.sent, frame);
      UnfitIsUnsafe(r);
    } else if s.text != LastText(s.sent) {
      ForeignAdd(s, text);
      UnfitIsUnsafe(r);
    } else {
      SuspendedAdds(s);
      LastTextSnoc(s.sent, frame);
      assert r.waiting - multiset{Adding(text)} == s.waiting;
      var t :| Adding(t) in s.waiting;
      OlderAddLast(r, text, s.text);
    }
  }

  lemma UnguardedEndIsUnsafe(s: Run, frame: Frame, suspended: Suspended)
    requires Inv(s) && s.open
    requires (frame.Done? && Ending(s)) || (frame == Failed(s.sequence, s.text) && !MaySendFailed(s))
    ensures !Safe(Send(s, frame, suspended))
  {
    if Ending(s) {
      AfterWrongFrame(s.sent, frame);
    } else {
      var t :| Adding(t) in s.waiting && t != s.text;
      ForeignFailure(s);
    }
    UnfitIsUnsafe(Send(s, frame, suspended));
  }

  lemma UnguardedOpeningIsUnsafe(s: Run, text: string)
    requires Inv(s) && !s.open && text != s.text && !MayStream(s, text)
    ensures !Safe(Send(s, Created, Creating(text)))
  {
    var r := Send(s, Created, Creating(text));
    if CreatingAny(s) {
      var t :| Creating(t) in s.waiting;
      assert OpeningOk(s, t);
      AfterWrongFrame(s.sent, Created);
      UnfitIsUnsafe(r);
    } else {
      SuspendedAdds(s);
      var older := LastText(s.sent);
      OpeningOverAdd(s, r, text, older);
    }
  }

  lemma OpeningOverAdd(s: Run, r: Run, text: string, older: string)
    requires Inv(s) && !s.open && text != s.text && r == Send(s, Created, Creating(text)) && older == LastText(s.sent)
    requires OnlyAdds(s, older) && !NoAdds(s) && (text != older || |text| > |s.text|)
    ensures !Safe(r)
  {
    var next := Resume(r, Creating(text));
    var frame := Add(s.sequence + 1, text, Drop(text, |s.text|));
    assert next.sent == s.sent + [Created] + [frame];
    LastTextSnoc(s.sent, Created);
    LastTextSnoc(s.sent + [Created], frame);
    var t :| Adding(t) in s.waiting;
    assert r.waiting - multiset{Creating(text)} == s.waiting;
    if text != older {
      assert next.waiting - multiset{Adding(text)} == s.waiting;
      OlderAddLast(next, text, older);
    } else {
      var all := s.sent + [Created] + [frame];
      assert all[..|s.sent| + 1] == s.sent + [Created];
      NotFits(s.sent + [Created], frame);
      UnfitIsUnsafe(next);
    }
    UnsafeLater(r, Creating(text));
  }

  predicate OnlyListedDiffers(a: Run, b: Run) {
    b == a.(listed := b.listed)
  }

  /** Whether the tables list a run plays no part in the agreement of its fields and frames. */
  lemma ListedIsFree(a: Run, b: Run)
    requires OnlyListedDiffers(a, b) && Inv(a)
    ensures Inv(b)
  {
    assert forall t :: Creating(t) in a.waiting ==> OpeningOk(a, t);
    forall t | Creating(t) in b.waiting
      ensures OpeningOk(b, t)
    {
      assert OpeningOk(a, t);
    }
  }

  lemma RetiredOpeningOut(s: Run, text: string)
    requires Inv(s) && Creating(text) in s.waiting
    ensures var next := Resume(s.(listed := false), Creating(text));
      Inv(next) && next.open && !next.listed && !Ending(next)
  {
    var out, next := Resume(s, Creating(text)), Resume(s.(listed := false), Creating(text));
    assert OpeningOk(s, text);
    CreatedOutKeeps(s, text);
    assert next == out.(listed := false);
    ListedIsFree(out, next);
  }

  /** A run retired while it is opening ends up unlisted with an open stream. */
  lemma RetiredOpeningIsUnsafe(s: Run, text: string)
    requires Inv(s) && Creating(text) in s.waiting
    ensures !Safe(s.(listed := false))
  {
    var r := s.(listed := false);
    var next := Resume(r, Creating(text));
    RetiredOpeningOut(s, text);
    SuspendedAdds(next);
    var order := DrainAdds(next, LastText(next.sent));
    var longer := [Creating(text)] + order;
    assert longer[0] == Creating(text) && longer[1..] == order;
    assert !Sound(Resumed(r, longer));
  }

  lemma UnguardedIsUnsafe(s: Run, op: Op)
    requires Inv(s) && !MayBegin(s, op)
    ensures !Safe(Begin(s, op))
  {
    match op
    case Update(text, allowed, held) =>
      if !s.open {
        UnguardedOpeningIsUnsafe(s, text);
      } else if s.text <= text {
        UnguardedAddIsUnsafe(s, text);
      } else {
        UnguardedEndIsUnsafe(s, Failed(s.sequence, s.text), Failing);
      }
    case Fail => UnguardedEndIsUnsafe(s, Failed(s.sequence, s.text), Failing);
    case Finish(finalText) => UnguardedEndIsUnsafe(s, Done(s.sequence, finalText), Finishing);
    case Retire =>
      if s.open {
        UnguardedEndIsUnsafe(s, Failed(s.sequence, s.text), Retiring);
      } else {
        var text :| Creating(text) in s.waiting;
        RetiredOpeningIsUnsafe(s, text);
      }
  }

  // --- The guard is exact -------------------------------------------------------------------------

  /**
   Wherever guarded operations led, the next one may begin exactly when, in whatever order the
   suspended operations then go on, the trace stays well formed, the stored text ends up the last
   one handed over, and a run taken out of the tables ends up closed.
   */
  lemma MayBeginExactlyWhenSafe(s: Run, op: Op)
    requires Inv(s) && RetiredOk(s)
    ensures MayBegin(s, op) <==> Safe(Begin(s, op))
  {
    if MayBegin(s, op) {
      BeginKeepsInv(s, op);
      BeginKeepsRetired(s, op);
      InvIsSafe(Begin(s, op));
    } else {
      UnguardedIsUnsafe(s, op);
    }
  }

  lemma GuardedBefore(events: seq<Event>)
    requires events != [] && Guarded(events)
    ensures Guarded(events[..|events| - 1])
  {
    var before := events[..|events| - 1];
    forall i | 0 <= i < |before| && before[i].Begins?
      ensures MayBegin(After(before[..i]), before[i].op)
    {
      assert before[..i] == events[..i];
    }
  }

  lemma {:induction false} GuardedKeepsInv(events: seq<Event>)
    requires Guarded(events)
    ensures Inv(After(events)) && RetiredOk(After(events))
  {
    if events == [] {
      assert AddCount([]) == 0;
    } else {
      var before, e := events[..|events| - 1], Last(events);
      GuardedBefore(events);
      GuardedKeepsInv(before);
      match e
      case Begins(op) =>
        BeginKeepsInv(After(before), op);
        BeginKeepsRetired(After(before), op);
      case Resumes(suspended) =>
        ResumeKeepsInv(After(before), suspended);
        ResumeKeepsRetired(After(before), suspended);
    }
  }

  /** Every state along the run is safe. */
  ghost predicate SafeThroughout(events: seq<Event>) {
    forall i :: 0 <= i <= |events| ==> Safe(After(events[..i]))
  }

  lemma GuardedPrefix(events: seq<Event>, n: nat)
    requires Guarded(events) && n <= |events|
    ensures Guarded(events[..n])
  {
    forall i | 0 <= i < n && events[..n][i].Begins?
      ensures MayBegin(After(events[..n][..i]), events[..n][i].op)
    {
      assert events[..n][..i] == events[..i];
    }
  }

  /**
   Over all interleavings: a run is safe throughout exactly when every operation on it began under
   the guard.
   */
  lemma SafeExactlyWhenGuarded(events: seq<Event>)
    ensures SafeThroughout(events) <==> Guarded(events)
  {
    if Guarded(events) {
      forall i | 0 <= i <= |events|
        ensures Safe(After(events[..i]))
      {
        GuardedPrefix(events, i);
        GuardedKeepsInv(events[..i]);
        InvIsSafe(After(events[..i]));
      }
    } else {
      var i := FirstUnguarded(events);
      GuardedKeepsInv(events[..i]);
      MayBeginExactlyWhenSafe(After(events[..i]), events[i].op);
      assert events[..i + 1][..i] == events[..i] && Last(events[..i + 1]) == events[i];
      assert !Safe(After(events[..i + 1]));
    }
  }

  lemma FirstUnguarded(events: seq<Event>) returns (i: nat)
    requires !Guarded(events)
    ensures i < |events| && events[i].Begins? && !MayBegin(After(events[..i]), events[i].op)
    ensures Guarded(events[..i])
  {
    i := 0;
    while i < |events| && (events[i].Begins? ==> MayBegin(After(events[..i]), events[i].op))
      invariant i <= |events| && Guarded(events[..i])
    {
      GuardedSnoc(events[..i], events[i]);
      assert events[..i + 1] == events[..i] + [events[i]];
      i := i + 1;
    }
    assert events[..|events|] == events;
  }

  /** Operations that never overlap are guarded. */
  lemma OneAtATimeIsGuarded(events: seq<Event>)
    requires forall i :: 0 <= i < |events| && events[i].Begins? ==> After(events[..i]).waiting == multiset{}
    ensures Guarded(events)
  {
  }

  /**
   Every guarded run's trace: created frames come first or right after a done, ends come right
   after an add and carry its number, the adds are numbered 0, 1, 2, ... throughout, each add
   repeats the text so far, and nothing follows a failed.
   */
  lemma TraceIsWellFormed(events: seq<Event>)
    requires Guarded(events)
    ensures Fits(After(events).sent)
    ensures forall i :: 0 <= i < |After(events).sent| && After(events).sent[i].Failed? ==> i == |After(events).sent| - 1
  {
    GuardedKeepsInv(events);
    var sent := After(events).sent;
    forall i | 0 <= i < |sent| && sent[i].Failed?
      ensures i == |sent| - 1
    {
      assert i + 1 < |sent| ==> FrameFits(sent, i + 1);
    }
  }

  /** The first stream of a guarded run spells out the text handed over so far. */
  lemma FirstStreamSpellsText(events: seq<Event>, end: nat)
    requires Guarded(events) && IsStream(After(events).sent, 0, end)
    ensures Deltas(After(events).sent[..end]) == After(events).sent[end - 1].text
  {
    GuardedKeepsInv(events);
    DeltasGiveText(After(events).sent, 0, end);
    assert After(events).sent[..end] == After(events).sent[0..end];
  }

  /** A run that is retired under the guard has no open stream once nothing is suspended on it. */
  lemma RetiredIsClosed(events: seq<Event>)
    requires Guarded(events) && !After(events).listed
    ensures !After(events).open
    ensures After(events).waiting == multiset{} && After(events).sent != [] ==>
      Last(After(events).sent).Done? || Last(After(events).sent).Failed?
  {
    GuardedKeepsInv(events);
  }

  // --- Runs that break -------------------------------------------------------------------------------

  lemma AfterSnoc(events: seq<Event>, e: Event)
    ensures After(events + [e]) == Step(After(events), e)
  {
    assert (events + [e])[..|events|] == events && Last(events + [e]) == e;
  }

  lemma UpdateOut(text: string) returns (events: seq<Event>)
    requires text != ""
    ensures events == [Begins(Update(text, true, false)), Resumes(Creating(text)), Resumes(Adding(text))]
    ensures After(events) == Run(true, text, 0, false, true, [Created, Add(0, text, text)], multiset{})
  {
    events := [Begins(Update(text, true, false))];
    AfterSnoc([], events[0]);
    assert [] + events == events;
    var created := After(events);
    assert created.waiting == multiset{Creating(text)};
    AfterSnoc(events, Resumes(Creating(text)));
    events := events + [Resumes(Creating(text))];
    assert After(events).waiting == multiset{Adding(text)} && Drop(text, 0) == text;
    AfterSnoc(events, Resumes(Adding(text)));
    events := events + [Resumes(Adding(text))];
  }

  /**
   An edit while the done frame is going out: the stream still counts as open, so an add follows
   the done.
   */
  lemma UpdateDuringFinishBreaks() returns (events: seq<Event>)
    ensures After(events).sent == [Created, Add(0, "a", "a"), Done(0, "a"), Add(1, "ab", "b")]
    ensures !Fits(After(events).sent)
  {
    events := UpdateOut("a");
    AfterSnoc(events, Begins(Finish("a")));
    events := events + [Begins(Finish("a"))];
    AfterSnoc(events, Begins(Update("ab", true, false)));
    events := events + [Begins(Update("ab", true, false))];
    var sent := After(events).sent;
    assert sent == [Created, Add(0, "a", "a"), Done(0, "a"), Add(1, "ab", "b")];
    assert !FrameFits(sent, 3);
  }

  /**
   A run retired while its created frame is going out: it leaves the tables closed, and then its
   stream opens. The trace is well formed but never ends.
   */
  lemma RetireDuringOpeningLeaves() returns (events: seq<Event>)
    ensures var s := After(events);
      s == Run(true, "a", 0, false, false, [Created, Add(0, "a", "a")], multiset{})
  {
    events := [Begins(Update("a", true, false))];
    AfterSnoc([], events[0]);
    assert [] + events == events;
    AfterSnoc(events, Begins(Retire));
    events := events + [Begins(Retire)];
    assert After(events).waiting == multiset{Creating("a")};
    AfterSnoc(events, Resumes(Creating("a")));
    events := events + [Resumes(Creating("a"))];
    assert After(events).waiting == multiset{Adding("a")};
    AfterSnoc(events, Resumes(Adding("a")));
    events := events + [Resumes(Adding("a"))];
    assert After(events).waiting == multiset{};
  }

  lemma GuardedSnoc(events: seq<Event>, e: Event)
    requires Guarded(events) && (e.Begins? ==> MayBegin(After(events), e.op))
    ensures Guarded(events + [e]) && After(events + [e]) == Step(After(events), e)
  {
    AfterSnoc(events, e);
    var all := events + [e];
    forall i | 0 <= i < |all| && all[i].Begins?
      ensures MayBegin(After(all[..i]), all[i].op)
    {
      assert all[..i] == events[..i];
      assert events[..|events|] == events;
    }
  }

  lemma UpdateOutIsGuarded(events: seq<Event>, text: string)
    requires events == [Begins(Update(text, true, false)), Resumes(Creating(text)), Resumes(Adding(text))]
    ensures Guarded(events)
  {
    assert After(events[..0]) == FRESH;
  }

  /** One text streamed and the stream finished, one operation at a time. */
  lemma FinishedReply() returns (events: seq<Event>)
    ensures Guarded(events)
    ensures After(events) == Run(false, "ab", 0, false, true, [Created, Add(0, "ab", "ab"), Done(0, "ab")], multiset{})
  {
    events := UpdateOut("ab");
    UpdateOutIsGuarded(events, "ab");
    GuardedSnoc(events, Begins(Finish("ab")));
    events := events + [Begins(Finish("ab"))];
    assert After(events).waiting == multiset{Finishing};
    GuardedSnoc(events, Resumes(Finishing));
    events := events + [Resumes(Finishing)];
  }

  /** A reply finished but not retired can be written to again: the second stream's delta falls short. */
  lemma ReopenedStreamFallsShort() returns (events: seq<Event>)
    ensures Guarded(events)
    ensures After(events).sent == [Created, Add(0, "ab", "ab"), Done(0, "ab"), Created, Add(1, "abc", "c")]
  {
    events := FinishedReply();
    GuardedSnoc(events, Begins(Update("abc", true, false)));
    events := events + [Begins(Update("abc", true, false))];
    assert After(events).waiting == multiset{Creating("abc")};
    GuardedSnoc(events, Resumes(Creating("abc")));
    events := events + [Resumes(Creating("abc"))];
  }
}
