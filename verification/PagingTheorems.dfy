/**
 Following the cursors of a paged read: which ledgers are read completely by every walk, and which
 walks come to an end.
 */
module PagingTheorems {
  import opened Common
  import opened Timestamps
  import opened HistoryPaging

  // --- Where a request resumes -----------------------------------------------------------------

  /**
   The request's next page starts at position `p` of the range: it selects the rest of the range
   from there on, by its time or around the id found there.
   */
  ghost predicate Resumes(r: Reader, ledger: seq<Entry>, q: Request, start: Option<int>, end: Option<int>, p: nat) {
    var range := Ranged(ledger, start, end);
    && q.limit > 0 && p <= |range| && BoundsReadable(r, q) && Bound(r.latest, q.to) == end
    && (match q.around
        case Some(id) =>
          && p < |range| && id == range[p].id && Bound(r.earliest, q.from_) == Some(range[p].chronologicalAt)
          && UpTo(ledger[IndexOf(ledger, id)..], end) == range[p..]
        case None =>
          (q.from_.Some? || q.to.Some?) && Ranged(ledger, Bound(r.earliest, q.from_), end) == range[p..])
  }

  /** Where an entry of the range stands in the ledger. */
  lemma PlaceOf(r: Reader, ledger: seq<Entry>, start: Option<int>, end: Option<int>, p: nat)
    requires Stored(r, ledger) && p < |Ranged(ledger, start, end)|
    ensures var e := Ranged(ledger, start, end)[p];
      && IndexOf(ledger, e.id) < |ledger| && ledger[IndexOf(ledger, e.id)] == e
      && InRangeOf(e, start, end) && Readable(r, e)
  {
    var e := Ranged(ledger, start, end)[p];
    RangedOrderly(r, ledger, start, end);
    RangedMember(ledger, start, end, e);
    IndexOfMember(ledger, e);
  }

  /** A read shows the range from where it resumes, cut to its limit. */
  lemma ReadFromPosition(r: Reader, ledger: seq<Entry>, q: Request, start: Option<int>, end: Option<int>, p: nat)
    requires Stored(r, ledger) && Resumes(r, ledger, q, start, end, p)
    ensures Read(r, ledger, q)
         == PageOf(Take(Ranged(ledger, start, end)[p..], q.limit + 1), q.limit, q.around.Some?)
  {
    if q.around.Some? {
      PlaceOf(r, ledger, start, end, p);
    }
  }

  /** A page is the range from `p` on, cut to a limit, and knows what follows. */
  ghost predicate PageFrom(range: seq<Entry>, page: Reply, p: nat) {
    && page.Page? && |page.entries| > 0 && p + |page.entries| <= |range|
    && page.entries == range[p..p + |page.entries|]
    && page.next == (if p + |page.entries| < |range| then Some(range[p + |page.entries|]) else None)
  }

  lemma CutPage(range: seq<Entry>, limit: nat, p: nat, continuation: bool)
    requires p <= |range| && limit > 0
    ensures var page := PageOf(Take(range[p..], limit + 1), limit, continuation);
      if p == |range| then page == NothingThere
      else
        && PageFrom(range, page, p) && page.continuation == continuation
        && |page.entries| == Min(limit, |range| - p)
  {
    var list := range[p..];
    var found := Take(list, limit + 1);
    if limit < |list| {
      assert found == range[p..p + limit + 1];
      assert found[limit] == range[p + limit];
      assert Take(found, limit) == range[p..p + limit];
    } else {
      assert found == list && Take(found, limit) == range[p..|range|];
    }
  }

  lemma PageFromPosition(r: Reader, ledger: seq<Entry>, q: Request, start: Option<int>, end: Option<int>, p: nat)
    requires Stored(r, ledger) && Resumes(r, ledger, q, start, end, p)
    ensures var range, page := Ranged(ledger, start, end), Read(r, ledger, q);
      if p == |range| then page == NothingThere
      else
        && PageFrom(range, page, p) && page.continuation == q.around.Some?
        && |page.entries| == Min(q.limit, |range| - p)
  {
    ReadFromPosition(r, ledger, q, start, end, p);
    CutPage(Ranged(ledger, start, end), q.limit, p, q.around.Some?);
  }

  lemma OmittedAt(range: seq<Entry>, page: Reply, p: nat, n: nat)
    requires PageFrom(range, page, p) && n <= |page.entries|
    ensures Omitted(page, n) == if p + n < |range| then Some(range[p + n]) else None
    ensures page.entries[..n] == range[p..p + n]
  {
    assert n < |page.entries| ==> page.entries[n] == range[p + n];
  }

  // --- The two forms of a cursor ----------------------------------------------------------------

  /** Rows an unreadable time hides from the range, up to its end, after the second of two entries
      of the range that have the same time. */
  predicate Leak(ledger: seq<Entry>, start: Option<int>, end: Option<int>, i: nat, j: nat, k: nat) {
    && i < j < k < |ledger|
    && InRangeOf(ledger[i], start, end) && InRangeOf(ledger[j], start, end)
    && ledger[i].chronologicalAt == ledger[j].chronologicalAt
    && ledger[k].at.None? && NotAfter(ledger[k], end)
  }

  ghost predicate Leaky(ledger: seq<Entry>, start: Option<int>, end: Option<int>) {
    exists i, j, k :: Leak(ledger, start, end, i, j, k)
  }

  /** The list up to the end bound from one entry of the range on, and the range's own rest. */
  lemma TailOfRange(r: Reader, ledger: seq<Entry>, start: Option<int>, end: Option<int>, p: nat)
    requires Stored(r, ledger) && p < |Ranged(ledger, start, end)|
    ensures var range := Ranged(ledger, start, end);
      Ranged(ledger[IndexOf(ledger, range[p].id)..], start, end) == range[p..]
  {
    var range := Ranged(ledger, start, end);
    var at := IndexOf(ledger, range[p].id);
    PlaceOf(r, ledger, start, end, p);
    assert ledger == ledger[..at] + ledger[at..];
    var keep := (e: Entry) => InRangeOf(e, start, end);
    KeptConcat(keep, ledger[..at], ledger[at..]);
    KeptHead(keep, ledger[at..]);
    RangedOrderly(r, ledger, start, end);
    TailFrom(range, Ranged(ledger[..at], start, end), Ranged(ledger[at..], start, end), p);
  }

  /** After a tie the list around an id is the rest of the range, if nothing leaks. */
  lemma AroundAfterTie(r: Reader, ledger: seq<Entry>, start: Option<int>, end: Option<int>, o: nat, p: nat)
    requires Stored(r, ledger) && !Leaky(ledger, start, end) && o < p < |Ranged(ledger, start, end)|
    requires var range := Ranged(ledger, start, end); range[o].chronologicalAt == range[p].chronologicalAt
    ensures var range := Ranged(ledger, start, end);
      UpTo(ledger[IndexOf(ledger, range[p].id)..], end) == range[p..]
  {
    var range := Ranged(ledger, start, end);
    var i, j := IndexOf(ledger, range[o].id), IndexOf(ledger, range[p].id);
    PlaceOf(r, ledger, start, end, o);
    PlaceOf(r, ledger, start, end, p);
    RangedOrderly(r, ledger, start, end);
    assert Before(range[o], range[p]);
    EarlierIndex(ledger, i, j);
    var tail := ledger[j..];
    forall k | 0 <= k < |tail|
      ensures NotAfter(tail[k], end) == InRangeOf(tail[k], start, end)
    {
      KeptAlike(r, ledger, start, end, i, j, j + k);
    }
    KeptAgree((e: Entry) => NotAfter(e, end), (e: Entry) => InRangeOf(e, start, end), tail);
    TailOfRange(r, ledger, start, end, p);
  }

  lemma EarlierIndex(ledger: seq<Entry>, i: nat, j: nat)
    requires Sorted(ledger) && i < |ledger| && j < |ledger| && Before(ledger[i], ledger[j])
    ensures i < j
  {
  }

  lemma KeptAlike(r: Reader, ledger: seq<Entry>, start: Option<int>, end: Option<int>, i: nat, j: nat, k: nat)
    requires Stored(r, ledger) && !Leaky(ledger, start, end) && i < j <= k < |ledger|
    requires InRangeOf(ledger[i], start, end) && InRangeOf(ledger[j], start, end)
    requires ledger[i].chronologicalAt == ledger[j].chronologicalAt && ledger[j].at == Some(ledger[j].chronologicalAt)
    ensures NotAfter(ledger[k], end) == InRangeOf(ledger[k], start, end)
  {
    assert !Leak(ledger, start, end, i, j, k);
    assert j < k ==> Before(ledger[j], ledger[k]);
  }

  /** A continuation goes on as one. */
  lemma AroundGoesOn(r: Reader, ledger: seq<Entry>, start: Option<int>, end: Option<int>, p: nat, n: nat)
    requires Stored(r, ledger) && p + n < |Ranged(ledger, start, end)|
    requires var range := Ranged(ledger, start, end); UpTo(ledger[IndexOf(ledger, range[p].id)..], end) == range[p..]
    ensures var range := Ranged(ledger, start, end);
      UpTo(ledger[IndexOf(ledger, range[p + n].id)..], end) == range[p + n..]
  {
    var range := Ranged(ledger, start, end);
    var i, j := IndexOf(ledger, range[p].id), IndexOf(ledger, range[p + n].id);
    PlaceOf(r, ledger, start, end, p);
    PlaceOf(r, ledger, start, end, p + n);
    RangedOrderly(r, ledger, start, end);
    if n > 0 {
      assert Before(range[p], range[p + n]);
      EarlierIndex(ledger, i, j);
    }
    LaterTail(ledger, end, i, j, range[p..], n);
  }

  lemma LaterTail(ledger: seq<Entry>, end: Option<int>, i: nat, j: nat, list: seq<Entry>, n: nat)
    requires Sorted(ledger) && i <= j < |ledger| && UpTo(ledger[i..], end) == list
    requires n < |list| && list[n] == ledger[j] && NotAfter(ledger[j], end)
    ensures UpTo(ledger[j..], end) == list[n..]
  {
    var keep := (e: Entry) => NotAfter(e, end);
    var a, b := ledger[i..j], ledger[j..];
    assert ledger[i..] == a + b;
    KeptConcat(keep, a, b);
    KeptHead(keep, b);
    assert Sorted(ledger[i..]);
    KeptSorted(keep, ledger[i..]);
    TailFrom(list, Kept(keep, a), Kept(keep, b), n);
  }

  /** An entry before the position is older than those a time form still selects. */
  lemma OlderBefore(r: Reader, ledger: seq<Entry>, q: Request, start: Option<int>, end: Option<int>, p: nat)
    requires Stored(r, ledger) && Resumes(r, ledger, q, start, end, p) && q.around.None?
    requires 0 < p < |Ranged(ledger, start, end)|
    ensures var range := Ranged(ledger, start, end); range[p - 1].chronologicalAt < range[p].chronologicalAt
  {
    var range, from_ := Ranged(ledger, start, end), Bound(r.earliest, q.from_);
    PlaceOf(r, ledger, start, end, p - 1);
    PlaceOf(r, ledger, start, end, p);
    RangedOrderly(r, ledger, start, end);
    RangedMember(ledger, from_, end, range[p - 1]);
    RangedMember(ledger, from_, end, range[p]);
    assert range[p..][0] == range[p];
    NotInTail(range, p - 1, p);
  }

  lemma NotInTail(range: seq<Entry>, o: nat, p: nat)
    requires Sorted(range) && o < p <= |range|
    ensures range[o] !in range[p..]
  {
    forall k | 0 <= k < |range[p..]|
      ensures range[p..][k] != range[o]
    {
      assert range[o].id != range[p + k].id;
    }
  }

  /** The time form resumes where the entry before is older. */
  lemma TimeFormResumes(r: Reader, ledger: seq<Entry>, q: Request, start: Option<int>, end: Option<int>, p: nat)
    requires Stored(r, ledger) && p < |Ranged(ledger, start, end)| && q.limit > 0
    requires q.around.None? && q.from_ == Some(Ranged(ledger, start, end)[p].ts)
    requires (q.to.Some? ==> r.latest(q.to.value).Some?) && Bound(r.latest, q.to) == end
    requires var range := Ranged(ledger, start, end); p > 0 ==> range[p - 1].chronologicalAt < range[p].chronologicalAt
    ensures Resumes(r, ledger, q, start, end, p)
  {
    var range := Ranged(ledger, start, end);
    PlaceOf(r, ledger, start, end, p);
    RangedOrderly(r, ledger, start, end);
    assert forall i :: 0 <= i < |range| ==> NotAfter(range[i], end) by {
      assert forall i :: 0 <= i < |range| ==> Readable(r, range[i]);
    }
    TailIsRanged(r, range, p, end);
    RangedWithin(ledger, start, end, range[p].chronologicalAt);
  }

  /** The around form says no more than the entry's own time. */
  lemma AroundFormResumes(r: Reader, ledger: seq<Entry>, q: Request, start: Option<int>, end: Option<int>, p: nat)
    requires Stored(r, ledger) && p < |Ranged(ledger, start, end)| && q.limit > 0
    requires var e := Ranged(ledger, start, end)[p];
      && q.around == Some(e.id) && q.from_ == Some(e.ts)
      && UpTo(ledger[IndexOf(ledger, e.id)..], end) == Ranged(ledger, start, end)[p..]
    requires (q.to.Some? ==> r.latest(q.to.value).Some?) && Bound(r.latest, q.to) == end
    ensures Resumes(r, ledger, q, start, end, p)
  {
    PlaceOf(r, ledger, start, end, p);
  }

  lemma OlderWhenNotShown(
      r: Reader, ledger: seq<Entry>, q: Request, start: Option<int>, end: Option<int>, page: Reply, p: nat, n: nat)
    requires Stored(r, ledger) && Resumes(r, ledger, q, start, end, p) && q.around.None?
    requires PageFrom(Ranged(ledger, start, end), page, p) && n <= |page.entries|
    requires p + n < |Ranged(ledger, start, end)|
    requires !SameTimeShown(page, n, Ranged(ledger, start, end)[p + n])
    ensures var range := Ranged(ledger, start, end);
      p + n > 0 ==> range[p + n - 1].chronologicalAt < range[p + n].chronologicalAt
  {
    var range := Ranged(ledger, start, end);
    RangedOrderly(r, ledger, start, end);
    if n > 0 {
      assert page.entries[n - 1] == range[p + n - 1];
      assert Before(range[p + n - 1], range[p + n]);
    } else if p > 0 {
      OlderBefore(r, ledger, q, start, end, p);
    }
  }

  lemma ShownTie(range: seq<Entry>, page: Reply, p: nat, n: nat, e: Entry) returns (o: nat)
    requires PageFrom(range, page, p) && n <= |page.entries| && SameTimeShown(page, n, e)
    ensures p <= o < p + n <= |range| && range[o].chronologicalAt == e.chronologicalAt
  {
    var i :| 0 <= i < n && page.entries[i].chronologicalAt == e.chronologicalAt;
    o := p + i;
  }

  lemma CursorForms(page: Reply, q: Request, n: nat, e: Entry, nextLimit: nat)
    requires page.Page? && n <= |page.entries| && e.at.Some?
    ensures CursorTo(page, q, n, e, nextLimit)
         == if page.continuation || SameTimeShown(page, n, e) then Request(Some(e.id), Some(e.ts), q.to, q.limit)
            else Request(None, Some(e.ts), q.to, nextLimit)
  {
  }

  /** The cursor after `n` entries shown, perhaps none, resumes exactly `n` positions on. */
  lemma CursorResumes(
      r: Reader, ledger: seq<Entry>, q: Request, start: Option<int>, end: Option<int>, page: Reply, p: nat, n: nat,
      nextLimit: nat)
    requires Stored(r, ledger) && Resumes(r, ledger, q, start, end, p) && nextLimit > 0
    requires PageFrom(Ranged(ledger, start, end), page, p) && n <= |page.entries|
    requires p + n < |Ranged(ledger, start, end)|
    requires page.continuation == q.around.Some?
    requires q.around.Some? || !Leaky(ledger, start, end) || !SameTimeShown(page, n, Ranged(ledger, start, end)[p + n])
    ensures Resumes(r, ledger, CursorTo(page, q, n, Ranged(ledger, start, end)[p + n], nextLimit), start, end, p + n)
  {
    var range := Ranged(ledger, start, end);
    var e := range[p + n];
    PlaceOf(r, ledger, start, end, p + n);
    CursorForms(page, q, n, e, nextLimit);
    if page.continuation {
      AroundGoesOn(r, ledger, start, end, p, n);
      AroundFormResumes(r, ledger, Request(Some(e.id), Some(e.ts), q.to, q.limit), start, end, p + n);
    } else if SameTimeShown(page, n, e) {
      var o := ShownTie(range, page, p, n, e);
      AroundAfterTie(r, ledger, start, end, o, p + n);
      AroundFormResumes(r, ledger, Request(Some(e.id), Some(e.ts), q.to, q.limit), start, end, p + n);
    } else {
      OlderWhenNotShown(r, ledger, q, start, end, page, p, n);
      TimeFormResumes(r, ledger, Request(None, Some(e.ts), q.to, nextLimit), start, end, p + n);
    }
  }

  // --- One reply, and whole walks ---------------------------------------------------------------

  /** A walk from `p` has shown the range up to `to`, and ends with it or resumes there. */
  ghost predicate MovedTo(
      r: Reader, ledger: seq<Entry>, w: Walk, start: Option<int>, end: Option<int>, p: nat, to: nat)
  {
    var range := Ranged(ledger, start, end);
    && p <= to <= |range| && w.shown == range[p..to]
    && (if w.rest.None? then to == |range| else Resumes(r, ledger, w.rest.value, start, end, to))
  }

  lemma AnswerIs(r: Reader, ledger: seq<Entry>, q: Request, page: Reply, choice: Choice)
    requires q.limit > 0 && page == Read(r, ledger, q) && page.Page?
    ensures var n := Min(choice.shown, |page.entries|);
      Answer(r, ledger, q, choice) == Walk(page.entries[..n], Cursor(page, q, n, AtLeastOne(choice.limit)))
  {
  }

  /** What a reply to a request at `p` consists of. */
  lemma AnswerAt(r: Reader, ledger: seq<Entry>, q: Request, range: seq<Entry>, page: Reply, choice: Choice, p: nat)
    requires q.limit > 0 && page == Read(r, ledger, q) && PageFrom(range, page, p)
    ensures var n := Min(choice.shown, |page.entries|);
      Answer(r, ledger, q, choice) == Walk(range[p..p + n],
        if p + n < |range| then Some(CursorTo(page, q, n, range[p + n], AtLeastOne(choice.limit))) else None)
  {
    hide Answer, Read, CursorTo;
    AnswerIs(r, ledger, q, page, choice);
    OmittedAt(range, page, p, Min(choice.shown, |page.entries|));
  }

  lemma AnswerFrom(
      r: Reader, ledger: seq<Entry>, q: Request, start: Option<int>, end: Option<int>, choice: Choice, p: nat)
    returns (to: nat)
    requires Stored(r, ledger) && !Leaky(ledger, start, end) && Resumes(r, ledger, q, start, end, p)
    ensures MovedTo(r, ledger, Answer(r, ledger, q, choice), start, end, p, to)
    ensures Answer(r, ledger, q, choice).rest.Some? ==> to < |Ranged(ledger, start, end)|
    ensures to == p <==> p == |Ranged(ledger, start, end)| || choice.shown == 0
  {
    var range, page := Ranged(ledger, start, end), Read(r, ledger, q);
    PageFromPosition(r, ledger, q, start, end, p);
    to := p;
    if p < |range| {
      var n := Min(choice.shown, |page.entries|);
      to := p + n;
      AnswerAt(r, ledger, q, range, page, choice, p);
      if p + n < |range| {
        CursorResumes(r, ledger, q, start, end, page, p, n, AtLeastOne(choice.limit));
      }
    }
  }

  lemma SlicesJoin(range: seq<Entry>, p: nat, middle: nat, to: nat)
    requires p <= middle <= to <= |range|
    ensures range[p..middle] + range[middle..to] == range[p..to]
  {
  }

  lemma MovedTwice(
      r: Reader, ledger: seq<Entry>, w: Walk, more: Walk, start: Option<int>, end: Option<int>,
      p: nat, middle: nat, to: nat)
    requires MovedTo(r, ledger, w, start, end, p, middle) && MovedTo(r, ledger, more, start, end, middle, to)
    ensures MovedTo(r, ledger, Walk(w.shown + more.shown, more.rest), start, end, p, to)
  {
    SlicesJoin(Ranged(ledger, start, end), p, middle, to);
  }

  lemma FollowUnfold(r: Reader, ledger: seq<Entry>, q: Request, script: seq<Choice>, w: Walk)
    requires q.limit > 0 && script != [] && w == Answer(r, ledger, q, script[0]) && w.rest.Some?
    ensures w.rest.value.limit > 0
    ensures var more := Follow(r, ledger, w.rest.value, script[1..]);
      Follow(r, ledger, q, script) == Walk(w.shown + more.shown, more.rest)
  {
  }

  lemma {:induction false} FollowFrom(
      r: Reader, ledger: seq<Entry>, q: Request, start: Option<int>, end: Option<int>, script: seq<Choice>, p: nat)
    returns (to: nat)
    requires Stored(r, ledger) && !Leaky(ledger, start, end) && Resumes(r, ledger, q, start, end, p)
    ensures MovedTo(r, ledger, Follow(r, ledger, q, script), start, end, p, to)
    decreases |script|
  {
    to := p;
    if script != [] {
      var w := Answer(r, ledger, q, script[0]);
      to := AnswerFrom(r, ledger, q, start, end, script[0], p);
      if w.rest.Some? {
        var middle := to;
        to := FollowFrom(r, ledger, w.rest.value, start, end, script[1..], middle);
        MovedTwice(r, ledger, w, Follow(r, ledger, w.rest.value, script[1..]), start, end, p, middle, to);
        FollowUnfold(r, ledger, q, script, w);
      }
    }
  }

  /** A read of a time range. */
  predicate RangeRequest(r: Reader, q: Request) {
    q.limit > 0 && BoundsReadable(r, q) && q.around.None? && (q.from_.Some? || q.to.Some?)
  }

  function RangeOf(r: Reader, ledger: seq<Entry>, q: Request): seq<Entry> {
    Ranged(ledger, Bound(r.earliest, q.from_), Bound(r.latest, q.to))
  }

  ghost predicate LeakyFor(r: Reader, ledger: seq<Entry>, q: Request) {
    Leaky(ledger, Bound(r.earliest, q.from_), Bound(r.latest, q.to))
  }

  /** Every reply of the walk, up to its end, shows an entry. */
  ghost predicate EveryReplyShows(r: Reader, ledger: seq<Entry>, q: Request, script: seq<Choice>)
    requires q.limit > 0
  {
    forall i :: 0 <= i < |script| ==> ReplyShows(r, ledger, q, script, i)
  }

  predicate ReplyShows(r: Reader, ledger: seq<Entry>, q: Request, script: seq<Choice>, i: nat)
    requires q.limit > 0 && i < |script|
  {
    Follow(r, ledger, q, script[..i]).rest.Some? ==> script[i].shown > 0
  }

  /**
   What a walk promises: it shows the beginning of the range, each entry once and in order; it ends
   exactly when it has shown all of it; and it does end if more replies than the range has entries
   each show one.
   */
  ghost predicate ReadsTheRange(r: Reader, ledger: seq<Entry>, q: Request, script: seq<Choice>)
    requires q.limit > 0
  {
    var range, w := RangeOf(r, ledger, q), Follow(r, ledger, q, script);
    && w.shown <= range
    && (w.rest.None? <==> script != [] && w.shown == range)
    && (EveryReplyShows(r, ledger, q, script) && |script| > |range| ==> w.rest.None?)
  }

  lemma {:induction false} ShowsAsManyAsReplies(r: Reader, ledger: seq<Entry>, q: Request, script: seq<Choice>)
    requires Stored(r, ledger) && RangeRequest(r, q) && !LeakyFor(r, ledger, q)
    requires EveryReplyShows(r, ledger, q, script) && Follow(r, ledger, q, script).rest.Some?
    ensures |Follow(r, ledger, q, script).shown| >= |script|
  {
    if script != [] {
      var before, last := script[..|script| - 1], Last(script);
      var start, end := Bound(r.earliest, q.from_), Bound(r.latest, q.to);
      assert script == before + [last];
      FollowConcat(r, ledger, q, before, [last]);
      var w := Follow(r, ledger, q, before);
      assert w.rest.Some? && ReplyShows(r, ledger, q, script, |before|);
      ShowsBefore(r, ledger, q, script);
      ShowsAsManyAsReplies(r, ledger, q, before);
      StartResumes(r, ledger, q);
      var at := FollowFrom(r, ledger, q, start, end, before, 0);
      var to := AnswerFrom(r, ledger, w.rest.value, start, end, last, at);
      FollowOne(r, ledger, w.rest.value, last);
    }
  }

  lemma FollowOne(r: Reader, ledger: seq<Entry>, q: Request, choice: Choice)
    requires q.limit > 0
    ensures Follow(r, ledger, q, [choice]) == Answer(r, ledger, q, choice)
  {
    assert [choice][1..] == [];
  }

  lemma ShowsBefore(r: Reader, ledger: seq<Entry>, q: Request, script: seq<Choice>)
    requires q.limit > 0 && script != [] && EveryReplyShows(r, ledger, q, script)
    ensures EveryReplyShows(r, ledger, q, script[..|script| - 1])
  {
    var before := script[..|script| - 1];
    forall i | 0 <= i < |before|
      ensures ReplyShows(r, ledger, q, before, i)
    {
      assert before[..i] == script[..i] && ReplyShows(r, ledger, q, script, i);
    }
  }

  lemma StartResumes(r: Reader, ledger: seq<Entry>, q: Request)
    requires RangeRequest(r, q)
    ensures Resumes(r, ledger, q, Bound(r.earliest, q.from_), Bound(r.latest, q.to), 0)
  {
  }

  /** A walk with a cursor left has not shown all of the range. */
  lemma SomethingIsLeft(r: Reader, ledger: seq<Entry>, q: Request, script: seq<Choice>)
    requires Stored(r, ledger) && RangeRequest(r, q) && !LeakyFor(r, ledger, q)
    requires script != [] && Follow(r, ledger, q, script).rest.Some?
    ensures |Follow(r, ledger, q, script).shown| < |RangeOf(r, ledger, q)|
  {
    var before, last := script[..|script| - 1], Last(script);
    var start, end := Bound(r.earliest, q.from_), Bound(r.latest, q.to);
    assert script == before + [last];
    FollowConcat(r, ledger, q, before, [last]);
    var w := Follow(r, ledger, q, before);
    StartResumes(r, ledger, q);
    var at := FollowFrom(r, ledger, q, start, end, before, 0);
    var to := AnswerFrom(r, ledger, w.rest.value, start, end, last, at);
    FollowOne(r, ledger, w.rest.value, last);
  }

  lemma ShowsAPrefix(r: Reader, ledger: seq<Entry>, q: Request, script: seq<Choice>)
    requires Stored(r, ledger) && RangeRequest(r, q) && !LeakyFor(r, ledger, q)
    ensures var range, w := RangeOf(r, ledger, q), Follow(r, ledger, q, script);
      w.shown <= range && (w.rest.None? ==> w.shown == range)
  {
    StartResumes(r, ledger, q);
    var to := FollowFrom(r, ledger, q, Bound(r.earliest, q.from_), Bound(r.latest, q.to), script, 0);
  }

  /** On a ledger that does not leak, every walk reads the range, whatever fits its replies. */
  lemma PagingIsComplete(r: Reader, ledger: seq<Entry>, q: Request, script: seq<Choice>)
    requires Stored(r, ledger) && RangeRequest(r, q) && !LeakyFor(r, ledger, q)
    ensures ReadsTheRange(r, ledger, q, script)
  {
    ShowsAPrefix(r, ledger, q, script);
    if script != [] && Follow(r, ledger, q, script).rest.Some? {
      SomethingIsLeft(r, ledger, q, script);
      if EveryReplyShows(r, ledger, q, script) {
        ShowsAsManyAsReplies(r, ledger, q, script);
      }
    }
  }
}
