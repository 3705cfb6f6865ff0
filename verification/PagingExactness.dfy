/**
 Where paging breaks: a walk of one entry at a time fails on every ledger that leaks, and a walk
 ends exactly when its replies keep showing entries.
 */
module PagingExactness {
  import opened Common
  import opened Timestamps
  import opened HistoryPaging
  import opened PagingTheorems

  // --- One entry at a time ------------------------------------------------------------------------

  function Ones(n: nat): seq<Choice> {
    seq(n, _ => Choice(1, 1))
  }

  lemma OnesStep(n: nat)
    ensures Ones(n + 1)[1..] == Ones(n) && Ones(n + 1)[0] == Choice(1, 1)
  {
  }

  lemma OnesSplit(m: nat, n: nat)
    ensures Ones(m + n) == Ones(m) + Ones(n)
  {
  }

  /** The request reads on around the entry at this place of the ledger. */
  ghost predicate Around(r: Reader, ledger: seq<Entry>, q: Request, end: Option<int>, at: nat) {
    && q.limit > 0 && BoundsReadable(r, q) && Bound(r.latest, q.to) == end
    && at < |ledger| && q.around == Some(ledger[at].id) && NotAfter(ledger[at], end)
    && Bound(r.earliest, q.from_) == Some(ledger[at].chronologicalAt)
  }

  lemma FollowFirst(r: Reader, ledger: seq<Entry>, q: Request, n: nat, shown: seq<Entry>, next: Request)
    requires q.limit > 0 && n > 0 && Answer(r, ledger, q, Choice(1, 1)) == Walk(shown, Some(next))
    ensures next.limit > 0
    ensures var more := Follow(r, ledger, next, Ones(n - 1));
      Follow(r, ledger, q, Ones(n)) == Walk(shown + more.shown, more.rest)
  {
    OnesStep(n - 1);
  }

  /** One reply of one entry to a read by time. */
  lemma TimeStep(r: Reader, ledger: seq<Entry>, q: Request, start: Option<int>, end: Option<int>, p: nat)
    returns (next: Request)
    requires Stored(r, ledger) && Resumes(r, ledger, q, start, end, p) && q.around.None?
    requires p + 1 < |Ranged(ledger, start, end)|
    ensures var range := Ranged(ledger, start, end);
      && Answer(r, ledger, q, Choice(1, 1)) == Walk([range[p]], Some(next))
      && (range[p].chronologicalAt == range[p + 1].chronologicalAt ==>
        Around(r, ledger, next, end, IndexOf(ledger, range[p + 1].id)))
      && (range[p].chronologicalAt != range[p + 1].chronologicalAt ==>
        Resumes(r, ledger, next, start, end, p + 1) && next.around.None?)
  {
    var range, page := Ranged(ledger, start, end), Read(r, ledger, q);
    PageFromPosition(r, ledger, q, start, end, p);
    AnswerAt(r, ledger, q, range, page, Choice(1, 1), p);
    assert range[p..p + 1] == [range[p]];
    TieShown(range, page, p);
    PlaceOf(r, ledger, start, end, p + 1);
    next := CursorTo(page, q, 1, range[p + 1], 1);
    if range[p].chronologicalAt != range[p + 1].chronologicalAt {
      CursorResumes(r, ledger, q, start, end, page, p, 1, 1);
    }
  }

  lemma SliceStep(range: seq<Entry>, p: nat, m: nat)
    requires p < m <= |range|
    ensures range[p..m] == [range[p]] + range[p + 1..m]
  {
  }

  /** Before the first tie the walk goes on by time; at the tie it turns to an id. */
  lemma {:induction false} TimePhase(
      r: Reader, ledger: seq<Entry>, q: Request, start: Option<int>, end: Option<int>, p: nat, m: nat, n: nat)
    returns (next: Request)
    requires Stored(r, ledger) && Resumes(r, ledger, q, start, end, p) && q.around.None?
    requires p < m < |Ranged(ledger, start, end)| && n == m - p
    requires var range := Ranged(ledger, start, end);
      && (forall i :: p <= i < m - 1 ==> range[i].chronologicalAt != range[i + 1].chronologicalAt)
      && range[m - 1].chronologicalAt == range[m].chronologicalAt
    ensures var range := Ranged(ledger, start, end);
      && Follow(r, ledger, q, Ones(n)) == Walk(range[p..m], Some(next))
      && Around(r, ledger, next, end, IndexOf(ledger, range[m].id))
    decreases n
  {
    hide Stored, Answer;
    var range := Ranged(ledger, start, end);
    var first := TimeStep(r, ledger, q, start, end, p);
    FollowFirst(r, ledger, q, n, [range[p]], first);
    SliceStep(range, p, m);
    if n > 1 {
      next := TimePhase(r, ledger, first, start, end, p + 1, m, n - 1);
    } else {
      next := first;
    }
  }

  lemma TieShown(range: seq<Entry>, page: Reply, p: nat)
    requires PageFrom(range, page, p) && p + 1 < |range|
    ensures SameTimeShown(page, 1, range[p + 1]) <==> range[p].chronologicalAt == range[p + 1].chronologicalAt
  {
    assert page.entries[0] == range[p];
  }

  lemma StuckWhenInvalid(r: Reader, ledger: seq<Entry>, q: Request, script: seq<Choice>)
    requires q.limit > 0 && Read(r, ledger, q) == Invalid
    ensures Follow(r, ledger, q, script) == Walk([], Some(q))
    decreases |script|
  {
    if script != [] {
      StuckWhenInvalid(r, ledger, q, script[1..]);
    }
  }

  /** The page around an entry: the whole list up to the end bound. */
  lemma AroundPage(r: Reader, ledger: seq<Entry>, q: Request, end: Option<int>, at: nat)
    requires Stored(r, ledger) && Around(r, ledger, q, end, at)
    ensures var list := UpTo(ledger[at..], end);
      && list != [] && list[0] == ledger[at] && Sorted(list)
      && PageFrom(list, Read(r, ledger, q), 0) && Read(r, ledger, q).continuation
  {
    var list := UpTo(ledger[at..], end);
    IndexOfMember(ledger, ledger[at]);
    SameEntrySamePlace(ledger, IndexOf(ledger, ledger[at].id), at);
    KeptHead((e: Entry) => NotAfter(e, end), ledger[at..]);
    KeptSorted((e: Entry) => NotAfter(e, end), ledger[at..]);
    CutPage(list, q.limit, 0, true);
    assert list[0..] == list;
  }

  /** The next entry of the list around an entry, and where it stands. */
  lemma NextAround(r: Reader, ledger: seq<Entry>, end: Option<int>, at: nat) returns (next: nat)
    requires Stored(r, ledger) && at < |ledger| && |UpTo(ledger[at..], end)| > 1 && NotAfter(ledger[at], end)
    ensures next < |ledger| && UpTo(ledger[at..], end)[1] == ledger[next] && NotAfter(ledger[next], end)
    ensures UpTo(ledger[next..], end) == UpTo(ledger[at..], end)[1..]
  {
    var list, keep := UpTo(ledger[at..], end), (e: Entry) => NotAfter(e, end);
    KeptHead(keep, ledger[at..]);
    KeptSorted(keep, ledger[at..]);
    KeptMember(keep, ledger[at..], list[1]);
    assert list[1] in ledger;
    IndexOfMember(ledger, list[1]);
    next := IndexOf(ledger, list[1].id);
    assert Before(list[0], list[1]);
    EarlierIndex(ledger, at, next);
    LaterTail(ledger, end, at, next, list, 1);
  }

  /** The stamp of a cursor around an entry is read as its time, or not read at all. */
  lemma CursorAround(r: Reader, ledger: seq<Entry>, q: Request, page: Reply, end: Option<int>, at: nat, next: nat)
    requires Stored(r, ledger) && ReadsStamps(r) && Around(r, ledger, q, end, at)
    requires page.Page? && page.continuation && |page.entries| > 0 && next < |ledger| && NotAfter(ledger[next], end)
    ensures var cursor := CursorTo(page, q, 1, ledger[next], 1);
      Around(r, ledger, cursor, end, next) || (cursor.limit > 0 && Read(r, ledger, cursor) == Invalid)
  {
    var e := ledger[next];
    if e.at.None? {
      assert Unreadable(e);
      var ms := e.chronologicalAt / 1000;
      assert ms * 1000 == e.chronologicalAt;
      assert r.earliest(StampText(ms)) == if InRange(ms) then Some(ms * 1000) else None;
    }
  }

  ghost predicate ShowsUnreadable(w: Walk) {
    exists e :: e in w.shown && e.at.None?
  }

  /** One reply of one entry to a read around an id. */
  lemma AroundStep(r: Reader, ledger: seq<Entry>, q: Request, end: Option<int>, at: nat, list: seq<Entry>)
    returns (cursor: Request, next: nat, rest: seq<Entry>)
    requires Stored(r, ledger) && ReadsStamps(r) && Around(r, ledger, q, end, at)
    requires list == UpTo(ledger[at..], end) && |list| > 1
    ensures Answer(r, ledger, q, Choice(1, 1)) == Walk([list[0]], Some(cursor)) && cursor.limit > 0
    ensures next < |ledger| && UpTo(ledger[next..], end) == rest && list == [list[0]] + rest
    ensures Around(r, ledger, cursor, end, next) || Read(r, ledger, cursor) == Invalid
  {
    var page := Read(r, ledger, q);
    AroundPage(r, ledger, q, end, at);
    AnswerAt(r, ledger, q, list, page, Choice(1, 1), 0);
    assert list[0..1] == [list[0]];
    next := NextAround(r, ledger, end, at);
    rest := list[1..];
    cursor := CursorTo(page, q, 1, list[1], 1);
    CursorAround(r, ledger, q, page, end, at, next);
  }

  /** The walk shows an unreadable row or has not come to its end. */
  ghost predicate Fails(w: Walk) {
    w.rest.Some? || ShowsUnreadable(w)
  }

  lemma ShowsFirst(r: Reader, ledger: seq<Entry>, q: Request, end: Option<int>, at: nat, list: seq<Entry>, n: nat)
    requires Stored(r, ledger) && Around(r, ledger, q, end, at) && list == UpTo(ledger[at..], end) && n > 0
    ensures list != [] && (list[0].at.None? ==> Fails(Follow(r, ledger, q, Ones(n))))
  {
    AroundPage(r, ledger, q, end, at);
    AnswerAt(r, ledger, q, list, Read(r, ledger, q), Choice(1, 1), 0);
    OnesStep(n - 1);
    assert list[0] in list[0..1];
    assert list[0] in Follow(r, ledger, q, Ones(n)).shown;
  }

  lemma FailsLater(r: Reader, ledger: seq<Entry>, q: Request, n: nat, shown: seq<Entry>, next: Request)
    requires q.limit > 0 && n > 0 && Answer(r, ledger, q, Choice(1, 1)) == Walk(shown, Some(next)) && next.limit > 0
    requires Fails(Follow(r, ledger, next, Ones(n - 1)))
    ensures Fails(Follow(r, ledger, q, Ones(n)))
  {
    FollowFirst(r, ledger, q, n, shown, next);
    ShowsMore(Follow(r, ledger, q, Ones(n)), shown, Follow(r, ledger, next, Ones(n - 1)));
  }

  lemma ShowsMore(w: Walk, first: seq<Entry>, more: Walk)
    requires w.shown == first + more.shown
    ensures ShowsUnreadable(more) ==> ShowsUnreadable(w)
  {
    if ShowsUnreadable(more) {
      var e :| e in more.shown && e.at.None?;
      assert e in w.shown;
    }
  }

  /** Reading on around an entry shows an unreadable row of the list, or gets no further. */
  lemma {:induction false} AroundLeak(
      r: Reader, ledger: seq<Entry>, q: Request, end: Option<int>, at: nat, list: seq<Entry>, k: nat, n: nat)
    requires Stored(r, ledger) && ReadsStamps(r) && Around(r, ledger, q, end, at) && list == UpTo(ledger[at..], end)
    requires k < n && k < |list| && list[k].at.None?
    ensures Fails(Follow(r, ledger, q, Ones(n)))
    decreases n, 0
  {
    hide Stored, UpTo, Follow, Answer;
    if k == 0 {
      ShowsFirst(r, ledger, q, end, at, list, n);
    } else {
      var cursor, next, rest := AroundStep(r, ledger, q, end, at, list);
      CursorLeak(r, ledger, cursor, end, next, rest, k - 1, n - 1);
      FailsLater(r, ledger, q, n, [list[0]], cursor);
    }
  }

  lemma {:induction false} CursorLeak(
      r: Reader, ledger: seq<Entry>, q: Request, end: Option<int>, at: nat, list: seq<Entry>, k: nat, n: nat)
    requires Stored(r, ledger) && ReadsStamps(r) && q.limit > 0
    requires Around(r, ledger, q, end, at) || Read(r, ledger, q) == Invalid
    requires at < |ledger| && list == UpTo(ledger[at..], end)
    requires k < n && k < |list| && list[k].at.None?
    ensures Fails(Follow(r, ledger, q, Ones(n)))
    decreases n, 1
  {
    if Read(r, ledger, q) == Invalid {
      StuckWhenInvalid(r, ledger, q, Ones(n));
    } else {
      AroundLeak(r, ledger, q, end, at, list, k, n);
    }
  }

  // --- Every leak is found ------------------------------------------------------------------------

  /** The m-th and the entry before are the first neighbours in the range with the same time. */
  ghost predicate TiesFirst(range: seq<Entry>, m: nat) {
    && 0 < m < |range| && range[m - 1].chronologicalAt == range[m].chronologicalAt
    && (forall i :: 0 <= i < m - 1 ==> range[i].chronologicalAt != range[i + 1].chronologicalAt)
  }

  /** The first two neighbours with the same time. */
  lemma FirstTie(range: seq<Entry>, b: nat) returns (m: nat)
    requires 0 < b < |range| && range[b - 1].chronologicalAt == range[b].chronologicalAt
    ensures 0 < m <= b && range[m - 1].chronologicalAt == range[m].chronologicalAt
    ensures forall i :: 0 <= i < m - 1 ==> range[i].chronologicalAt != range[i + 1].chronologicalAt
  {
    m := 1;
    while range[m - 1].chronologicalAt != range[m].chronologicalAt
      invariant 0 < m <= b
      invariant forall i :: 0 <= i < m - 1 ==> range[i].chronologicalAt != range[i + 1].chronologicalAt
      decreases b - m
    {
      m := m + 1;
    }
  }

  lemma PlaceInRange(ledger: seq<Entry>, start: Option<int>, end: Option<int>, i: nat) returns (p: nat)
    requires i < |ledger| && InRangeOf(ledger[i], start, end)
    ensures p < |Ranged(ledger, start, end)| && Ranged(ledger, start, end)[p] == ledger[i]
  {
    RangedMember(ledger, start, end, ledger[i]);
    p :| 0 <= p < |Ranged(ledger, start, end)| && Ranged(ledger, start, end)[p] == ledger[i];
  }

  /** Two entries with the same time have neighbours with the same time between them. */
  lemma TieBetween(range: seq<Entry>, a: nat, b: nat) returns (m: nat)
    requires Sorted(range) && a < |range| && b < |range| && Before(range[a], range[b])
    requires range[a].chronologicalAt == range[b].chronologicalAt
    ensures TiesFirst(range, m) && m <= b
  {
    EarlierIndex(range, a, b);
    assert Before(range[a], range[a + 1]);
    NotLater(range, a + 1, b);
    m := FirstTie(range, a + 1);
  }

  /** Two entries of the range with the same time have neighbours with the same time, no later. */
  lemma TieOfLeak(r: Reader, ledger: seq<Entry>, start: Option<int>, end: Option<int>, i: nat, j: nat) returns (m: nat)
    requires Stored(r, ledger) && i < j < |ledger| && ledger[i].chronologicalAt == ledger[j].chronologicalAt
    requires InRangeOf(ledger[i], start, end) && InRangeOf(ledger[j], start, end)
    ensures var range := Ranged(ledger, start, end); TiesFirst(range, m) && IndexOf(ledger, range[m].id) <= j
  {
    var range := Ranged(ledger, start, end);
    var a := PlaceInRange(ledger, start, end, i);
    var b := PlaceInRange(ledger, start, end, j);
    RangedOrderly(r, ledger, start, end);
    assert Before(ledger[i], ledger[j]);
    m := TieBetween(range, a, b);
    PlaceOf(r, ledger, start, end, m);
    NotLater(range, m, b);
    NotLaterIndex(ledger, IndexOf(ledger, range[m].id), j);
  }

  lemma NotLater(range: seq<Entry>, a: nat, b: nat)
    requires Sorted(range) && a <= b < |range|
    ensures range[a].chronologicalAt <= range[b].chronologicalAt && (a == b || Before(range[a], range[b]))
  {
  }

  lemma NotLaterIndex(ledger: seq<Entry>, i: nat, j: nat)
    requires Sorted(ledger) && i < |ledger| && j < |ledger|
    requires ledger[i] == ledger[j] || Before(ledger[i], ledger[j])
    ensures i <= j
  {
    if ledger[i] == ledger[j] {
      SameEntrySamePlace(ledger, i, j);
    } else {
      EarlierIndex(ledger, i, j);
    }
  }

  lemma FirstUnreadable(list: seq<Entry>, x: Entry) returns (k: nat)
    requires x in list && x.at.None?
    ensures k < |list| && list[k].at.None? && forall i :: 0 <= i < k ==> list[i].at.Some?
  {
    k := 0;
    while list[k].at.Some?
      invariant k < |list| && x in list[k..]
      invariant forall i :: 0 <= i < k ==> list[i].at.Some?
      decreases |list| - k
    {
      assert list[k..] == [list[k]] + list[k + 1..];
      k := k + 1;
    }
  }

  /** What of the list around an entry is in range is the rest of the range. */
  lemma ListIsRange(r: Reader, ledger: seq<Entry>, start: Option<int>, end: Option<int>, p: nat)
    requires Stored(r, ledger) && p < |Ranged(ledger, start, end)|
    ensures var range := Ranged(ledger, start, end);
      Ranged(UpTo(ledger[IndexOf(ledger, range[p].id)..], end), start, end) == range[p..]
  {
    var tail := ledger[IndexOf(ledger, Ranged(ledger, start, end)[p].id)..];
    forall n | 0 <= n < |tail| && InRangeOf(tail[n], start, end)
      ensures NotAfter(tail[n], end)
    {
      assert tail[n] in ledger;
    }
    KeptTwice((e: Entry) => InRangeOf(e, start, end), (e: Entry) => NotAfter(e, end), tail);
    TailOfRange(r, ledger, start, end, p);
  }

  /** A readable row of the list around an entry is in range. */
  lemma ListedIsInRange(r: Reader, ledger: seq<Entry>, start: Option<int>, end: Option<int>, at: nat, e: Entry)
    requires Stored(r, ledger) && at < |ledger| && InRangeOf(ledger[at], start, end)
    requires e in UpTo(ledger[at..], end) && e.at.Some?
    ensures InRangeOf(e, start, end)
  {
    KeptMember((x: Entry) => NotAfter(x, end), ledger[at..], e);
    var n :| 0 <= n < |ledger[at..]| && ledger[at..][n] == e;
    LaterIsInRange(r, ledger, start, end, at, at + n);
  }

  /** The readable rows in front of the first unreadable one are in the range. */
  lemma FewBefore(r: Reader, ledger: seq<Entry>, start: Option<int>, end: Option<int>, p: nat, k: nat)
    requires Stored(r, ledger) && p < |Ranged(ledger, start, end)|
    requires var list := UpTo(ledger[IndexOf(ledger, Ranged(ledger, start, end)[p].id)..], end);
      k <= |list| && forall i :: 0 <= i < k ==> list[i].at.Some?
    ensures k <= |Ranged(ledger, start, end)| - p
  {
    var at := IndexOf(ledger, Ranged(ledger, start, end)[p].id);
    PlaceOf(r, ledger, start, end, p);
    var list := UpTo(ledger[at..], end);
    forall i | 0 <= i < k
      ensures InRangeOf(list[i], start, end)
    {
      ListedIsInRange(r, ledger, start, end, at, list[i]);
    }
    ListIsRange(r, ledger, start, end, p);
    KeptAtLeast((e: Entry) => InRangeOf(e, start, end), list, k);
  }

  lemma LaterIsInRange(r: Reader, ledger: seq<Entry>, start: Option<int>, end: Option<int>, at: nat, n: nat)
    requires Stored(r, ledger) && at <= n < |ledger| && InRangeOf(ledger[at], start, end)
    requires ledger[n].at.Some? && NotAfter(ledger[n], end)
    ensures InRangeOf(ledger[n], start, end)
  {
    assert at < n ==> Before(ledger[at], ledger[n]);
  }

  lemma KeptAtLeast<T>(keep: T -> bool, s: seq<T>, k: nat)
    requires k <= |s| && forall i :: 0 <= i < k ==> keep(s[i])
    ensures |Kept(keep, s)| >= k
  {
    assert s == s[..k] + s[k..];
    KeptConcat(keep, s[..k], s[k..]);
    KeptAll(keep, s[..k]);
  }

  lemma OnesShow(r: Reader, ledger: seq<Entry>, q: Request, n: nat)
    requires q.limit > 0
    ensures EveryReplyShows(r, ledger, q, Ones(n))
  {
  }

  /** Among the rows from the tie on, an unreadable one comes soon. */
  lemma LeakInList(r: Reader, ledger: seq<Entry>, start: Option<int>, end: Option<int>, m: nat, k: nat)
    returns (first: nat)
    requires Stored(r, ledger) && m < |Ranged(ledger, start, end)|
    requires IndexOf(ledger, Ranged(ledger, start, end)[m].id) <= k < |ledger|
    requires ledger[k].at.None? && NotAfter(ledger[k], end)
    ensures var range := Ranged(ledger, start, end);
      var list := UpTo(ledger[IndexOf(ledger, range[m].id)..], end);
      first < |list| && list[first].at.None? && first <= |range| - m
  {
    var at := IndexOf(ledger, Ranged(ledger, start, end)[m].id);
    assert ledger[at..][k - at] == ledger[k];
    KeptMember((e: Entry) => NotAfter(e, end), ledger[at..], ledger[k]);
    first := FirstUnreadable(UpTo(ledger[at..], end), ledger[k]);
    FewBefore(r, ledger, start, end, m, first);
  }

  /** What a range selects can be read. */
  lemma NoForeignRow(r: Reader, ledger: seq<Entry>, start: Option<int>, end: Option<int>, w: Walk)
    requires Stored(r, ledger) && w.shown <= Ranged(ledger, start, end)
    ensures !ShowsUnreadable(w)
  {
    RangedOrderly(r, ledger, start, end);
    forall i | 0 <= i < |w.shown|
      ensures w.shown[i].at.Some?
    {
      assert w.shown[i] == Ranged(ledger, start, end)[i];
    }
  }

  /** From the first tie on, replies of one entry each come to the leak. */
  lemma LeakIsMet(
      r: Reader, ledger: seq<Entry>, q: Request, start: Option<int>, end: Option<int>, m: nat, at: nat, k: nat, n: nat)
    requires Stored(r, ledger) && ReadsStamps(r) && m < |Ranged(ledger, start, end)|
    requires at == IndexOf(ledger, Ranged(ledger, start, end)[m].id) && Around(r, ledger, q, end, at)
    requires at <= k < |ledger| && ledger[k].at.None? && NotAfter(ledger[k], end)
    requires n == |Ranged(ledger, start, end)| + 1 - m
    ensures Fails(Follow(r, ledger, q, Ones(n)))
  {
    var first := LeakInList(r, ledger, start, end, m, k);
    var list := UpTo(ledger[at..], end);
    AroundLeak(r, ledger, q, end, at, list, first, n);
  }

  lemma PhasesJoin(
      r: Reader, ledger: seq<Entry>, q: Request, shown: seq<Entry>, next: Request, m: nat, n: nat, total: nat)
    requires q.limit > 0 && Follow(r, ledger, q, Ones(m)) == Walk(shown, Some(next)) && next.limit > 0
    requires Fails(Follow(r, ledger, next, Ones(n))) && total == m + n
    ensures Fails(Follow(r, ledger, q, Ones(total)))
  {
    OnesSplit(m, n);
    FollowConcat(r, ledger, q, Ones(m), Ones(n));
    ShowsMore(Follow(r, ledger, q, Ones(total)), shown, Follow(r, ledger, next, Ones(n)));
  }

  lemma LeakIsMetFromStart(
      r: Reader, ledger: seq<Entry>, q: Request, start: Option<int>, end: Option<int>, m: nat, at: nat, k: nat)
    requires Stored(r, ledger) && ReadsStamps(r) && Resumes(r, ledger, q, start, end, 0) && q.around.None?
    requires var range := Ranged(ledger, start, end); TiesFirst(range, m) && at == IndexOf(ledger, range[m].id)
    requires at <= k < |ledger| && ledger[k].at.None? && NotAfter(ledger[k], end)
    ensures Fails(Follow(r, ledger, q, Ones(|Ranged(ledger, start, end)| + 1)))
  {
    hide Stored, Ranged, UpTo, Follow, Answer, Read;
    var size := |Ranged(ledger, start, end)|;
    var next := TimePhase(r, ledger, q, start, end, 0, m, m);
    LeakIsMet(r, ledger, next, start, end, m, at, k, size + 1 - m);
    var shown := Follow(r, ledger, q, Ones(m)).shown;
    PhasesJoin(r, ledger, q, shown, next, m, size + 1 - m, size + 1);
  }

  lemma LeakFails(r: Reader, ledger: seq<Entry>, q: Request, start: Option<int>, end: Option<int>)
    requires Stored(r, ledger) && ReadsStamps(r) && Resumes(r, ledger, q, start, end, 0) && q.around.None?
    requires Leaky(ledger, start, end)
    ensures Fails(Follow(r, ledger, q, Ones(|Ranged(ledger, start, end)| + 1)))
  {
    var i, j, k :| Leak(ledger, start, end, i, j, k);
    var m := TieOfLeak(r, ledger, start, end, i, j);
    LeakIsMetFromStart(r, ledger, q, start, end, m, IndexOf(ledger, Ranged(ledger, start, end)[m].id), k);
  }

  lemma NotReadByOnes(r: Reader, ledger: seq<Entry>, q: Request)
    requires Stored(r, ledger) && RangeRequest(r, q)
    requires Fails(Follow(r, ledger, q, Ones(|RangeOf(r, ledger, q)| + 1)))
    ensures !ReadsTheRange(r, ledger, q, Ones(|RangeOf(r, ledger, q)| + 1))
  {
    var script := Ones(|RangeOf(r, ledger, q)| + 1);
    OnesShow(r, ledger, q, |RangeOf(r, ledger, q)| + 1);
    var w := Follow(r, ledger, q, script);
    if w.shown <= RangeOf(r, ledger, q) {
      NoForeignRow(r, ledger, Bound(r.earliest, q.from_), Bound(r.latest, q.to), w);
    }
  }

  /** On a ledger that leaks, replies of one entry each do not read the range. */
  lemma LeakBreaks(r: Reader, ledger: seq<Entry>, q: Request)
    requires Stored(r, ledger) && ReadsStamps(r) && RangeRequest(r, q) && LeakyFor(r, ledger, q)
    ensures !ReadsTheRange(r, ledger, q, Ones(|RangeOf(r, ledger, q)| + 1))
  {
    StartResumes(r, ledger, q);
    LeakFails(r, ledger, q, Bound(r.earliest, q.from_), Bound(r.latest, q.to));
    NotReadByOnes(r, ledger, q);
  }

  /**
   Main result: over all ledgers as rows give them and all range requests, every walk reads the
   range if and only if no row with an unreadable time stands, up to the end of the range, after an
   entry that has the same time as an earlier one.
   */
  lemma CompleteExactlyWhenTight(local: int -> Option<int>, ledger: seq<Entry>, q: Request)
    requires Sorted(ledger) && RangeRequest(TimeReader(local), q)
    requires forall i :: 0 <= i < |ledger| ==> Made(local, ledger[i])
    ensures (forall script :: ReadsTheRange(TimeReader(local), ledger, q, script))
       <==> !LeakyFor(TimeReader(local), ledger, q)
  {
    var r := TimeReader(local);
    MadeIsStored(local, ledger);
    TimeReaderReadsStamps(local);
    if LeakyFor(r, ledger, q) {
      LeakBreaks(r, ledger, q);
    } else {
      forall script
        ensures ReadsTheRange(r, ledger, q, script)
      {
        PagingIsComplete(r, ledger, q, script);
      }
    }
  }

  lemma MadeIsStored(local: int -> Option<int>, ledger: seq<Entry>)
    requires Sorted(ledger) && forall i :: 0 <= i < |ledger| ==> Made(local, ledger[i])
    ensures Stored(TimeReader(local), ledger)
  {
    forall i | 0 <= i < |ledger|
      ensures Readable(TimeReader(local), ledger[i]) || Unreadable(ledger[i])
    {
      MadeIsReadable(ledger[i], local);
    }
  }

  /** Two messages of one moment and then a row that cannot be read, stored a millisecond later. */
  lemma UnreadableRowLeaks(local: int -> Option<int>) returns (ledger: seq<Entry>, q: Request)
    ensures Sorted(ledger) && (forall i :: 0 <= i < |ledger| ==> Made(local, ledger[i]))
    ensures |ledger| == 3 && ledger[2].at.None? && RangeRequest(TimeReader(local), q)
    ensures exists script :: !ReadsTheRange(TimeReader(local), ledger, q, script)
  {
    var a, b := Entry("a", Stamp(0), Some(0), 0, 0), Entry("b", Stamp(0), Some(0), 0, 1);
    ledger := [a, b, Entry("x", "invalid time", None, 1000, 2)];
    NumericIsReadable(a, 0, local);
    NumericIsReadable(b, 0, local);
    assert Leak(ledger, Some(0), None, 0, 1, 2);
    MadeIsStored(local, ledger);
    q := LeakySince(local, ledger, Stamp(0), 0);
  }

  lemma LeakySince(local: int -> Option<int>, ledger: seq<Entry>, text: string, t: int) returns (q: Request)
    requires Stored(TimeReader(local), ledger) && TimeReader(local).earliest(text) == Some(t)
    requires Leaky(ledger, Some(t), None)
    ensures RangeRequest(TimeReader(local), q) && exists script :: !ReadsTheRange(TimeReader(local), ledger, q, script)
  {
    q := Request(None, Some(text), None, 20);
    TimeReaderReadsStamps(local);
    LeakBreaks(TimeReader(local), ledger, q);
  }

  // --- Which walks end -------------------------------------------------------------------------------

  /** The first n replies of a plan without end. */
  function Prefix(plan: nat -> Choice, n: nat): seq<Choice> {
    seq(n, (i: nat) => plan(i))
  }

  function WalkOf(r: Reader, ledger: seq<Entry>, q: Request, plan: nat -> Choice, n: nat): (w: Walk)
    requires q.limit > 0
    ensures w.rest.Some? ==> w.rest.value.limit > 0
  {
    Follow(r, ledger, q, Prefix(plan, n))
  }

  ghost predicate ShowsLater(plan: nat -> Choice, n: nat) {
    exists i: nat :: i >= n && plan(i).shown > 0
  }

  lemma PlanStep(r: Reader, ledger: seq<Entry>, q: Request, plan: nat -> Choice, n: nat)
    requires q.limit > 0
    ensures var w := WalkOf(r, ledger, q, plan, n);
      if w.rest.None? then WalkOf(r, ledger, q, plan, n + 1) == w
      else
        var more := Answer(r, ledger, w.rest.value, plan(n));
        WalkOf(r, ledger, q, plan, n + 1) == Walk(w.shown + more.shown, more.rest)
  {
    assert Prefix(plan, n + 1) == Prefix(plan, n) + [plan(n)];
    FollowConcat(r, ledger, q, Prefix(plan, n), [plan(n)]);
    var w := WalkOf(r, ledger, q, plan, n);
    if w.rest.Some? {
      FollowOne(r, ledger, w.rest.value, plan(n));
    }
  }

  /** While something is left, a reply moves the walk on exactly when it shows an entry. */
  lemma ReplyMovesOn(r: Reader, ledger: seq<Entry>, q: Request, plan: nat -> Choice, n: nat)
    requires Stored(r, ledger) && RangeRequest(r, q) && !LeakyFor(r, ledger, q) && RangeOf(r, ledger, q) != []
    requires WalkOf(r, ledger, q, plan, n).rest.Some?
    ensures var w, next := WalkOf(r, ledger, q, plan, n), WalkOf(r, ledger, q, plan, n + 1);
      && |w.shown| < |RangeOf(r, ledger, q)|
      && (plan(n).shown > 0 ==> |next.shown| > |w.shown|)
      && (plan(n).shown == 0 ==> next.shown == w.shown && next.rest.Some?)
  {
    var start, end := Bound(r.earliest, q.from_), Bound(r.latest, q.to);
    var w := WalkOf(r, ledger, q, plan, n);
    PlanStep(r, ledger, q, plan, n);
    StartResumes(r, ledger, q);
    var at := FollowFrom(r, ledger, q, start, end, Prefix(plan, n), 0);
    var to := AnswerFrom(r, ledger, w.rest.value, start, end, plan(n), at);
    if n > 0 {
      SomethingIsLeft(r, ledger, q, Prefix(plan, n));
    }
  }

  lemma {:induction false} GoesNowhere(r: Reader, ledger: seq<Entry>, q: Request, plan: nat -> Choice, n: nat, m: nat)
    requires Stored(r, ledger) && RangeRequest(r, q) && !LeakyFor(r, ledger, q) && RangeOf(r, ledger, q) != []
    requires WalkOf(r, ledger, q, plan, n).rest.Some? && !ShowsLater(plan, n) && n <= m
    ensures WalkOf(r, ledger, q, plan, m).rest.Some?
  {
    if n < m {
      GoesNowhere(r, ledger, q, plan, n, m - 1);
      ReplyMovesOn(r, ledger, q, plan, m - 1);
    }
  }

  lemma {:induction false} StaysEnded(r: Reader, ledger: seq<Entry>, q: Request, plan: nat -> Choice, n: nat, m: nat)
    requires q.limit > 0 && WalkOf(r, ledger, q, plan, n).rest.None? && n <= m
    ensures WalkOf(r, ledger, q, plan, m).rest.None?
  {
    if n < m {
      StaysEnded(r, ledger, q, plan, n, m - 1);
      PlanStep(r, ledger, q, plan, m - 1);
    }
  }

  lemma {:induction false} ShownGrows(r: Reader, ledger: seq<Entry>, q: Request, plan: nat -> Choice, n: nat, m: nat)
    requires q.limit > 0 && n <= m
    ensures |WalkOf(r, ledger, q, plan, n).shown| <= |WalkOf(r, ledger, q, plan, m).shown|
  {
    if n < m {
      ShownGrows(r, ledger, q, plan, n, m - 1);
      PlanStep(r, ledger, q, plan, m - 1);
    }
  }

  lemma {:induction false} EndIsReached(r: Reader, ledger: seq<Entry>, q: Request, plan: nat -> Choice, n: nat)
    returns (end: nat)
    requires Stored(r, ledger) && RangeRequest(r, q) && !LeakyFor(r, ledger, q) && RangeOf(r, ledger, q) != []
    requires forall m: nat :: WalkOf(r, ledger, q, plan, m).rest.None? || ShowsLater(plan, m)
    requires |WalkOf(r, ledger, q, plan, n).shown| <= |RangeOf(r, ledger, q)|
    ensures WalkOf(r, ledger, q, plan, end).rest.None?
    decreases |RangeOf(r, ledger, q)| - |WalkOf(r, ledger, q, plan, n).shown|
  {
    if WalkOf(r, ledger, q, plan, n).rest.None? {
      return n;
    }
    var i: nat :| i >= n && plan(i).shown > 0;
    if WalkOf(r, ledger, q, plan, i).rest.None? {
      return i;
    }
    ShownGrows(r, ledger, q, plan, n, i);
    ReplyMovesOn(r, ledger, q, plan, i);
    ShowsAPrefix(r, ledger, q, Prefix(plan, i + 1));
    end := EndIsReached(r, ledger, q, plan, i + 1);
  }

  /**
   Following the cursors comes to an end exactly when, for as long as something is left, some later
   reply shows an entry.
   */
  lemma EndsExactlyWhenShowing(r: Reader, ledger: seq<Entry>, q: Request, plan: nat -> Choice)
    requires Stored(r, ledger) && RangeRequest(r, q) && !LeakyFor(r, ledger, q) && RangeOf(r, ledger, q) != []
    ensures (exists n: nat :: WalkOf(r, ledger, q, plan, n).rest.None?)
       <==> (forall n: nat :: WalkOf(r, ledger, q, plan, n).rest.None? || ShowsLater(plan, n))
  {
    if exists n: nat :: WalkOf(r, ledger, q, plan, n).rest.None? {
      var end: nat :| WalkOf(r, ledger, q, plan, end).rest.None?;
      forall n: nat
        ensures WalkOf(r, ledger, q, plan, n).rest.None? || ShowsLater(plan, n)
      {
        if end <= n {
          StaysEnded(r, ledger, q, plan, end, n);
        } else if WalkOf(r, ledger, q, plan, n).rest.Some? && !ShowsLater(plan, n) {
          GoesNowhere(r, ledger, q, plan, n, end);
        }
      }
    } else if forall n: nat :: WalkOf(r, ledger, q, plan, n).rest.None? || ShowsLater(plan, n) {
      var end := EndIsReached(r, ledger, q, plan, 0);
    }
  }
}
