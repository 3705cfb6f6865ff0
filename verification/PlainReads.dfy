/**
 The single read: which entries a reply shows without a range and around an id, and which reads are
 refused.
 */
module PlainReads {
  import opened Common
  import opened Timestamps
  import opened HistoryPaging

  // --- The newest entries ---------------------------------------------------------------------------

  /** A read without arguments shows the newest entries: as many as it asked for, or all of them. */
  lemma NewestAreShown(r: Reader, ledger: seq<Entry>, q: Request)
    requires Sorted(ledger) && ledger != []
    requires q.limit > 0 && q.around == None && q.from_ == None && q.to == None
    ensures var page := Read(r, ledger, q);
      && page.Page? && page.next == None && !page.continuation
      && |page.entries| == Min(q.limit, |ledger|) && Sorted(page.entries)
      && (forall shown <- page.entries :: shown in ledger)
      && (forall older <- ledger | older !in page.entries :: forall shown <- page.entries :: Before(older, shown))
  {
    var page := Read(r, ledger, q);
    var p := |ledger| - |page.entries|;
    assert page.entries == ledger[p..];
    forall older | older in ledger && older !in page.entries
      ensures forall shown <- page.entries :: Before(older, shown)
    {
      LeftOfTail(ledger, p, older);
    }
  }

  lemma LeftOfTail(ledger: seq<Entry>, p: nat, older: Entry)
    requires Sorted(ledger) && p <= |ledger| && older in ledger && older !in ledger[p..]
    ensures forall shown <- ledger[p..] :: Before(older, shown)
  {
    assert ledger == ledger[..p] + ledger[p..];
    assert older in ledger[..p];
    var i :| 0 <= i < p && ledger[i] == older;
    forall shown | shown in ledger[p..]
      ensures Before(ledger[i], shown)
    {
      var j :| p <= j < |ledger| && ledger[j] == shown;
    }
  }

  lemma NothingToShow(r: Reader, q: Request)
    requires q.limit > 0
    ensures Read(r, [], q) == if BoundsReadable(r, q) && q.around == None then NothingThere else Invalid
  {
    assert Ranged([], Bound(r.earliest, q.from_), Bound(r.latest, q.to)) == [];
  }

  // --- Around an id ------------------------------------------------------------------------------------

  lemma {:induction false} IndexOfId(ledger: seq<Entry>, id: string)
    ensures IndexOf(ledger, id) < |ledger| <==> exists e :: e in ledger && e.id == id
  {
    if ledger != [] && ledger[0].id != id {
      IndexOfId(ledger[1..], id);
      assert ledger == [ledger[0]] + ledger[1..];
    } else if ledger != [] {
      assert ledger[0] in ledger;
    }
  }

  /** A read is refused if and only if a bound is no time or the named entry is not there. */
  lemma RefusedExactlyWhen(r: Reader, ledger: seq<Entry>, q: Request)
    requires q.limit > 0
    ensures Read(r, ledger, q) == Invalid
      <==> || (exists text :: q.from_ == Some(text) && r.earliest(text) == None)
           || (exists text :: q.to == Some(text) && r.latest(text) == None)
           || (exists id :: q.around == Some(id) && forall e <- ledger :: e.id != id)
  {
    if q.around.Some? {
      IndexOfId(ledger, q.around.value);
    }
  }

  /**
   A read around an entry, from another time than its own, shows a run of consecutive entries with
   the named one in it: as many before it as after it, or one more after it, unless the ledger ends
   first.
   */
  lemma AroundIsCentred(r: Reader, ledger: seq<Entry>, q: Request, at: nat) returns (offset: nat)
    requires Sorted(ledger) && at < |ledger| && q.around == Some(ledger[at].id)
    requires q.limit > 0 && BoundsReadable(r, q) && Bound(r.earliest, q.from_) != Some(ledger[at].chronologicalAt)
    ensures var page := Read(r, ledger, q);
      && page.Page? && page.next == None && !page.continuation
      && |page.entries| == Min(q.limit, |ledger|)
      && offset <= at < offset + |page.entries| <= |ledger|
      && page.entries == ledger[offset..offset + |page.entries|]
      && var before, after := at - offset, offset + |page.entries| - 1 - at;
        && (offset > 0 ==> before >= after - 1)
        && (offset + |page.entries| < |ledger| ==> before <= after)
  {
    hide Sorted, Window;
    FoundThere(ledger, at);
    offset := WindowIsCentred(ledger, at, q.limit);
  }

  lemma FoundThere(ledger: seq<Entry>, at: nat)
    requires Sorted(ledger) && at < |ledger|
    ensures IndexOf(ledger, ledger[at].id) == at
  {
    IndexOfMember(ledger, ledger[at]);
    SameEntrySamePlace(ledger, at, IndexOf(ledger, ledger[at].id));
  }

  lemma WindowIsCentred(ledger: seq<Entry>, at: nat, cap: nat) returns (offset: nat)
    requires at < |ledger| && cap > 0
    ensures var run := Window(ledger, at, cap);
      && |run| == Min(cap, |ledger|) && offset <= at < offset + |run| <= |ledger|
      && run == ledger[offset..offset + |run|]
      && var before, after := at - offset, offset + |run| - 1 - at;
        && (offset > 0 ==> before >= after - 1)
        && (offset + |run| < |ledger| ==> before <= after)
  {
    offset := Max(0, Min(at - (cap - 1) / 2, |ledger| - cap));
    assert Window(ledger, at, cap) == ledger[offset..offset + Min(cap, |ledger|)];
  }

  /** From an entry's own time on, a read shows the list from that entry to the end bound. */
  lemma OwnTimeGoesOn(r: Reader, ledger: seq<Entry>, q: Request, at: nat) returns (last: nat)
    requires Sorted(ledger) && at < |ledger| && q.around == Some(ledger[at].id)
    requires q.limit > 0 && BoundsReadable(r, q) && Bound(r.earliest, q.from_) == Some(ledger[at].chronologicalAt)
    ensures at <= last <= |ledger|
    ensures forall i :: at <= i < last ==> NotAfter(ledger[i], Bound(r.latest, q.to))
    ensures last < |ledger| ==> !NotAfter(ledger[last], Bound(r.latest, q.to))
    ensures var page, n := Read(r, ledger, q), Min(q.limit, last - at);
      if at == last then page == NothingThere
      else page == Page(ledger[at..at + n], if at + n < last then Some(ledger[at + n]) else None, true)
  {
    hide Sorted, PageOf, IndexOf, UpTo;
    FoundThere(ledger, at);
    last := EndOf(ledger, Bound(r.latest, q.to), at);
    CutHead(ledger, at, last, q.limit);
  }

  /** The list from an entry to an end bound is a run of the ledger. */
  lemma EndOf(ledger: seq<Entry>, end: Option<int>, at: nat) returns (last: nat)
    requires Sorted(ledger) && at < |ledger|
    ensures at <= last <= |ledger| && UpTo(ledger[at..], end) == ledger[at..last]
    ensures forall i :: at <= i < last ==> NotAfter(ledger[i], end)
    ensures last < |ledger| ==> !NotAfter(ledger[last], end)
  {
    last := at;
    while last < |ledger| && NotAfter(ledger[last], end)
      invariant at <= last <= |ledger|
      invariant forall i :: at <= i < last ==> NotAfter(ledger[i], end)
    {
      last := last + 1;
    }
    LaterIsAfter(ledger, end, last);
    var head, tail := ledger[at..last], ledger[last..];
    assert ledger[at..] == head + tail;
    KeptHeadOnly((e: Entry) => NotAfter(e, end), head, tail);
  }

  lemma LaterIsAfter(ledger: seq<Entry>, end: Option<int>, last: nat)
    requires Sorted(ledger) && last <= |ledger|
    requires last < |ledger| ==> !NotAfter(ledger[last], end)
    ensures forall e <- ledger[last..] :: !NotAfter(e, end)
  {
    forall e | e in ledger[last..]
      ensures !NotAfter(e, end)
    {
      var i :| last <= i < |ledger| && ledger[i] == e;
      assert i > last ==> Before(ledger[last], e);
    }
  }

  lemma KeptHeadOnly<T>(keep: T -> bool, head: seq<T>, tail: seq<T>)
    requires forall i :: 0 <= i < |head| ==> keep(head[i])
    requires forall x <- tail :: !keep(x)
    ensures Kept(keep, head + tail) == head
  {
    KeptConcat(keep, head, tail);
    KeptAll(keep, head);
    KeptNone(keep, tail);
  }

  lemma CutHead(ledger: seq<Entry>, at: nat, last: nat, limit: nat)
    requires at <= last <= |ledger| && limit > 0
    ensures var n := Min(limit, last - at);
      PageOf(Take(ledger[at..last], limit + 1), limit, true)
      == if at == last then NothingThere
         else Page(ledger[at..at + n], if at + n < last then Some(ledger[at + n]) else None, true)
  {
    var list := ledger[at..last];
    var found := Take(list, limit + 1);
    if limit < |list| {
      assert found == ledger[at..at + limit + 1];
      assert found[limit] == ledger[at + limit];
      assert Take(found, limit) == ledger[at..at + limit];
    } else {
      assert found == list && Take(found, limit) == list;
    }
  }
}
