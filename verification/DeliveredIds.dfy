/**
 The message ids a session has been given, most recent last, at most 500 of them.
 */
module DeliveredIds {
  import opened Common

  const DELIVERED_MAX := 500

  predicate Distinct(m: seq<string>) {
    forall i, j :: 0 <= i < j < |m| ==> m[i] != m[j]
  }

  function Drop(m: seq<string>, id: string): seq<string> {
    if m == [] then []
    else if Last(m) == id then Drop(m[..|m| - 1], id)
    else Drop(m[..|m| - 1], id) + [Last(m)]
  }

  function MoveToEnd(m: seq<string>, id: string): seq<string> {
    if id == "" then m else Drop(m, id) + [id]
  }

  function MoveAll(m: seq<string>, ids: seq<string>): seq<string> {
    if ids == [] then m else MoveToEnd(MoveAll(m, ids[..|ids| - 1]), Last(ids))
  }

  function Newest(m: seq<string>, n: nat): seq<string> {
    if |m| <= n then m else m[|m| - n..]
  }

  function Remember(m: seq<string>, ids: seq<string>): seq<string> {
    Newest(MoveAll(m, ids), DELIVERED_MAX)
  }

  // --- Moving an id ---------------------------------------------------------------------------

  lemma {:induction false} DropMembers(m: seq<string>, id: string)
    ensures forall x :: x in Drop(m, id) <==> x in m && x != id
    ensures |Drop(m, id)| <= |m|
  {
    if m != [] {
      DropMembers(m[..|m| - 1], id);
      assert m == m[..|m| - 1] + [Last(m)];
    }
  }

  lemma {:induction false} DropAbsent(m: seq<string>, id: string)
    requires id !in m
    ensures Drop(m, id) == m
  {
    if m != [] {
      assert m == m[..|m| - 1] + [Last(m)];
      DropAbsent(m[..|m| - 1], id);
    }
  }

  lemma DistinctSnoc(m: seq<string>, id: string)
    requires Distinct(m) && id !in m
    ensures Distinct(m + [id])
  {
  }

  lemma {:induction false} DropDistinct(m: seq<string>, id: string)
    requires Distinct(m)
    ensures Distinct(Drop(m, id)) && |Drop(m, id)| >= |m| - 1
  {
    if m != [] {
      var before := m[..|m| - 1];
      DropDistinct(before, id);
      DropMembers(before, id);
      assert forall x :: x in before ==> x != Last(m);
      if Last(m) == id {
        DropAbsent(before, id);
      } else {
        DistinctSnoc(Drop(before, id), Last(m));
      }
    }
  }

  lemma {:induction false} DropConcat(a: seq<string>, b: seq<string>, id: string)
    ensures Drop(a + b, id) == Drop(a, id) + Drop(b, id)
  {
    if b == [] {
      assert a + b == a;
    } else {
      DropConcat(a, b[..|b| - 1], id);
      assert (a + b)[..|a + b| - 1] == a + b[..|b| - 1] && Last(a + b) == Last(b);
    }
  }

  lemma MoveDistinct(m: seq<string>, id: string)
    requires Distinct(m)
    ensures Distinct(MoveToEnd(m, id))
  {
    DropDistinct(m, id);
    DropMembers(m, id);
    DistinctSnoc(Drop(m, id), id);
  }

  lemma {:induction false} MoveAllDistinct(m: seq<string>, ids: seq<string>)
    requires Distinct(m)
    ensures Distinct(MoveAll(m, ids))
  {
    if ids != [] {
      MoveAllDistinct(m, ids[..|ids| - 1]);
      MoveDistinct(MoveAll(m, ids[..|ids| - 1]), Last(ids));
    }
  }

  lemma {:induction false} MoveAllConcat(m: seq<string>, a: seq<string>, b: seq<string>)
    ensures MoveAll(m, a + b) == MoveAll(MoveAll(m, a), b)
  {
    if b == [] {
      assert a + b == a;
    } else {
      MoveAllConcat(m, a, b[..|b| - 1]);
      assert (a + b)[..|a + b| - 1] == a + b[..|b| - 1] && Last(a + b) == Last(b);
    }
  }

  // --- Trimming early or late is the same ----------------------------------------------------------

  lemma NewestOfConcat(p: seq<string>, q: seq<string>, n: nat)
    requires |q| >= n
    ensures Newest(p + q, n) == Newest(q, n)
  {
  }

  lemma TrimBeforeMove(m: seq<string>, id: string, n: nat)
    requires Distinct(m)
    ensures Newest(MoveToEnd(Newest(m, n), id), n) == Newest(MoveToEnd(m, id), n)
  {
    if |m| > n {
      var a, b := m[..|m| - n], m[|m| - n..];
      assert m == a + b;
      if id == "" {
        NewestOfConcat(a, b, n);
      } else {
        DropConcat(a, b, id);
        DropDistinct(b, id);
        assert Drop(a, id) + Drop(b, id) + [id] == Drop(a, id) + (Drop(b, id) + [id]);
        NewestOfConcat(Drop(a, id), Drop(b, id) + [id], n);
      }
    }
  }

  lemma {:induction false} TrimBeforeMoves(m: seq<string>, ids: seq<string>, n: nat)
    requires Distinct(m)
    ensures Newest(MoveAll(Newest(m, n), ids), n) == Newest(MoveAll(m, ids), n)
  {
    var trimmed := Newest(m, n);
    if ids == [] {
    } else {
      var before, id := ids[..|ids| - 1], Last(ids);
      TrimBeforeMoves(m, before, n);
      MoveAllDistinct(m, before);
      MoveAllDistinct(trimmed, before);
      TrimBeforeMove(MoveAll(trimmed, before), id, n);
      TrimBeforeMove(MoveAll(m, before), id, n);
    }
  }

  lemma RememberTwice(m: seq<string>, a: seq<string>, b: seq<string>)
    requires Distinct(m)
    ensures Remember(Remember(m, a), b) == Remember(m, a + b)
  {
    MoveAllDistinct(m, a);
    TrimBeforeMoves(MoveAll(m, a), b, DELIVERED_MAX);
    MoveAllConcat(m, a, b);
  }

  // --- Which ids are remembered ----------------------------------------------------------------------

  /** The ids given from position i on. */
  function IdsFrom(ids: seq<string>, i: nat): set<string>
    requires i <= |ids|
  {
    set k | i <= k < |ids| && ids[k] != "" :: ids[k]
  }

  ghost predicate SameMembers(m: seq<string>, s: set<string>) {
    forall x :: x in m <==> x in s
  }

  lemma {:induction false} DistinctSize(m: seq<string>, s: set<string>)
    requires Distinct(m) && SameMembers(m, s)
    ensures |m| == |s|
  {
    if m == [] {
      assert s == {};
    } else {
      var before := m[..|m| - 1];
      assert m == before + [Last(m)];
      assert forall x :: x in before ==> x != Last(m);
      DistinctSize(before, s - {Last(m)});
      assert s == (s - {Last(m)}) + {Last(m)};
    }
  }

  /** The ids given from position i on stand at the end, the one at i first if it did not come again. */
  lemma {:induction false} TailHasIdsFrom(ids: seq<string>, i: nat) returns (a: seq<string>, b: seq<string>)
    requires i < |ids| && ids[i] != ""
    ensures MoveAll([], ids) == a + b && SameMembers(b, IdsFrom(ids, i))
    ensures (forall k :: i < k < |ids| ==> ids[k] != ids[i]) ==> b != [] && b[0] == ids[i]
  {
    var n := |ids| - 1;
    var before, id := ids[..n], ids[n];
    assert ids == before + [id];
    if i == n {
      a, b := Drop(MoveAll([], before), id), [id];
    } else {
      a, b := TailHasIdsFrom(before, i);
      IdsFromSnoc(before, id, i);
      if id != "" {
        DropConcat(a, b, id);
        DropMembers(b, id);
        if b != [] && b[0] != id {
          DropKeepsFirst(b, id);
        }
        assert Drop(a, id) + Drop(b, id) + [id] == Drop(a, id) + (Drop(b, id) + [id]);
        a, b := Drop(a, id), Drop(b, id) + [id];
      }
    }
  }

  lemma IdsFromSnoc(before: seq<string>, id: string, i: nat)
    requires i <= |before|
    ensures IdsFrom(before + [id], i) == IdsFrom(before, i) + (if id == "" then {} else {id})
  {
    var ids := before + [id];
    forall x | x in IdsFrom(before, i)
      ensures x in IdsFrom(ids, i)
    {
      var k :| i <= k < |before| && before[k] != "" && before[k] == x;
      assert ids[k] == x;
    }
    if id != "" {
      assert ids[|before|] == id;
    }
  }

  lemma {:induction false} DropKeepsFirst(m: seq<string>, id: string)
    requires m != [] && m[0] != id
    ensures Drop(m, id) != [] && Drop(m, id)[0] == m[0]
  {
    if |m| > 1 {
      DropKeepsFirst(m[..|m| - 1], id);
    }
  }

  /** The id was given at i, and at most so many different ids were given since, it included. */
  predicate GivenLately(ids: seq<string>, id: string, n: nat) {
    exists i :: 0 <= i < |ids| && LateAt(ids, id, i, n)
  }

  predicate LateAt(ids: seq<string>, id: string, i: nat, n: nat)
    requires i < |ids|
  {
    ids[i] == id && |IdsFrom(ids, i)| <= n
  }

  lemma {:induction false} OnlyGivenIdsMove(ids: seq<string>, id: string)
    ensures id in MoveAll([], ids) ==> id in ids && id != ""
  {
    if ids != [] {
      OnlyGivenIdsMove(ids[..|ids| - 1], id);
      DropMembers(MoveAll([], ids[..|ids| - 1]), Last(ids));
    }
  }

  lemma {:induction false} LastOccurrence(ids: seq<string>, id: string) returns (i: nat)
    requires id in ids
    ensures i < |ids| && ids[i] == id && forall k :: i < k < |ids| ==> ids[k] != id
  {
    if Last(ids) == id {
      i := |ids| - 1;
    } else {
      assert ids == ids[..|ids| - 1] + [Last(ids)];
      i := LastOccurrence(ids[..|ids| - 1], id);
    }
  }

  lemma InNewest(m: seq<string>, a: seq<string>, b: seq<string>, n: nat, id: string)
    requires Distinct(m) && m == a + b && id in b
    ensures |b| <= n ==> id in Newest(m, n)
    ensures |b| > n && b[0] == id ==> id !in Newest(m, n)
  {
    var k :| 0 <= k < |b| && b[k] == id;
    if |b| <= n && |m| > n {
      assert Newest(m, n)[|a| + k - (|m| - n)] == id;
    }
    assert |b| <= n && |m| <= n ==> m[|a| + k] == id;
    if |b| > n && b[0] == id {
      assert m[|a|] == id;
    }
  }

  /**
   An id is remembered exactly when it was given and, from its last time on, no more than 500
   different ids were given.
   */
  lemma RememberedExactlyWhenLate(ids: seq<string>, id: string, n: nat)
    requires id != ""
    ensures id in Newest(MoveAll([], ids), n) <==> GivenLately(ids, id, n)
  {
    var m := MoveAll([], ids);
    MoveAllDistinct([], ids);
    if id in ids {
      var i := LastOccurrence(ids, id);
      var a, b := TailHasIdsFrom(ids, i);
      TailSize(m, a, b, IdsFrom(ids, i));
      assert id in IdsFrom(ids, i);
      InNewest(m, a, b, n, id);
      if GivenLately(ids, id, n) {
        var j :| 0 <= j < |ids| && LateAt(ids, id, j, n);
        FewerFromLater(ids, j, i);
      }
      assert |b| <= n ==> LateAt(ids, id, i, n);
    } else {
      OnlyGivenIdsMove(ids, id);
    }
  }

  lemma TailSize(m: seq<string>, a: seq<string>, b: seq<string>, s: set<string>)
    requires Distinct(m) && m == a + b && SameMembers(b, s)
    ensures |b| == |s|
  {
    forall i, j | 0 <= i < j < |b|
      ensures b[i] != b[j]
    {
      assert m[|a| + i] == b[i] && m[|a| + j] == b[j];
    }
    DistinctSize(b, s);
  }

  lemma FewerFromLater(ids: seq<string>, j: nat, i: nat)
    requires j <= i < |ids|
    ensures |IdsFrom(ids, i)| <= |IdsFrom(ids, j)|
  {
    var all, later := IdsFrom(ids, j), IdsFrom(ids, i);
    assert later <= all;
    assert all == later + (all - later);
  }
}
