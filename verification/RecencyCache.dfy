/**
 A dictionary in recency order that drops its oldest entries beyond a bound. Entries carry a
 value that never falls from one mark to the next, and count while it is at least a floor
 that only rises. The cache answers as the full log would exactly while the keys that count
 fit the bound.
 */
module RecencyCache {
  import opened Common

  datatype Entry<K> = Entry(key: K, value: int)

  type Cache<K> = seq<Entry<K>>

  predicate Has<K(==)>(c: Cache<K>, k: K) {
    exists i :: 0 <= i < |c| && c[i].key == k
  }

  function Get<K(==)>(c: Cache<K>, k: K): Option<int> {
    if c == [] then None
    else if Last(c).key == k then Some(Last(c).value)
    else Get(c[..|c| - 1], k)
  }

  function Without<K(==)>(c: Cache<K>, k: K): Cache<K> {
    if c == [] then []
    else if Last(c).key == k then Without(c[..|c| - 1], k)
    else Without(c[..|c| - 1], k) + [Last(c)]
  }

  /** The last entries, at most this many. */
  function Newest<K>(c: Cache<K>, max: nat): Cache<K> {
    if |c| <= max then c else c[|c| - max..]
  }

  /** The entry of a key moved to the end with a new value, and the oldest entries dropped. */
  function Touched<K(==)>(c: Cache<K>, k: K, value: int, max: nat): Cache<K> {
    Newest(Without(c, k) + [Entry(k, value)], max)
  }

  function WithoutStale<K(==)>(c: Cache<K>, k: K, floor: int): Cache<K> {
    match Get(c, k)
    case None => c
    case Some(value) => if value < floor then Without(c, k) else c
  }

  /** Every event says from which value on entries count at its time. */
  datatype Event<K> =
    | Mark(key: K, value: int, floor: int)
    | Clear(key: K, floor: int)
    | Query(key: K, floor: int)
    | Other(floor: int)

  function Apply<K(==)>(c: Cache<K>, e: Event<K>, max: nat): Cache<K> {
    match e
    case Mark(key, value, _) => Touched(c, key, value, max)
    case Clear(key, _) => Without(c, key)
    case Query(key, floor) => WithoutStale(c, key, floor)
    case Other(_) => c
  }

  function After<K(==)>(log: seq<Event<K>>, max: nat): Cache<K> {
    if log == [] then [] else Apply(After(log[..|log| - 1], max), Last(log), max)
  }

  // --- What the full log says --------------------------------------------------------------------

  /** The value of the last mark of a key that no clear follows. */
  function Latest<K(==)>(log: seq<Event<K>>, k: K): Option<int> {
    if log == [] then None
    else match Last(log)
      case Mark(key, value, _) => if key == k then Some(value) else Latest(log[..|log| - 1], k)
      case Clear(key, _) => if key == k then None else Latest(log[..|log| - 1], k)
      case Query(_, _) => Latest(log[..|log| - 1], k)
      case Other(_) => Latest(log[..|log| - 1], k)
  }

  function Marked<K(==)>(log: seq<Event<K>>): set<K> {
    if log == [] then {} else Marked(log[..|log| - 1]) + (if Last(log).Mark? then {Last(log).key} else {})
  }

  predicate AtLeast(value: Option<int>, floor: int) {
    value.Some? && value.value >= floor
  }

  function Counting<K(==)>(log: seq<Event<K>>, floor: int): set<K> {
    set k | k in Marked(log) && AtLeast(Latest(log, k), floor)
  }

  /** Time goes forward: floors and marked values never fall, and a new mark counts. */
  predicate Timely<K(==)>(log: seq<Event<K>>) {
    && (forall i, j :: 0 <= i < j < |log| ==> log[i].floor <= log[j].floor)
    && (forall i, j :: 0 <= i < j < |log| && log[i].Mark? && log[j].Mark? ==> log[i].value <= log[j].value)
    && (forall i :: 0 <= i < |log| && log[i].Mark? ==> log[i].floor <= log[i].value)
  }

  /** At every mark, the keys that count fit the bound. */
  predicate Fitting<K(==)>(log: seq<Event<K>>, max: nat) {
    forall i :: 0 <= i < |log| && log[i].Mark? ==> |Counting(log[..i + 1], log[i].floor)| <= max
  }

  // --- Entries -----------------------------------------------------------------------------------

  predicate Distinct<K(==)>(c: Cache<K>) {
    forall i, j :: 0 <= i < j < |c| ==> c[i].key != c[j].key
  }

  predicate Sorted<K>(c: Cache<K>) {
    forall i, j :: 0 <= i < j < |c| ==> c[i].value <= c[j].value
  }

  lemma {:induction false} GetFinds<K(!new)>(c: Cache<K>, k: K)
    ensures Get(c, k).Some? <==> Has(c, k)
    ensures Distinct(c) ==> forall i :: 0 <= i < |c| && c[i].key == k ==> Get(c, k) == Some(c[i].value)
    ensures Get(c, k).Some? ==> exists i :: 0 <= i < |c| && c[i] == Entry(k, Get(c, k).value)
  {
    if c != [] {
      GetFinds(c[..|c| - 1], k);
      assert c[|c| - 1] == Entry(Last(c).key, Last(c).value);
    }
  }

  lemma {:induction false} WithoutMembers<K(!new)>(c: Cache<K>, k: K)
    ensures forall e :: e in Without(c, k) <==> e in c && e.key != k
    ensures |Without(c, k)| <= |c|
  {
    if c != [] {
      WithoutMembers(c[..|c| - 1], k);
      assert c == c[..|c| - 1] + [Last(c)];
    }
  }

  lemma NotHeld<K(!new)>(c: Cache<K>, k: K)
    requires forall e :: e in c ==> e.key != k
    ensures !Has(c, k)
  {
    forall i | 0 <= i < |c|
      ensures c[i].key != k
    {
      assert c[i] in c;
    }
  }

  lemma DistinctSnoc<K(!new)>(c: Cache<K>, k: K, value: int)
    requires Distinct(c) && !Has(c, k)
    ensures Distinct(c + [Entry(k, value)])
  {
  }

  lemma SortedSnoc<K(!new)>(c: Cache<K>, k: K, value: int)
    requires Sorted(c) && forall e :: e in c ==> e.value <= value
    ensures Sorted(c + [Entry(k, value)])
  {
  }

  lemma {:induction false} DistinctWithout<K(!new)>(c: Cache<K>, k: K)
    requires Distinct(c)
    ensures Distinct(Without(c, k)) && !Has(Without(c, k), k)
  {
    if c != [] {
      var before := c[..|c| - 1];
      DistinctWithout(before, k);
      WithoutMembers(before, k);
      forall e | e in before
        ensures e.key != Last(c).key
      {
      }
      NotHeld(Without(before, k), Last(c).key);
      DistinctSnoc(Without(before, k), Last(c).key, Last(c).value);
    }
  }

  lemma {:induction false} SortedWithout<K(!new)>(c: Cache<K>, k: K)
    requires Sorted(c)
    ensures Sorted(Without(c, k))
  {
    if c != [] {
      var before := c[..|c| - 1];
      SortedWithout(before, k);
      var rest := Without(before, k);
      forall e | e in rest
        ensures e.value <= Last(c).value
      {
        WithoutMembers(before, k);
        var i :| 0 <= i < |before| && before[i] == e;
        assert c[i] == e && c[i].value <= c[|c| - 1].value;
      }
      SortedSnoc(rest, Last(c).key, Last(c).value);
    }
  }

  /** Removing a key keeps the other entries in order. */
  lemma WithoutKeeps<K(!new)>(c: Cache<K>, k: K)
    requires Distinct(c) && Sorted(c)
    ensures Distinct(Without(c, k)) && Sorted(Without(c, k)) && !Has(Without(c, k), k)
    ensures forall e :: e in Without(c, k) <==> e in c && e.key != k
    ensures |Without(c, k)| <= |c|
  {
    DistinctWithout(c, k);
    SortedWithout(c, k);
    WithoutMembers(c, k);
  }

  lemma {:induction false} DistinctFits<K(!new)>(c: Cache<K>, keys: set<K>)
    requires Distinct(c) && forall e :: e in c ==> e.key in keys
    ensures |c| <= |keys|
  {
    if c != [] {
      var before, k := c[..|c| - 1], Last(c).key;
      forall e | e in before
        ensures e.key in keys - {k}
      {
      }
      DistinctFits(before, keys - {k});
    }
  }

  // --- The cache answers like the log ----------------------------------------------------------------

  /** Every entry is the log's; every key of the log that counts has one. */
  ghost predicate Agrees<K(!new)>(c: Cache<K>, log: seq<Event<K>>, floor: int) {
    && Distinct(c) && Sorted(c)
    && (forall e :: e in c ==> Latest(log, e.key) == Some(e.value))
    && (forall k :: AtLeast(Latest(log, k), floor) ==> Has(c, k))
  }

  lemma {:induction false} LatestIsMarked<K(!new)>(log: seq<Event<K>>, k: K)
    ensures Latest(log, k).Some? ==> k in Marked(log)
    ensures Latest(log, k).Some? ==> exists i :: 0 <= i < |log| && log[i].Mark? && log[i].value == Latest(log, k).value
  {
    if log != [] {
      LatestIsMarked(log[..|log| - 1], k);
      if Latest(log[..|log| - 1], k).Some? {
        var i :| 0 <= i < |log| - 1 && log[i].Mark? && log[i].value == Latest(log[..|log| - 1], k).value;
        assert log[i].Mark?;
      }
    }
  }

  lemma EntryHas<K(!new)>(c: Cache<K>, e: Entry<K>)
    requires e in c
    ensures Has(c, e.key)
  {
    var i :| 0 <= i < |c| && c[i] == e;
    assert c[i].key == e.key;
  }

  lemma HasEntry<K(!new)>(c: Cache<K>, k: K)
    ensures Has(c, k) <==> exists v: int :: Entry(k, v) in c
  {
    if Has(c, k) {
      var i :| 0 <= i < |c| && c[i].key == k;
      assert c[i] == Entry(k, c[i].value);
    }
    forall v: int | Entry(k, v) in c
      ensures Has(c, k)
    {
      EntryHas(c, Entry(k, v));
    }
  }

  lemma MarkAgrees<K(!new)>(c: Cache<K>, log: seq<Event<K>>, k: K, value: int, floor: int, max: nat)
    requires Agrees(c, log, floor) && Timely(log + [Mark(k, value, floor)])
    requires |Counting(log + [Mark(k, value, floor)], floor)| <= max
    ensures Agrees(Touched(c, k, value, max), log + [Mark(k, value, floor)], floor)
  {
    var all := log + [Mark(k, value, floor)];
    var moved := Without(c, k) + [Entry(k, value)];
    MovedAgrees(c, log, k, value, floor);
    NewestAgrees(moved, all, floor, max);
  }

  lemma MovedAgrees<K(!new)>(c: Cache<K>, log: seq<Event<K>>, k: K, value: int, floor: int)
    requires Agrees(c, log, floor) && Timely(log + [Mark(k, value, floor)])
    ensures Agrees(Without(c, k) + [Entry(k, value)], log + [Mark(k, value, floor)], floor)
  {
    var all := log + [Mark(k, value, floor)];
    var rest := Without(c, k);
    var moved := rest + [Entry(k, value)];
    assert all[..|log|] == log;
    WithoutKeeps(c, k);
    forall e | e in moved
      ensures Latest(all, e.key) == Some(e.value) && e.value <= value
    {
      if e in rest {
        LatestIsMarked(log, e.key);
        var i :| 0 <= i < |log| && log[i].Mark? && log[i].value == e.value;
        assert all[i] == log[i] && all[|log|].Mark?;
      }
    }
    forall j | AtLeast(Latest(all, j), floor)
      ensures Has(moved, j)
    {
      if j == k {
        assert moved[|rest|].key == k;
      } else {
        HasEntry(c, j);
        var v: int :| Entry(j, v) in c;
        assert Entry(j, v) in moved;
        HasEntry(moved, j);
      }
    }
    DistinctSnoc(rest, k, value);
    SortedSnoc(rest, k, value);
  }

  /** A dropped entry that still counted would mean that more keys count than fit. */
  lemma DroppedDoNotCount<K(!new)>(moved: Cache<K>, log: seq<Event<K>>, floor: int, max: nat, n: nat)
    requires Agrees(moved, log, floor) && 0 < n && |moved| == n + max && |Counting(log, floor)| <= max
    ensures moved[n - 1].value < floor
  {
    if moved[n - 1].value >= floor {
      var counting := moved[n - 1..];
      forall e | e in counting
        ensures e.key in Counting(log, floor)
      {
        assert e in moved && e.value >= floor;
        LatestIsMarked(log, e.key);
      }
      DistinctFits(counting, Counting(log, floor));
    }
  }

  lemma NewestAgrees<K(!new)>(moved: Cache<K>, log: seq<Event<K>>, floor: int, max: nat)
    requires Agrees(moved, log, floor) && |Counting(log, floor)| <= max
    ensures Agrees(Newest(moved, max), log, floor)
  {
    if |moved| > max {
      var n := |moved| - max;
      DroppedDoNotCount(moved, log, floor, max, n);
      NewestHasAll(moved, log, floor, n);
    }
  }

  lemma NewestHasAll<K(!new)>(moved: Cache<K>, log: seq<Event<K>>, floor: int, n: nat)
    requires Agrees(moved, log, floor) && 0 < n <= |moved| && moved[n - 1].value < floor
    ensures Agrees(moved[n..], log, floor)
  {
    var kept := moved[n..];
    forall k | AtLeast(Latest(log, k), floor)
      ensures Has(kept, k)
    {
      assert Has(moved, k);
      var i :| 0 <= i < |moved| && moved[i].key == k;
      assert moved[i] in moved;
      assert i >= n;
      assert kept[i - n].key == k;
    }
    assert forall e :: e in kept ==> e in moved;
  }

  lemma RemovalAgrees<K(!new)>(c: Cache<K>, log: seq<Event<K>>, e: Event<K>, floor: int)
    requires Agrees(c, log, floor) && !e.Mark? && floor <= e.floor
    ensures forall max: nat :: Agrees(Apply(c, e, max), log + [e], e.floor)
  {
    var all := log + [e];
    assert all[..|log|] == log;
    if !e.Other? {
      var k := e.key;
      WithoutKeeps(c, k);
      GetFinds(c, k);
      forall j | j != k && Has(c, j)
        ensures Has(Without(c, k), j)
      {
        HasEntry(c, j);
        HasEntry(Without(c, k), j);
        var v: int :| Entry(j, v) in c;
        assert Entry(j, v) in Without(c, k);
      }
    }
  }

  lemma FittingBefore<K(!new)>(log: seq<Event<K>>, max: nat)
    requires log != [] && Fitting(log, max)
    ensures Fitting(log[..|log| - 1], max)
  {
    var before := log[..|log| - 1];
    forall i | 0 <= i < |before| && before[i].Mark?
      ensures |Counting(before[..i + 1], before[i].floor)| <= max
    {
      assert before[..i + 1] == log[..i + 1] && log[i].Mark?;
    }
  }

  lemma {:induction false} AgreesAfter<K(!new)>(log: seq<Event<K>>, max: nat)
    requires log != [] && Timely(log) && Fitting(log, max)
    ensures Agrees(After(log, max), log, Last(log).floor)
  {
    var before, e := log[..|log| - 1], Last(log);
    assert before + [e] == log;
    if before == [] {
      assert Agrees(After(before, max), before, e.floor);
    } else {
      FittingBefore(log, max);
      AgreesAfter(before, max);
      RisingFloor(After(before, max), before, Last(before).floor, e.floor);
    }
    if e.Mark? {
      assert log[..|log|] == log;
      MarkAgrees(After(before, max), before, e.key, e.value, e.floor, max);
    } else {
      RemovalAgrees(After(before, max), before, e, e.floor);
    }
  }

  lemma RisingFloor<K(!new)>(c: Cache<K>, log: seq<Event<K>>, low: int, high: int)
    requires Agrees(c, log, low) && low <= high
    ensures Agrees(c, log, high)
  {
  }

  /** Whenever the counting keys fit at every mark, the cache's answer is the log's. */
  lemma AnswersLikeLog<K(!new)>(log: seq<Event<K>>, max: nat, k: K, floor: int)
    requires Timely(log) && Fitting(log, max) && (log != [] ==> Last(log).floor <= floor)
    ensures AtLeast(Get(After(log, max), k), floor) <==> AtLeast(Latest(log, k), floor)
  {
    var c := After(log, max);
    if log != [] {
      AgreesAfter(log, max);
      GetFinds(c, k);
      if Has(c, k) {
        var i :| 0 <= i < |c| && c[i] == Entry(k, Get(c, k).value);
        assert c[i] in c;
      }
    }
  }

  lemma {:induction false} StaysSorted<K(!new)>(log: seq<Event<K>>, max: nat)
    requires Timely(log)
    ensures Sorted(After(log, max))
    ensures forall e :: e in After(log, max) ==> exists i :: 0 <= i < |log| && log[i].Mark? && log[i].value == e.value
  {
    if log != [] {
      var before, c, last := log[..|log| - 1], After(log[..|log| - 1], max), Last(log);
      StaysSorted(before, max);
      if !last.Other? {
        SortedWithout(c, last.key);
        WithoutMembers(c, last.key);
      }
      if last.Mark? {
        var rest := Without(c, last.key);
        forall e | e in rest
          ensures e.value <= last.value
        {
          var i :| 0 <= i < |before| && before[i].Mark? && before[i].value == e.value;
          assert log[i].Mark? && log[|log| - 1].Mark?;
        }
        SortedSnoc(rest, last.key, last.value);
      }
      forall e | e in After(log, max)
        ensures exists i :: 0 <= i < |log| && log[i].Mark? && log[i].value == e.value
      {
        if e in c {
          var i :| 0 <= i < |before| && before[i].Mark? && before[i].value == e.value;
          assert log[i].Mark?;
        } else {
          assert log[|log| - 1].Mark? && e == Entry(last.key, last.value);
        }
      }
    }
  }

  lemma {:induction false} NeverOverBound<K(!new)>(log: seq<Event<K>>, max: nat)
    ensures |After(log, max)| <= max && Distinct(After(log, max))
  {
    if log != [] {
      var c := After(log[..|log| - 1], max);
      NeverOverBound(log[..|log| - 1], max);
      if !Last(log).Other? {
        DistinctWithout(c, Last(log).key);
        WithoutMembers(c, Last(log).key);
      }
      if Last(log).Mark? {
        DistinctSnoc(Without(c, Last(log).key), Last(log).key, Last(log).value);
      }
    }
  }

  /**
   The bound is exact: after any events, the cache answers for every key as the log does only
   if the counting keys fit.
   */
  lemma WrongWhenOverBound<K(!new)>(log: seq<Event<K>>, max: nat, floor: int)
    requires |Counting(log, floor)| > max
    ensures exists k :: AtLeast(Latest(log, k), floor) && !Has(After(log, max), k)
  {
    var c := After(log, max);
    NeverOverBound(log, max);
    if forall k :: k in Counting(log, floor) ==> Has(c, k) {
      CoveredFits(c, Counting(log, floor));
    }
  }

  lemma EmptyOrHas<K(!new)>(keys: set<K>)
    ensures keys == {} || exists k :: k in keys
  {
  }

  lemma {:induction false} CoveredFits<K(!new)>(c: Cache<K>, keys: set<K>)
    requires forall k :: k in keys ==> Has(c, k)
    ensures |keys| <= |c|
  {
    if c == [] {
      EmptyOrHas(keys);
    } else {
      var before := c[..|c| - 1];
      forall k | k in keys - {Last(c).key}
        ensures Has(before, k)
      {
        var i :| 0 <= i < |c| && c[i].key == k;
        assert before[i].key == k;
      }
      CoveredFits(before, keys - {Last(c).key});
      assert |keys| <= |keys - {Last(c).key}| + 1 by {
        assert keys <= (keys - {Last(c).key}) + {Last(c).key};
        SubsetFits(keys, (keys - {Last(c).key}) + {Last(c).key});
      }
    }
  }

  lemma {:induction false} SubsetFits<K(!new)>(a: set<K>, b: set<K>)
    requires a <= b
    ensures |a| <= |b|
  {
    assert b == a + (b - a);
  }
}
