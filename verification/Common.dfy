/**
 Small vocabulary shared by the models: optional values, flattening,
 first-occurrence filtering and text joining.
 */
module Common {

  datatype Option<+T> = None | Some(value: T)

  function Max(x: int, y: int): int {
    if x > y then x else y
  }

  function Min(x: int, y: int): int {
    if x < y then x else y
  }

  function Last<T>(s: seq<T>): T
    requires s != []
  {
    s[|s| - 1]
  }

  lemma Associates<T>(a: seq<T>, b: seq<T>, c: seq<T>)
    ensures a + (b + c) == a + b + c
  {
  }

  function Flatten<T>(parts: seq<seq<T>>): seq<T> {
    if parts == [] then [] else parts[0] + Flatten(parts[1..])
  }

  lemma {:induction false} FlattenConcat<T>(a: seq<seq<T>>, b: seq<seq<T>>)
    ensures Flatten(a + b) == Flatten(a) + Flatten(b)
  {
    if a == [] {
      assert a + b == b;
    } else {
      FlattenConcat(a[1..], b);
      var first, rest := a[0], a[1..];
      assert (a + b)[0] == first && (a + b)[1..] == rest + b;
      Associates(first, Flatten(rest), Flatten(b));
    }
  }

  lemma FlattenSnoc<T>(a: seq<seq<T>>, x: seq<T>)
    ensures Flatten(a + [x]) == Flatten(a) + x
  {
    FlattenConcat(a, [x]);
    assert Flatten([x]) == x + Flatten([]);
  }

  /** `separator.join(parts)`. */
  function JoinWith<T>(separator: seq<T>, parts: seq<seq<T>>): seq<T>
    requires parts != []
  {
    if |parts| == 1 then parts[0] else parts[0] + separator + JoinWith(separator, parts[1..])
  }

  lemma {:induction false} JoinSnoc<T>(separator: seq<T>, parts: seq<seq<T>>, x: seq<T>)
    requires parts != []
    ensures JoinWith(separator, parts + [x]) == JoinWith(separator, parts) + separator + x
  {
    if |parts| > 1 {
      JoinSnoc(separator, parts[1..], x);
      assert (parts + [x])[1..] == parts[1..] + [x];
    } else {
      assert (parts + [x])[1..] == [x];
    }
  }

  function FlatMap<T, U>(f: T -> seq<U>, s: seq<T>): seq<U> {
    if s == [] then [] else FlatMap(f, s[..|s| - 1]) + f(Last(s))
  }

  lemma FlatMapSnoc<T, U>(f: T -> seq<U>, s: seq<T>, x: T)
    ensures FlatMap(f, s + [x]) == FlatMap(f, s) + f(x)
  {
    assert (s + [x])[..|s|] == s;
  }

  lemma {:induction false} FlatMapConcat<T, U>(f: T -> seq<U>, a: seq<T>, b: seq<T>)
    ensures FlatMap(f, a + b) == FlatMap(f, a) + FlatMap(f, b)
  {
    if b == [] {
      assert a + b == a;
    } else {
      var front, last := b[..|b| - 1], Last(b);
      FlatMapConcat(f, a, front);
      FlatMapSnoc(f, a + front, last);
      Associates(a, front, [last]);
      assert b == front + [last];
      Associates(FlatMap(f, a), FlatMap(f, front), f(last));
    }
  }

  lemma FlatMapSingle<T, U>(f: T -> seq<U>, x: T)
    ensures FlatMap(f, [x]) == f(x)
  {
    assert [x][..0] == [] && Last([x]) == x;
    assert FlatMap(f, []) + f(x) == f(x);
  }

  lemma FlatMapTake<T, U>(f: T -> seq<U>, s: seq<T>, i: nat)
    requires i < |s|
    ensures FlatMap(f, s[..i + 1]) == FlatMap(f, s[..i]) + f(s[i])
  {
    assert s[..i + 1][..i] == s[..i];
  }

  lemma {:induction false} FlatMapMembers<T, U>(f: T -> seq<U>, s: seq<T>, u: U)
    ensures u in FlatMap(f, s) <==> exists i :: 0 <= i < |s| && u in f(s[i])
  {
    if s != [] {
      FlatMapMembers(f, s[..|s| - 1], u);
    }
  }

  lemma EmptyOrMember<T>(s: seq<T>)
    ensures s == [] || exists x :: x in s
  {
    if s != [] {
      assert s[0] in s;
    }
  }

  predicate HasKey<T, K(==)>(key: T -> K, s: seq<T>, k: K) {
    exists i :: 0 <= i < |s| && key(s[i]) == k
  }

  /** The items in order, each kept only where its key first occurs. */
  function FirstBy<T, K(==)>(key: T -> K, s: seq<T>): seq<T> {
    if s == [] then []
    else
      var kept := FirstBy(key, s[..|s| - 1]);
      if HasKey(key, kept, key(Last(s))) then kept else kept + [Last(s)]
  }

  lemma {:induction false} FirstByKeys<T, K>(key: T -> K, s: seq<T>, k: K)
    ensures HasKey(key, FirstBy(key, s), k) <==> HasKey(key, s, k)
  {
    if s != [] {
      var before := s[..|s| - 1];
      FirstByKeys(key, before, k);
      FirstByKeys(key, before, key(Last(s)));
      HasKeySnoc(key, before, Last(s), k);
      assert s == before + [Last(s)];
      HasKeySnoc(key, FirstBy(key, before), Last(s), k);
    }
  }

  lemma HasKeySnoc<T, K>(key: T -> K, s: seq<T>, x: T, k: K)
    ensures HasKey(key, s + [x], k) <==> HasKey(key, s, k) || key(x) == k
  {
    if HasKey(key, s, k) {
      var i :| 0 <= i < |s| && key(s[i]) == k;
      assert key((s + [x])[i]) == k;
    }
    if key(x) == k {
      assert key((s + [x])[|s|]) == k;
    }
  }

  lemma FirstBySnoc<T, K>(key: T -> K, s: seq<T>, x: T)
    ensures FirstBy(key, s + [x])
         == if HasKey(key, s, key(x)) then FirstBy(key, s) else FirstBy(key, s) + [x]
  {
    assert (s + [x])[..|s + [x]| - 1] == s;
    FirstByKeys(key, s, key(x));
  }

  lemma HasKeyConcat<T, K>(key: T -> K, a: seq<T>, b: seq<T>, k: K)
    ensures HasKey(key, a + b, k) <==> HasKey(key, a, k) || HasKey(key, b, k)
  {
    if HasKey(key, a, k) {
      var i :| 0 <= i < |a| && key(a[i]) == k;
      assert key((a + b)[i]) == k;
    }
    if HasKey(key, b, k) {
      var i :| 0 <= i < |b| && key(b[i]) == k;
      assert key((a + b)[|a| + i]) == k;
    }
  }

  /** Filtering a later part early does not change the result. */
  lemma {:induction false} FirstByAbsorb<T, K>(key: T -> K, a: seq<T>, b: seq<T>)
    ensures FirstBy(key, a + b) == FirstBy(key, a + FirstBy(key, b))
  {
    if b != [] {
      var b', x := b[..|b| - 1], Last(b);
      FirstByAbsorb(key, a, b');
      assert a + b == (a + b') + [x];
      FirstBySnoc(key, a + b', x);
      var kept := FirstBy(key, b');
      FirstByKeys(key, b', key(x));
      HasKeyConcat(key, a, b', key(x));
      if !HasKey(key, kept, key(x)) {
        assert a + (kept + [x]) == (a + kept) + [x];
        FirstBySnoc(key, a + kept, x);
        HasKeyConcat(key, a, kept, key(x));
      }
    }
  }

  /** Filtering an earlier part early does not change the result. */
  lemma {:induction false} FirstByPrefix<T, K>(key: T -> K, a: seq<T>, b: seq<T>)
    ensures FirstBy(key, a + b) == FirstBy(key, FirstBy(key, a) + b)
  {
    if b == [] {
      FirstByAbsorb(key, [], a);
      assert [] + a == a == a + b && [] + FirstBy(key, a) == FirstBy(key, a) == FirstBy(key, a) + b;
    } else {
      var b', x := b[..|b| - 1], Last(b);
      FirstByPrefix(key, a, b');
      assert a + b == (a + b') + [x] && FirstBy(key, a) + b == (FirstBy(key, a) + b') + [x];
      FirstBySnoc(key, a + b', x);
      FirstBySnoc(key, FirstBy(key, a) + b', x);
      HasKeyConcat(key, a, b', key(x));
      HasKeyConcat(key, FirstBy(key, a), b', key(x));
      FirstByKeys(key, a, key(x));
    }
  }

  lemma FirstByIdempotent<T, K>(key: T -> K, s: seq<T>)
    ensures FirstBy(key, FirstBy(key, s)) == FirstBy(key, s)
  {
    FirstByAbsorb(key, [], s);
    assert [] + s == s && [] + FirstBy(key, s) == FirstBy(key, s);
  }

  predicate Ascending(places: seq<nat>) {
    forall j, k :: 0 <= j < k < |places| ==> places[j] < places[k]
  }

  /** The items found at the places, in the order they stand in. */
  predicate FoundAt<T(==)>(s: seq<T>, places: seq<nat>, found: seq<T>) {
    && Ascending(places) && |places| == |found|
    && forall k :: 0 <= k < |places| ==> places[k] < |s| && s[places[k]] == found[k]
  }

  // --- Stripping ------------------------------------------------------------------------

  /** What Python's `str.strip()` removes. */
  const BLANK: set<char> := {
    ' ', '\t', '\n', '\r', '\U{000B}', '\U{000C}', '\U{001C}', '\U{001D}', '\U{001E}', '\U{001F}',
    '\U{0085}', '\U{00A0}', '\U{1680}', '\U{2000}', '\U{2001}', '\U{2002}', '\U{2003}', '\U{2004}',
    '\U{2005}', '\U{2006}', '\U{2007}', '\U{2008}', '\U{2009}', '\U{200A}', '\U{2028}', '\U{2029}',
    '\U{202F}', '\U{205F}', '\U{3000}'
  }

  function DropLeading(blank: set<char>, s: string): string {
    if s != "" && s[0] in blank then DropLeading(blank, s[1..]) else s
  }

  function DropTrailing(blank: set<char>, s: string): string {
    if s != "" && Last(s) in blank then DropTrailing(blank, s[..|s| - 1]) else s
  }

  function Strip(blank: set<char>, s: string): string {
    DropTrailing(blank, DropLeading(blank, s))
  }

  predicate Unpadded(blank: set<char>, s: string) {
    s != "" ==> s[0] !in blank && Last(s) !in blank
  }

  lemma {:induction false} DropTrailingEnds(blank: set<char>, s: string)
    ensures DropTrailing(blank, s) != "" ==> Last(DropTrailing(blank, s)) !in blank && DropTrailing(blank, s)[0] == s[0]
    ensures DropTrailing(blank, s) != "" ==> s != ""
  {
    if s != "" && Last(s) in blank {
      DropTrailingEnds(blank, s[..|s| - 1]);
    }
  }

  lemma {:induction false} DropLeadingStarts(blank: set<char>, s: string)
    ensures DropLeading(blank, s) != "" ==> DropLeading(blank, s)[0] !in blank
  {
    if s != "" && s[0] in blank {
      DropLeadingStarts(blank, s[1..]);
    }
  }

  /** Stripping leaves a text without blanks at its ends, and such a text alone. */
  lemma StripUnpads(blank: set<char>, s: string)
    ensures Unpadded(blank, Strip(blank, s))
    ensures Unpadded(blank, s) ==> Strip(blank, s) == s
  {
    DropLeadingStarts(blank, s);
    DropTrailingEnds(blank, DropLeading(blank, s));
  }

  predicate AllIn(blank: set<char>, s: string) {
    forall i :: 0 <= i < |s| ==> s[i] in blank
  }

  /** The text is blanks, then the stripped text, then blanks. */
  ghost predicate StripsTo(blank: set<char>, s: string, stripped: string) {
    Unpadded(blank, stripped)
    && exists lead, trail :: AllIn(blank, lead) && AllIn(blank, trail) && s == lead + (stripped + trail)
  }

  lemma {:induction false} DropLeadingCuts(blank: set<char>, s: string) returns (lead: string)
    ensures AllIn(blank, lead) && s == lead + DropLeading(blank, s)
  {
    lead := "";
    if s != "" && s[0] in blank {
      lead := DropLeadingCuts(blank, s[1..]);
      lead := [s[0]] + lead;
    }
  }

  lemma {:induction false} DropTrailingCuts(blank: set<char>, s: string) returns (trail: string)
    ensures AllIn(blank, trail) && s == DropTrailing(blank, s) + trail
  {
    trail := "";
    if s != "" && Last(s) in blank {
      trail := DropTrailingCuts(blank, s[..|s| - 1]);
      assert s == s[..|s| - 1] + [Last(s)];
      trail := trail + [Last(s)];
    }
  }

  lemma {:induction false} LeadIsDropped(blank: set<char>, lead: string, rest: string)
    requires AllIn(blank, lead) && (rest != "" ==> rest[0] !in blank)
    ensures DropLeading(blank, lead + rest) == rest
  {
    if lead == "" {
      assert lead + rest == rest;
    } else {
      assert (lead + rest)[1..] == lead[1..] + rest;
      LeadIsDropped(blank, lead[1..], rest);
    }
  }

  lemma {:induction false} TrailIsDropped(blank: set<char>, rest: string, trail: string)
    requires AllIn(blank, trail) && (rest != "" ==> Last(rest) !in blank)
    ensures DropTrailing(blank, rest + trail) == rest
  {
    if trail == "" {
      assert rest + trail == rest;
    } else {
      assert (rest + trail)[..|rest + trail| - 1] == rest + trail[..|trail| - 1];
      TrailIsDropped(blank, rest, trail[..|trail| - 1]);
    }
  }

  /** Stripping takes all blanks off both ends and nothing else. */
  lemma StripExactly(blank: set<char>, s: string, stripped: string)
    ensures Strip(blank, s) == stripped <==> StripsTo(blank, s, stripped)
  {
    StripUnpads(blank, s);
    if Strip(blank, s) == stripped {
      var lead := DropLeadingCuts(blank, s);
      var trail := DropTrailingCuts(blank, DropLeading(blank, s));
      assert s == lead + (stripped + trail);
    }
    if StripsTo(blank, s, stripped) {
      var lead, trail :| AllIn(blank, lead) && AllIn(blank, trail) && s == lead + (stripped + trail);
      if stripped == "" {
        assert s == lead + trail + "" && AllIn(blank, lead + trail);
        LeadIsDropped(blank, lead + trail, "");
      } else {
        LeadIsDropped(blank, lead, stripped + trail);
        TrailIsDropped(blank, stripped, trail);
      }
    }
  }
}
