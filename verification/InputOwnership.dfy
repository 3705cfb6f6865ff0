/**
 Which task may work on an inbound message. A task enters a scope for a set of message keys;
 it is admitted when no other task owns one of them, and then owns those that were free. It may
 hand keys off to a queue while the scope is still open. Scopes of one task nest.
 */
module InputOwnership {

  datatype Key = Key(account: string, chatId: string, messageId: string)

  type Task = nat

  type Owners = map<Key, Task>

  predicate Admits(owners: Owners, task: Task, keys: set<Key>) {
    forall k :: k in keys && k in owners ==> owners[k] == task
  }

  function Acquire(owners: Owners, task: Task, acquired: set<Key>): Owners {
    owners + (map k | k in acquired :: task)
  }

  /** Keys of the set leave the map where this task still owns them. */
  function Release(owners: Owners, task: Task, keys: set<Key>): Owners {
    map k | k in owners && !(k in keys && owners[k] == task) :: owners[k]
  }

  // --- The running code ---------------------------------------------------------------------

  class HistoryInputs {
    var owners: Owners

    constructor ()
      ensures owners == map[]
    {
      owners := map[];
    }

    method EnterScope(task: Task, keys: set<Key>) returns (admitted: bool, acquired: set<Key>)
      modifies this
      ensures admitted == Admits(old(owners), task, keys)
      ensures acquired == if admitted then keys - old(owners).Keys else {}
      ensures owners == Acquire(old(owners), task, acquired)
    {
      if exists k :: k in keys && k in owners && owners[k] != task {
        admitted, acquired := false, {};
        assert owners == Acquire(owners, task, {});
        return;
      }
      admitted, acquired := true, keys - owners.Keys;
      owners := owners + (map k | k in acquired :: task);
    }

    method ExitScope(task: Task, acquired: set<Key>) returns (released: bool)
      modifies this
      ensures owners == Release(old(owners), task, acquired)
      ensures released <==> exists k :: k in acquired && k in old(owners) && old(owners)[k] == task
    {
      released := ReleaseEach(task, acquired);
    }

    method HandOff(task: Task, keys: set<Key>)
      modifies this
      ensures owners == Release(old(owners), task, keys)
    {
      var _ := ReleaseEach(task, keys);
    }

    /** The loop both endings share: drop each key that this task still owns. */
    method ReleaseEach(task: Task, keys: set<Key>) returns (released: bool)
      modifies this
      ensures owners == Release(old(owners), task, keys)
      ensures released <==> exists k :: k in keys && k in old(owners) && old(owners)[k] == task
    {
      released := false;
      var left := keys;
      assert owners == Release(owners, task, {});
      while left != {}
        invariant left <= keys
        invariant owners == Release(old(owners), task, keys - left)
        invariant released <==> exists k :: k in keys - left && k in old(owners) && old(owners)[k] == task
        decreases |left|
      {
        var key :| key in left;
        if key in owners && owners[key] == task {
          owners := owners - {key};
          released := true;
        }
        left := left - {key};
      }
      assert keys - left == keys;
    }
  }

  // --- Runs of many tasks ----------------------------------------------------------------------

  /**
   An open scope: what it asked for and acquired, when it was entered, and when each key was
   first handed off since.
   */
  datatype Scope = Scope(keys: set<Key>, acquired: set<Key>, admitted: bool, enteredAt: nat, handedAt: map<Key, nat>)

  /** Each task's open scopes, innermost last. */
  datatype State = State(now: nat, owners: Owners, stacks: map<Task, seq<Scope>>)

  datatype Event = Enter(task: Task, keys: set<Key>) | Exit(task: Task) | HandOffKeys(task: Task, keys: set<Key>)

  function Stack(s: State, task: Task): seq<Scope> {
    if task in s.stacks then s.stacks[task] else []
  }

  const INITIAL := State(0, map[], map[])

  function Marked(scope: Scope, handed: set<Key>, now: nat): Scope {
    scope.(handedAt := (map k | k in handed :: now) + scope.handedAt)
  }

  function MarkAll(stack: seq<Scope>, handed: set<Key>, now: nat): (r: seq<Scope>)
    ensures |r| == |stack|
    ensures forall i :: 0 <= i < |stack| ==> r[i] == Marked(stack[i], handed, now)
  {
    seq(|stack|, i requires 0 <= i < |stack| => Marked(stack[i], handed, now))
  }

  function OwnedAmong(owners: Owners, task: Task, keys: set<Key>): set<Key> {
    set k | k in keys && k in owners && owners[k] == task
  }

  function Step(s: State, e: Event): State {
    var stack := Stack(s, e.task);
    match e
    case Enter(task, keys) =>
      var admitted := Admits(s.owners, task, keys);
      var acquired := if admitted then keys - s.owners.Keys else {};
      State(s.now + 1, Acquire(s.owners, task, acquired),
        s.stacks[task := stack + [Scope(keys, acquired, admitted, s.now, map[])]])
    case Exit(task) =>
      if stack == [] then s.(now := s.now + 1)
      else
        var owners := Release(s.owners, task, stack[|stack| - 1].acquired);
        State(s.now + 1, owners, s.stacks[task := stack[..|stack| - 1]])
    case HandOffKeys(task, keys) =>
      State(s.now + 1, Release(s.owners, task, keys),
        s.stacks[task := MarkAll(stack, OwnedAmong(s.owners, task, keys), s.now)])
  }

  function Run(events: seq<Event>): State {
    if events == [] then INITIAL else Step(Run(events[..|events| - 1]), events[|events| - 1])
  }

  // --- What every run keeps --------------------------------------------------------------------

  /** The scope took the key and still answers for it. */
  predicate Holds(scope: Scope, k: Key) {
    k in scope.acquired && k !in scope.handedAt
  }

  predicate HeldIn(stack: seq<Scope>, k: Key) {
    exists i :: 0 <= i < |stack| && Holds(stack[i], k)
  }

  /** Some scope at or outside position j holds the key. */
  predicate HeldUpTo(stack: seq<Scope>, j: nat, k: Key) {
    exists i :: 0 <= i <= j && i < |stack| && Holds(stack[i], k)
  }

  predicate Claims(scope: Scope, k: Key) {
    scope.admitted && k in scope.keys
  }

  predicate Owns(s: State, a: Task, k: Key) {
    k in s.owners && s.owners[k] == a
  }

  /** A task owns a key exactly while one of its open scopes holds it. */
  ghost predicate OwnerIsHolder(s: State, k: Key) {
    forall a: Task :: Owns(s, a, k) <==> HeldIn(Stack(s, a), k)
  }

  /** A scope never acquires what an outer scope still holds. */
  predicate HolderIsOutermost(stack: seq<Scope>, k: Key) {
    forall i, j :: 0 <= i < j < |stack| && k in stack[j].acquired ==> !Holds(stack[i], k)
  }

  /** A claim not handed off is held by its scope or an outer one. */
  predicate ClaimsAreHeld(stack: seq<Scope>, k: Key) {
    forall j :: 0 <= j < |stack| && Claims(stack[j], k) && k !in stack[j].handedAt ==> HeldUpTo(stack, j, k)
  }

  predicate TimesArePast(stack: seq<Scope>, now: nat) {
    forall i :: 0 <= i < |stack| ==> TimeIsPast(stack[i], now)
  }

  predicate TimeIsPast(scope: Scope, now: nat) {
    scope.enteredAt < now && forall k :: k in scope.handedAt ==> scope.enteredAt < scope.handedAt[k] < now
  }

  ghost predicate StackOk(s: State, a: Task, k: Key) {
    HolderIsOutermost(Stack(s, a), k) && ClaimsAreHeld(Stack(s, a), k) && TimesArePast(Stack(s, a), s.now)
  }

  /** The earlier of two claims was handed off before the later scope was entered. */
  predicate HandedBetween(first: Scope, second: Scope, k: Key) {
    k in first.handedAt && first.enteredAt < first.handedAt[k] < second.enteredAt
  }

  predicate Exclusive(one: seq<Scope>, other: seq<Scope>, k: Key) {
    forall i, j :: 0 <= i < |one| && 0 <= j < |other| ==> ExclusivePair(one[i], other[j], k)
  }

  predicate ExclusivePair(first: Scope, second: Scope, k: Key) {
    Claims(first, k) && Claims(second, k) && first.enteredAt <= second.enteredAt ==> HandedBetween(first, second, k)
  }

  ghost predicate Inv(s: State, k: Key) {
    && OwnerIsHolder(s, k)
    && (forall a: Task :: StackOk(s, a, k))
    && (forall a: Task, b: Task :: a != b ==> Exclusive(Stack(s, a), Stack(s, b), k))
  }

  // --- Entering ----------------------------------------------------------------------------------

  lemma HeldSnoc(stack: seq<Scope>, scope: Scope, k: Key)
    ensures HeldIn(stack + [scope], k) <==> HeldIn(stack, k) || Holds(scope, k)
    ensures forall j :: 0 <= j < |stack| ==> (HeldUpTo(stack + [scope], j, k) <==> HeldUpTo(stack, j, k))
    ensures HeldUpTo(stack + [scope], |stack|, k) <==> HeldIn(stack, k) || Holds(scope, k)
  {
    var all := stack + [scope];
    if HeldIn(stack, k) {
      var i :| 0 <= i < |stack| && Holds(stack[i], k);
      assert Holds(all[i], k);
    }
    if Holds(scope, k) {
      assert Holds(all[|stack|], k);
    }
    forall j | 0 <= j < |stack|
      ensures HeldUpTo(all, j, k) <==> HeldUpTo(stack, j, k)
    {
      if HeldUpTo(stack, j, k) {
        var i :| 0 <= i <= j && i < |stack| && Holds(stack[i], k);
        assert Holds(all[i], k);
      }
    }
  }

  predicate EnteredBy(s: State, task: Task, scope: Scope) {
    && scope.admitted == Admits(s.owners, task, scope.keys)
    && scope.acquired == (if scope.admitted then scope.keys - s.owners.Keys else {})
    && scope.enteredAt == s.now
    && scope.handedAt == map[]
  }

  lemma EnteredStackOk(s: State, task: Task, scope: Scope, k: Key)
    requires Inv(s, k) && EnteredBy(s, task, scope)
    ensures HolderIsOutermost(Stack(s, task) + [scope], k)
    ensures ClaimsAreHeld(Stack(s, task) + [scope], k)
    ensures TimesArePast(Stack(s, task) + [scope], s.now + 1)
  {
    var stack := Stack(s, task);
    var all := stack + [scope];
    HeldSnoc(stack, scope, k);
    assert StackOk(s, task, k);
    assert Owns(s, task, k) <==> HeldIn(stack, k);
    forall i, j | 0 <= i < j < |all| && k in all[j].acquired
      ensures !Holds(all[i], k)
    {
      assert i < |stack| && Holds(stack[i], k) ==> HeldIn(stack, k);
    }
    forall j | 0 <= j < |all| && Claims(all[j], k) && k !in all[j].handedAt
      ensures HeldUpTo(all, j, k)
    {
      if j == |stack| && k !in scope.acquired {
        assert Owns(s, task, k);
      }
    }
    forall i | 0 <= i < |all|
      ensures TimeIsPast(all[i], s.now + 1)
    {
      assert i < |stack| ==> TimeIsPast(stack[i], s.now);
    }
  }

  lemma LaterStacksOk(s: State, r: State, task: Task, k: Key)
    requires Inv(s, k) && r.now == s.now + 1
    requires forall a: Task :: a != task ==> Stack(r, a) == Stack(s, a)
    ensures forall a: Task :: a != task ==> StackOk(r, a, k)
  {
    forall a: Task | a != task
      ensures StackOk(r, a, k)
    {
      assert StackOk(s, a, k);
      assert forall i :: 0 <= i < |Stack(s, a)| && TimeIsPast(Stack(s, a)[i], s.now) ==>
        TimeIsPast(Stack(s, a)[i], r.now);
    }
  }

  lemma EnterKeepsInv(s: State, task: Task, keys: set<Key>, k: Key)
    requires Inv(s, k)
    ensures Inv(Step(s, Enter(task, keys)), k)
  {
    var r := Step(s, Enter(task, keys));
    var admitted := Admits(s.owners, task, keys);
    var scope := Scope(keys, if admitted then keys - s.owners.Keys else {}, admitted, s.now, map[]);
    assert Stack(r, task) == Stack(s, task) + [scope];
    assert forall a: Task :: a != task ==> Stack(r, a) == Stack(s, a);
    HeldSnoc(Stack(s, task), scope, k);
    EnteredStackOk(s, task, scope, k);
    LaterStacksOk(s, r, task, k);
    EnteredIsExclusive(s, task, scope, k);
    assert r.owners == Acquire(s.owners, task, scope.acquired);
    EnteredOwners(s, r, task, scope, k);
  }

  lemma EnteredOwners(s: State, r: State, task: Task, scope: Scope, k: Key)
    requires Inv(s, k) && EnteredBy(s, task, scope)
    requires r.owners == Acquire(s.owners, task, scope.acquired)
    requires Stack(r, task) == Stack(s, task) + [scope] && forall a: Task :: a != task ==> Stack(r, a) == Stack(s, a)
    ensures OwnerIsHolder(r, k)
  {
    HeldSnoc(Stack(s, task), scope, k);
    forall a: Task
      ensures Owns(r, a, k) <==> HeldIn(Stack(r, a), k)
    {
      assert Owns(s, a, k) <==> HeldIn(Stack(s, a), k);
    }
  }

  lemma EnteredIsExclusive(s: State, task: Task, scope: Scope, k: Key)
    requires Inv(s, k) && scope.enteredAt == s.now && (scope.admitted ==> Admits(s.owners, task, scope.keys))
    ensures forall a: Task :: a != task ==> Exclusive(Stack(s, a), Stack(s, task) + [scope], k)
    ensures forall a: Task :: a != task ==> Exclusive(Stack(s, task) + [scope], Stack(s, a), k)
  {
    forall a: Task | a != task
      ensures Exclusive(Stack(s, a), Stack(s, task) + [scope], k)
      ensures Exclusive(Stack(s, task) + [scope], Stack(s, a), k)
    {
      var one := Stack(s, a);
      assert StackOk(s, a, k);
      assert Exclusive(one, Stack(s, task), k) && Exclusive(Stack(s, task), one, k);
      forall i | 0 <= i < |one|
        ensures ExclusivePair(one[i], scope, k) && ExclusivePair(scope, one[i], k)
      {
        assert TimeIsPast(one[i], s.now);
        if Claims(one[i], k) && k !in one[i].handedAt {
          assert HeldUpTo(one, i, k);
          assert Owns(s, a, k);
        }
      }
    }
  }

  // --- Leaving ----------------------------------------------------------------------------------

  lemma ExitKeepsInv(s: State, task: Task, k: Key)
    requires Inv(s, k)
    ensures Inv(Step(s, Exit(task)), k)
  {
    var r := Step(s, Exit(task));
    var stack := Stack(s, task);
    if stack == [] {
      assert forall a: Task :: Stack(r, a) == Stack(s, a);
      LaterStacksOk(s, r, task, k);
      assert OwnerIsHolder(r, k) by {
        assert forall a: Task :: Owns(r, a, k) == Owns(s, a, k);
      }
    } else {
      var rest, scope := stack[..|stack| - 1], stack[|stack| - 1];
      assert stack == rest + [scope];
      assert Stack(r, task) == rest;
      assert forall a: Task :: a != task ==> Stack(r, a) == Stack(s, a);
      LaterStacksOk(s, r, task, k);
      LeftStackOk(s, task, rest, scope, k);
      assert r.owners == Release(s.owners, task, scope.acquired);
      LeftOwners(s, r, task, rest, scope, k);
      assert forall a: Task :: a != task ==> Exclusive(Stack(s, a), stack, k) && Exclusive(stack, Stack(s, a), k);
    }
  }

  lemma LeftStackOk(s: State, task: Task, rest: seq<Scope>, scope: Scope, k: Key)
    requires Inv(s, k) && Stack(s, task) == rest + [scope]
    ensures HolderIsOutermost(rest, k) && ClaimsAreHeld(rest, k) && TimesArePast(rest, s.now + 1)
  {
    var stack := rest + [scope];
    assert StackOk(s, task, k);
    HeldSnoc(rest, scope, k);
    assert forall i :: 0 <= i < |rest| ==> stack[i] == rest[i];
    forall i | 0 <= i < |rest|
      ensures TimeIsPast(rest[i], s.now + 1)
    {
      assert TimeIsPast(stack[i], s.now);
    }
  }

  /** What the leaving scope acquired and its task still owns is exactly what it held. */
  lemma LeftOwners(s: State, r: State, task: Task, rest: seq<Scope>, scope: Scope, k: Key)
    requires Inv(s, k) && Stack(s, task) == rest + [scope]
    requires r.owners == Release(s.owners, task, scope.acquired)
    requires Stack(r, task) == rest && forall a: Task :: a != task ==> Stack(r, a) == Stack(s, a)
    ensures OwnerIsHolder(r, k)
  {
    var stack := rest + [scope];
    HeldSnoc(rest, scope, k);
    assert StackOk(s, task, k);
    if HeldIn(rest, k) {
      var i :| 0 <= i < |rest| && Holds(rest[i], k);
      assert Holds(stack[i], k);
      assert k !in scope.acquired;
    }
    forall a: Task
      ensures Owns(r, a, k) <==> HeldIn(Stack(r, a), k)
    {
      assert Owns(s, a, k) <==> HeldIn(Stack(s, a), k);
      assert Owns(s, task, k) <==> HeldIn(Stack(s, task), k);
    }
  }

  // --- Handing off --------------------------------------------------------------------------------

  lemma MarkedTimes(scope: Scope, handed: set<Key>, now: nat)
    requires TimeIsPast(scope, now)
    ensures TimeIsPast(Marked(scope, handed, now), now + 1)
  {
  }

  lemma HandOffKeepsInv(s: State, task: Task, keys: set<Key>, k: Key)
    requires Inv(s, k)
    ensures Inv(Step(s, HandOffKeys(task, keys)), k)
  {
    var r := Step(s, HandOffKeys(task, keys));
    var stack := Stack(s, task);
    var handed := OwnedAmong(s.owners, task, keys);
    var marked := MarkAll(stack, handed, s.now);
    assert Stack(r, task) == marked && forall a: Task :: a != task ==> Stack(r, a) == Stack(s, a);
    LaterStacksOk(s, r, task, k);
    MarkedStackOk(s, task, handed, k);
    assert r.owners == Release(s.owners, task, keys);
    MarkedOwners(s, r, task, keys, k);
    MarkedExclusive(s, task, handed, k);
  }

  lemma MarkedHolds(stack: seq<Scope>, handed: set<Key>, now: nat, k: Key)
    ensures HeldIn(MarkAll(stack, handed, now), k) <==> HeldIn(stack, k) && k !in handed
    ensures k !in handed ==> forall j :: 0 <= j < |stack| ==>
      (HeldUpTo(MarkAll(stack, handed, now), j, k) <==> HeldUpTo(stack, j, k))
  {
    var marked := MarkAll(stack, handed, now);
    assert forall i :: 0 <= i < |stack| ==> (Holds(marked[i], k) <==> Holds(stack[i], k) && k !in handed);
  }

  lemma MarkedStackOk(s: State, task: Task, handed: set<Key>, k: Key)
    requires Inv(s, k)
    ensures var marked := MarkAll(Stack(s, task), handed, s.now);
      HolderIsOutermost(marked, k) && ClaimsAreHeld(marked, k) && TimesArePast(marked, s.now + 1)
  {
    var stack := Stack(s, task);
    var marked := MarkAll(stack, handed, s.now);
    assert StackOk(s, task, k);
    MarkedHolds(stack, handed, s.now, k);
    assert forall i :: 0 <= i < |stack| ==> (Holds(marked[i], k) ==> Holds(stack[i], k));
    forall j | 0 <= j < |marked| && Claims(marked[j], k) && k !in marked[j].handedAt
      ensures HeldUpTo(marked, j, k)
    {
      assert k !in handed && Claims(stack[j], k) && k !in stack[j].handedAt;
      assert HeldUpTo(stack, j, k);
    }
    forall i | 0 <= i < |marked|
      ensures TimeIsPast(marked[i], s.now + 1)
    {
      assert TimeIsPast(stack[i], s.now);
      MarkedTimes(stack[i], handed, s.now);
    }
  }

  lemma MarkedOwners(s: State, r: State, task: Task, keys: set<Key>, k: Key)
    requires Inv(s, k)
    requires r.owners == Release(s.owners, task, keys)
    requires Stack(r, task) == MarkAll(Stack(s, task), OwnedAmong(s.owners, task, keys), s.now)
    requires forall a: Task :: a != task ==> Stack(r, a) == Stack(s, a)
    ensures OwnerIsHolder(r, k)
  {
    MarkedHolds(Stack(s, task), OwnedAmong(s.owners, task, keys), s.now, k);
    forall a: Task
      ensures Owns(r, a, k) <==> HeldIn(Stack(r, a), k)
    {
      assert Owns(s, a, k) <==> HeldIn(Stack(s, a), k);
    }
  }

  lemma MarkedExclusive(s: State, task: Task, handed: set<Key>, k: Key)
    requires Inv(s, k) && (k in handed ==> Owns(s, task, k))
    ensures forall a: Task :: a != task ==> Exclusive(Stack(s, a), MarkAll(Stack(s, task), handed, s.now), k)
    ensures forall a: Task :: a != task ==> Exclusive(MarkAll(Stack(s, task), handed, s.now), Stack(s, a), k)
  {
    var stack := Stack(s, task);
    var marked := MarkAll(stack, handed, s.now);
    forall a: Task | a != task
      ensures Exclusive(Stack(s, a), marked, k) && Exclusive(marked, Stack(s, a), k)
    {
      var one := Stack(s, a);
      assert Exclusive(one, stack, k) && Exclusive(stack, one, k);
      forall i, j | 0 <= i < |one| && 0 <= j < |stack|
        ensures ExclusivePair(one[i], marked[j], k) && ExclusivePair(marked[j], one[i], k)
      {
        assert ExclusivePair(one[i], stack[j], k) && ExclusivePair(stack[j], one[i], k);
      }
    }
  }

  // --- All runs ----------------------------------------------------------------------------------

  lemma {:induction false} RunKeepsInv(events: seq<Event>, k: Key)
    ensures Inv(Run(events), k)
  {
    if events != [] {
      var s := Run(events[..|events| - 1]);
      RunKeepsInv(events[..|events| - 1], k);
      match events[|events| - 1]
      case Enter(task, keys) => EnterKeepsInv(s, task, keys, k);
      case Exit(task) => ExitKeepsInv(s, task, k);
      case HandOffKeys(task, keys) => HandOffKeepsInv(s, task, keys, k);
    }
  }

  /**
   In every run, two tasks have open admitted scopes on one message only if the one entered first
   handed the message off before the other was entered.
   */
  lemma TwoTasksOnlyAfterHandOff(events: seq<Event>, a: Task, b: Task, i: nat, j: nat, k: Key)
    requires a != b && i < |Stack(Run(events), a)| && j < |Stack(Run(events), b)|
    requires Claims(Stack(Run(events), a)[i], k) && Claims(Stack(Run(events), b)[j], k)
    ensures var one, other := Stack(Run(events), a)[i], Stack(Run(events), b)[j];
      HandedBetween(one, other, k) || HandedBetween(other, one, k)
  {
    var s := Run(events);
    RunKeepsInv(events, k);
    assert Exclusive(Stack(s, a), Stack(s, b), k) && Exclusive(Stack(s, b), Stack(s, a), k);
    assert ExclusivePair(Stack(s, a)[i], Stack(s, b)[j], k) && ExclusivePair(Stack(s, b)[j], Stack(s, a)[i], k);
  }

  /** An admitted scope's message stays with its task until it is handed off. */
  lemma ClaimIsOwned(events: seq<Event>, a: Task, j: nat, k: Key)
    requires j < |Stack(Run(events), a)|
    requires Claims(Stack(Run(events), a)[j], k) && k !in Stack(Run(events), a)[j].handedAt
    ensures Owns(Run(events), a, k)
  {
    RunKeepsInv(events, k);
    var s := Run(events);
    assert StackOk(s, a, k);
    assert HeldUpTo(Stack(s, a), j, k);
    assert HeldIn(Stack(s, a), k);
  }

  /** No ownership outlives the scopes that took it: an owned key is held by an open scope of its owner. */
  lemma NoLeak(events: seq<Event>, k: Key)
    requires k in Run(events).owners
    ensures HeldIn(Stack(Run(events), Run(events).owners[k]), k)
  {
    RunKeepsInv(events, k);
    assert Owns(Run(events), Run(events).owners[k], k);
  }

  /** A scope is refused exactly when an open scope of another task holds one of its messages. */
  lemma RefusedExactlyWhenBusy(events: seq<Event>, task: Task, keys: set<Key>)
    ensures !Admits(Run(events).owners, task, keys)
       <==> exists k, b: Task :: k in keys && b != task && HeldIn(Stack(Run(events), b), k)
  {
    var s := Run(events);
    if !Admits(s.owners, task, keys) {
      var k :| k in keys && k in s.owners && s.owners[k] != task;
      NoLeak(events, k);
    }
    if k, b: Task :| k in keys && b != task && HeldIn(Stack(s, b), k) {
      RunKeepsInv(events, k);
      assert Owns(s, b, k);
    }
  }

  /** Whatever one task does, scope exits however late included, another task keeps its keys. */
  lemma OthersKeepTheirKeys(s: State, e: Event, b: Task, k: Key)
    requires b != e.task && Owns(s, b, k)
    ensures Owns(Step(s, e), b, k)
  {
    if e.Enter? && Admits(s.owners, e.task, e.keys) {
      assert k in s.owners.Keys;
    }
  }
}
