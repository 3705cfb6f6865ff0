/**
 The gate that holds group messages back until the settings they depend on have been pulled
 again. Every pull has a generation; only the latest generation may open the gate.
 */
module SettingsGate {
  import opened Common
  import G = GroupSettings

  // --- The running code --------------------------------------------------------------------

  datatype Gate = Gate(ready: bool, latest: nat)

  function Released(gate: Gate, generation: nat): Gate {
    if generation == gate.latest then gate.(ready := true) else gate
  }

  class GroupSettingsGate {
    var ready: bool
    var fetchSequence: nat

    function State(): Gate
      reads this
    {
      Gate(ready, fetchSequence)
    }

    constructor ()
      ensures State() == Gate(false, 0)
    {
      ready, fetchSequence := false, 0;
    }

    /** The reconnect path closes the gate first and starts its pull later. */
    method ReconnectClears()
      modifies this
      ensures State() == Gate(false, old(fetchSequence))
    {
      ready := false;
    }

    method SpawnRefresh() returns (generation: nat)
      modifies this
      ensures State() == Gate(old(ready), old(fetchSequence) + 1) && generation == fetchSequence
    {
      fetchSequence := fetchSequence + 1;
      generation := fetchSequence;
    }

    /** A change signal does both at once. */
    method ConfigChanged() returns (generation: nat)
      modifies this
      ensures State() == Gate(false, old(fetchSequence) + 1) && generation == fetchSequence
    {
      ready := false;
      generation := SpawnRefresh();
    }

    method ReleaseIfLatest(generation: nat)
      modifies this
      ensures State() == Released(old(State()), generation)
    {
      if generation == fetchSequence {
        ready := true;
      }
    }

    /** The end of a pull: only an authoritative answer reaches the cache, any end may release. */
    method RefreshEnds(cache: G.GroupSettingsCache, generation: nat, answer: Option<seq<G.Row>>)
      modifies this, cache
      ensures State() == Released(old(State()), generation)
      ensures cache.State() == (if answer == None then old(cache.State())
        else G.Apply(old(cache.State()), G.Snapshot(answer.value, generation)))
    {
      if answer.Some? {
        cache.ApplyFetched(answer.value, generation);
      }
      ReleaseIfLatest(generation);
    }

    /** A message that has to wait notes the generation it waits for. */
    method BeginWait() returns (waited: Option<nat>)
      ensures waited == if ready then None else Some(fetchSequence)
    {
      waited := if ready then None else Some(fetchSequence);
    }

    method WaitTimedOut(waited: nat)
      modifies this
      ensures State() == Released(old(State()), waited)
    {
      ReleaseIfLatest(waited);
    }
  }

  // --- Runs ------------------------------------------------------------------------------------

  /** `answer` is the rows of an authoritative answer; anything else is no answer. */
  datatype Event =
    | Clear
    | Spawn
    | Signal
    | Ends(generation: nat, answer: Option<seq<G.Row>>)
    | Waits(waiter: nat)
    | TimesOut(waiter: nat)
    | Wakes(waiter: nat)

  datatype State = State(
    gate: Gate, inFlight: set<nat>, waiters: map<nat, nat>, cache: G.Cache, landed: seq<G.Snapshot>)

  const INITIAL := State(Gate(false, 0), {}, map[], G.EMPTY, [])

  function Started(s: State, ready: bool): State {
    s.(gate := Gate(ready, s.gate.latest + 1), inFlight := s.inFlight + {s.gate.latest + 1})
  }

  function Land(s: State, generation: nat, answer: Option<seq<G.Row>>): State {
    if answer == None then s
    else
      var snapshot := G.Snapshot(answer.value, generation);
      s.(cache := G.Apply(s.cache, snapshot), landed := s.landed + [snapshot])
  }

  function Step(s: State, e: Event): State {
    match e
    case Clear => s.(gate := Gate(false, s.gate.latest))
    case Spawn => Started(s, s.gate.ready)
    case Signal => Started(s, false)
    case Ends(generation, answer) =>
      if generation !in s.inFlight then s
      else Land(s, generation, answer).(gate := Released(s.gate, generation), inFlight := s.inFlight - {generation})
    case Waits(w) => if s.gate.ready || w in s.waiters then s else s.(waiters := s.waiters[w := s.gate.latest])
    case TimesOut(w) =>
      if w !in s.waiters then s else s.(gate := Released(s.gate, s.waiters[w]), waiters := s.waiters - {w})
    case Wakes(w) => if s.gate.ready then s.(waiters := s.waiters - {w}) else s
  }

  function RunFrom(s: State, events: seq<Event>): State {
    if events == [] then s else Step(RunFrom(s, events[..|events| - 1]), Last(events))
  }

  function Run(events: seq<Event>): State {
    RunFrom(INITIAL, events)
  }

  // --- The cache in every run ------------------------------------------------------------------

  /** No answer is from a generation still in flight or not yet started. */
  ghost predicate Inv(s: State) {
    && (forall g :: g in s.inFlight ==> 0 < g <= s.gate.latest)
    && (forall w :: w in s.waiters ==> s.waiters[w] <= s.gate.latest)
    && (forall t :: t in s.landed ==> 0 < t.sequence <= s.gate.latest && t.sequence !in s.inFlight)
    && G.Sequenced(s.landed)
    && s.cache == G.After(s.landed)
  }

  lemma LandKeepsInv(s: State, generation: nat, answer: Option<seq<G.Row>>)
    requires Inv(s) && generation in s.inFlight
    ensures Inv(Step(s, Ends(generation, answer)))
  {
    if answer.Some? {
      var snapshot := G.Snapshot(answer.value, generation);
      var landed := s.landed + [snapshot];
      assert landed[..|s.landed|] == s.landed && Last(landed) == snapshot;
      forall i | 0 <= i < |s.landed|
        ensures landed[i].sequence != generation
      {
        assert s.landed[i] in s.landed;
      }
    }
  }

  lemma StartKeepsInv(s: State, ready: bool)
    requires Inv(s)
    ensures Inv(Started(s, ready))
  {
  }

  lemma StepKeepsInv(s: State, e: Event)
    requires Inv(s)
    ensures Inv(Step(s, e))
  {
    match e
    case Spawn => StartKeepsInv(s, s.gate.ready);
    case Signal => StartKeepsInv(s, false);
    case Ends(generation, answer) =>
      if generation in s.inFlight {
        LandKeepsInv(s, generation, answer);
      }
    case _ =>
  }

  lemma {:induction false} RunKeepsInv(events: seq<Event>)
    ensures Inv(Run(events))
  {
    if events != [] {
      var s, e := Run(events[..|events| - 1]), Last(events);
      RunKeepsInv(events[..|events| - 1]);
      StepKeepsInv(s, e);
    }
  }

  /**
   In every run the cache is the snapshot of the latest generation that has been answered so far,
   however the answers were ordered.
   */
  lemma CacheAgreesWithNewestAnswer(events: seq<Event>)
    ensures var s := Run(events);
      if s.landed == [] then s.cache == G.EMPTY
      else exists t :: G.Newest(s.landed, t) && s.cache == G.CacheOf(t)
  {
    RunKeepsInv(events);
    var s := Run(events);
    if s.landed != [] {
      var t := G.CacheIsNewest(s.landed);
    }
  }

  // --- When the gate opens -----------------------------------------------------------------------

  /** The event releases the generation that is the latest in this state. */
  predicate Releases(s: State, e: Event) {
    match e
    case Ends(generation, _) => generation in s.inFlight && generation == s.gate.latest
    case TimesOut(w) => w in s.waiters && s.waiters[w] == s.gate.latest
    case _ => false
  }

  /** Nothing but a release of the latest generation opens a closed gate. */
  lemma OnlyLatestOpens(s: State, e: Event)
    requires !s.gate.ready
    ensures Step(s, e).gate.ready <==> Releases(s, e)
  {
  }

  predicate Closes(e: Event) {
    e.Clear? || e.Signal?
  }

  predicate ReleasesAt(s: State, events: seq<Event>, i: nat)
    requires i < |events|
  {
    Releases(RunFrom(s, events[..i]), events[i])
  }

  /** From a closed gate, while nothing closes it again, it is open exactly when some event released. */
  lemma {:induction false} ShutUntilReleased(s: State, events: seq<Event>)
    requires !s.gate.ready && forall i :: 0 <= i < |events| ==> !Closes(events[i])
    ensures RunFrom(s, events).gate.ready <==> exists i :: 0 <= i < |events| && ReleasesAt(s, events, i)
  {
    if events != [] {
      var n := |events| - 1;
      var before := events[..n];
      ShutUntilReleased(s, before);
      forall i | 0 <= i < n
        ensures ReleasesAt(s, events, i) <==> ReleasesAt(s, before, i)
      {
        assert before[..i] == events[..i];
      }
      assert ReleasesAt(s, events, n) <==> Releases(RunFrom(s, before), events[n]);
      if RunFrom(s, before).gate.ready {
        var i :| 0 <= i < n && ReleasesAt(s, before, i);
        assert ReleasesAt(s, events, i);
      } else {
        OnlyLatestOpens(RunFrom(s, before), events[n]);
        assert forall i :: 0 <= i < n ==> !ReleasesAt(s, before, i);
      }
    }
  }

  predicate Starts(e: Event) {
    e.Spawn? || e.Signal?
  }

  lemma {:induction false} LatestStays(s: State, events: seq<Event>)
    requires forall i :: 0 <= i < |events| ==> !Starts(events[i])
    ensures RunFrom(s, events).gate.latest == s.gate.latest
  {
    if events != [] {
      LatestStays(s, events[..|events| - 1]);
    }
  }

  /**
   After a change signal, until a newer pull starts or something closes the gate again, the gate
   is open exactly when the signal's own pull has ended or a waiter on that same generation has
   timed out.
   */
  lemma SignalKeepsGateShut(s: State, later: seq<Event>)
    requires forall i :: 0 <= i < |later| ==> !Closes(later[i]) && !Starts(later[i])
    ensures var t := Step(s, Signal);
      RunFrom(t, later).gate.ready <==> exists i :: 0 <= i < |later| && FreesGeneration(t, later, i, t.gate.latest)
  {
    var t := Step(s, Signal);
    ShutUntilReleased(t, later);
    forall i | 0 <= i < |later|
      ensures ReleasesAt(t, later, i) <==> FreesGeneration(t, later, i, t.gate.latest)
    {
      LatestStays(t, later[..i]);
    }
  }

  /** The event ends the pull of this generation, or times out a waiter on it. */
  predicate FreesGeneration(s: State, events: seq<Event>, i: nat, generation: nat)
    requires i < |events|
  {
    var at := RunFrom(s, events[..i]);
    match events[i]
    case Ends(g, _) => g == generation && g in at.inFlight
    case TimesOut(w) => w in at.waiters && at.waiters[w] == generation
    case _ => false
  }

  /**
   The reconnect path: whatever happens between its clear and its spawn, the gate is open right
   after the spawn exactly when in that gap the previous pull ended or a waiter on the previous
   generation timed out. The new pull is then not waited for.
   */
  lemma ReconnectGap(s: State, gap: seq<Event>)
    requires forall i :: 0 <= i < |gap| ==> !Closes(gap[i]) && !Starts(gap[i])
    ensures var t := Step(s, Clear);
      RunFrom(t, gap + [Spawn]).gate.ready <==> exists i :: 0 <= i < |gap| && FreesGeneration(t, gap, i, s.gate.latest)
  {
    var t := Step(s, Clear);
    ShutUntilReleased(t, gap);
    assert (gap + [Spawn])[..|gap|] == gap;
    forall i | 0 <= i < |gap|
      ensures ReleasesAt(t, gap, i) <==> FreesGeneration(t, gap, i, t.gate.latest)
    {
      LatestStays(t, gap[..i]);
    }
  }

  /** With no wait in the gap, or with nothing in flight and nobody waiting, the gap is harmless. */
  lemma QuietGapStaysShut(s: State, gap: seq<Event>)
    requires s.gate.latest !in s.inFlight && forall w :: w in s.waiters ==> s.waiters[w] != s.gate.latest
    requires forall i :: 0 <= i < |gap| ==> !Closes(gap[i]) && !Starts(gap[i]) && !gap[i].TimesOut?
    ensures !RunFrom(Step(s, Clear), gap + [Spawn]).gate.ready
  {
    var t := Step(s, Clear);
    ReconnectGap(s, gap);
    forall i | 0 <= i < |gap|
      ensures !FreesGeneration(t, gap, i, s.gate.latest)
    {
      NothingNewInFlight(t, gap[..i]);
    }
  }

  lemma {:induction false} NothingNewInFlight(s: State, events: seq<Event>)
    requires forall i :: 0 <= i < |events| ==> !Starts(events[i])
    ensures RunFrom(s, events).inFlight <= s.inFlight
  {
    if events != [] {
      NothingNewInFlight(s, events[..|events| - 1]);
    }
  }

  /** A run in which a reconnect leaves the gate open while its own pull is still under way. */
  lemma ReconnectCanOpenEarly()
    ensures var s := Run([Signal, Clear, Ends(1, None), Spawn]); s.gate.ready && s.gate.latest == 2 && 2 in s.inFlight
  {
    var one: seq<Event> := [Signal];
    var two := one + [Clear];
    var three := two + [Ends(1, None)];
    var four := three + [Spawn];
    assert one[..0] == [] && two[..1] == one && three[..2] == two && four[..3] == three;
    assert Run(one) == Step(INITIAL, Signal);
    assert Run(two) == Step(Run(one), Clear);
    assert Run(three) == Step(Run(two), Ends(1, None));
    assert four == [Signal, Clear, Ends(1, None), Spawn];
  }
}
