/**
 Refreshing the access token until it works. Times are in milliseconds. After an attempt that
 may have rotated the token on the server the next one is held back, so that replays of the
 same refresh token keep their distance.
 */
module TokenRefresh {
  import opened Common

  const BACKOFF_CAP := 30_000
  const BACKOFF_BASE := 1_000
  const ATTEMPT_CEILING := 20_000
  const UNKNOWN_SPACING := 30_000
  const UNKNOWN_JITTER_LOW := 1_000
  const UNKNOWN_JITTER_HIGH := 5_000

  const CODE_INTERNAL := 1
  const CODE_BAD_REQUEST := 400
  const CODE_INVALID_REFRESH := 10003

  // --- Failures -------------------------------------------------------------------------------

  /** The envelope's code if it is an integer, and the HTTP status if there was one. */
  datatype ApiError = ApiError(code: Option<int>, status: Option<int>, connectFailed: bool)

  datatype Reply = Rotated | Skipped | Failed(error: ApiError)

  predicate Permanent(e: ApiError) {
    e.code == Some(CODE_INVALID_REFRESH)
    || (e.code == Some(CODE_BAD_REQUEST) && (e.status == None || e.status == Some(200)))
  }

  /** The failed attempt may have rotated the token. */
  predicate OutcomeUnknown(e: ApiError) {
    !e.connectFailed && e.code != Some(CODE_INTERNAL)
  }

  // --- Delays ---------------------------------------------------------------------------------

  function PowerOfTwo(n: nat): (p: nat)
    ensures p >= 1
  {
    if n == 0 then 1 else 2 * PowerOfTwo(n - 1)
  }

  function BackoffBase(attempt: nat): int {
    Min(BACKOFF_CAP, BACKOFF_BASE * PowerOfTwo(if attempt == 0 then 0 else attempt - 1))
  }

  function Backoff(attempt: nat, jitter: int): int {
    Max(0, Min(BACKOFF_CAP, BackoffBase(attempt) + jitter))
  }

  /**
   Everything one turn of the loop does not decide itself: the reply and how long it took, the
   three answers whether to go on and how long each took, the two random numbers, and by how much
   the sleep overran.
   */
  datatype Round = Round(
    reply: Reply, duration: nat,
    goOn: bool, pause: nat,
    jitter: int, spacingJitter: int,
    goSleep: bool, pauseBeforeSleep: nat,
    oversleep: nat,
    goAgain: bool, pauseAfterSleep: nat)

  predicate RoundOk(round: Round, attempt: nat) {
    && 0 - BackoffBase(attempt) <= 4 * round.jitter <= BackoffBase(attempt)
    && UNKNOWN_JITTER_LOW <= round.spacingJitter <= UNKNOWN_JITTER_HIGH
  }

  predicate RoundsOk(rounds: seq<Round>) {
    forall i :: 0 <= i < |rounds| ==> RoundOk(rounds[i], i + 1)
  }

  predicate Unknown(round: Round) {
    round.reply.Failed? && OutcomeUnknown(round.reply.error)
  }

  /** Time between the start of an attempt and the moment its delay is worked out. */
  function Elapsed(round: Round): nat {
    round.duration + round.pause
  }

  function Delay(round: Round, attempt: nat): int {
    var backoff := Backoff(attempt, round.jitter);
    if Unknown(round) then Max(backoff, UNKNOWN_SPACING + round.spacingJitter - Elapsed(round)) else backoff
  }

  function NextStart(started: int, round: Round, attempt: nat): int {
    var delay := Delay(round, attempt);
    var sleep := if delay == 0 then 0 else delay + round.oversleep;
    started + Elapsed(round) + round.pauseBeforeSleep + sleep + round.pauseAfterSleep
  }

  // --- The loop --------------------------------------------------------------------------------

  datatype Outcome = Refreshed | SkippedRefresh | GaveUp(error: ApiError) | StillTrying

  /** How the loop ends in this round, or that it goes on. */
  function Verdict(round: Round, attempt: nat, maxRetries: Option<nat>): Outcome {
    match round.reply
    case Rotated => Refreshed
    case Skipped => SkippedRefresh
    case Failed(error) =>
      if Permanent(error) || !round.goOn || (maxRetries.Some? && attempt > maxRetries.value)
         || !round.goSleep || !round.goAgain
      then GaveUp(error) else StillTrying
  }

  /** The start times of the attempts made. */
  function Starts(rounds: seq<Round>, attempt: nat, maxRetries: Option<nat>, started: int): (starts: seq<int>)
    ensures |starts| <= |rounds|
  {
    if rounds == [] then []
    else if Verdict(rounds[0], attempt + 1, maxRetries) != StillTrying then [started]
    else [started] + Starts(rounds[1..], attempt + 1, maxRetries, NextStart(started, rounds[0], attempt + 1))
  }

  /** One turn of the loop: an attempt, and after a transient failure the wait. */
  method TryOnce(round: Round, retries: nat, maxRetries: Option<nat>, started: int)
    returns (outcome: Outcome, clock: int)
    ensures outcome == Verdict(round, retries + 1, maxRetries)
    ensures outcome == StillTrying ==> clock == NextStart(started, round, retries + 1)
  {
    clock := started + round.duration;
    match round.reply {
      case Rotated =>
        return Refreshed, clock;
      case Skipped =>
        return SkippedRefresh, clock;
      case Failed(error) =>
        if Permanent(error) || !round.goOn {
          return GaveUp(error), clock;
        }
        clock := clock + round.pause;
        var attempt := retries + 1;
        if maxRetries.Some? && attempt > maxRetries.value {
          return GaveUp(error), clock;
        }
        var delay := Backoff(attempt, round.jitter);
        if OutcomeUnknown(error) {
          var spacing := UNKNOWN_SPACING + round.spacingJitter;
          delay := Max(delay, spacing - (clock - started));
        }
        if !round.goSleep {
          return GaveUp(error), clock;
        }
        clock := clock + round.pauseBeforeSleep;
        if delay != 0 {
          clock := clock + delay + round.oversleep;
        }
        if !round.goAgain {
          return GaveUp(error), clock;
        }
        clock := clock + round.pauseAfterSleep;
        outcome := StillTrying;
    }
  }

  lemma StartsUnfold(rounds: seq<Round>, attempt: nat, maxRetries: Option<nat>, clock: int, before: seq<int>)
    requires attempt < |rounds|
    ensures before + Starts(rounds[attempt..], attempt, maxRetries, clock)
         == if Verdict(rounds[attempt], attempt + 1, maxRetries) != StillTrying then before + [clock]
            else
              var next := NextStart(clock, rounds[attempt], attempt + 1);
              before + [clock] + Starts(rounds[attempt + 1..], attempt + 1, maxRetries, next)
  {
    var left := rounds[attempt..];
    assert left[0] == rounds[attempt] && left[1..] == rounds[attempt + 1..];
  }

  /** Runs the loop through the rounds given, which need not be enough for it to end. */
  method AuthRefreshWithRetry(rounds: seq<Round>, maxRetries: Option<nat>, now: int)
    returns (outcome: Outcome, starts: seq<int>)
    ensures starts == Starts(rounds, 0, maxRetries, now)
    ensures outcome == if starts == [] then StillTrying else Verdict(rounds[|starts| - 1], |starts|, maxRetries)
    ensures outcome == StillTrying ==> |starts| == |rounds|
  {
    var attempt: nat := 0;
    var clock := now;
    outcome, starts := StillTrying, [];
    while attempt < |rounds|
      invariant attempt <= |rounds| && |starts| == attempt
      invariant starts + Starts(rounds[attempt..], attempt, maxRetries, clock) == Starts(rounds, 0, maxRetries, now)
      invariant outcome == StillTrying
      invariant (attempt > 0 ==> Verdict(rounds[attempt - 1], attempt, maxRetries) == StillTrying)
    {
      StartsUnfold(rounds, attempt, maxRetries, clock, starts);
      starts := starts + [clock];
      outcome, clock := TryOnce(rounds[attempt], attempt, maxRetries, clock);
      attempt := attempt + 1;
      if outcome != StillTrying {
        return;
      }
    }
  }

  // --- Spacing ----------------------------------------------------------------------------------

  lemma BackoffIsPositive(attempt: nat, jitter: int)
    requires 0 - BackoffBase(attempt) <= 4 * jitter <= BackoffBase(attempt)
    ensures BACKOFF_BASE <= BackoffBase(attempt) <= BACKOFF_CAP
    ensures 3 * BACKOFF_BASE <= 4 * Backoff(attempt, jitter)
    ensures 3 * BackoffBase(attempt) <= 4 * Backoff(attempt, jitter) <= 5 * BackoffBase(attempt)
  {
  }

  /** One second at first, then twice as much each time, up to 30 s. */
  lemma BackoffDoubles(attempt: nat)
    requires attempt >= 1
    ensures BackoffBase(1) == 1_000 && BackoffBase(attempt + 1) == Min(30_000, 2 * BackoffBase(attempt))
  {
    assert PowerOfTwo(attempt) == 2 * PowerOfTwo(attempt - 1) && PowerOfTwo(0) == 1;
  }

  /** The attempt after one of unknown outcome starts 31 s or more after it. */
  lemma UnknownIsSpaced(started: int, round: Round, attempt: nat)
    requires RoundOk(round, attempt)
    ensures NextStart(started, round, attempt) > started
    ensures Unknown(round) ==> NextStart(started, round, attempt) >= started + UNKNOWN_SPACING + UNKNOWN_JITTER_LOW
  {
    BackoffIsPositive(attempt, round.jitter);
  }

  /**
   A failed attempt is held back for the spacing if and only if it reached the server and the server
   did not say that nothing was rotated: even when nothing else takes a second, the next one then
   starts 31 s or more after it, and otherwise within 31 s.
   */
  lemma HeldBackExactlyWhen(started: int, round: Round, attempt: nat)
    requires RoundOk(round, attempt) && round.reply.Failed?
    requires Elapsed(round) + round.pauseBeforeSleep + round.oversleep + round.pauseAfterSleep < 1_000
    ensures NextStart(started, round, attempt) >= started + 31_000
       <==> !round.reply.error.connectFailed && round.reply.error.code != Some(1)
  {
    BackoffIsPositive(attempt, round.jitter);
  }

  /** One attempt after another, as the loop starts them. */
  lemma {:induction false} StartsFollow(rounds: seq<Round>, attempt: nat, maxRetries: Option<nat>, started: int, i: nat)
    requires i + 1 < |Starts(rounds, attempt, maxRetries, started)|
    ensures var starts := Starts(rounds, attempt, maxRetries, started);
      && starts[i + 1] == NextStart(starts[i], rounds[i], attempt + i + 1)
      && Verdict(rounds[i], attempt + i + 1, maxRetries) == StillTrying
  {
    if i > 0 {
      StartsFollow(rounds[1..], attempt + 1, maxRetries, NextStart(started, rounds[0], attempt + 1), i - 1);
    }
  }

  function UnknownCount(rounds: seq<Round>): nat {
    if rounds == [] then 0 else UnknownCount(rounds[..|rounds| - 1]) + (if Unknown(Last(rounds)) then 1 else 0)
  }

  /** Between two attempts lie 31 s for each one of unknown outcome from the first on. */
  lemma {:induction false} UnknownsSpreadOut(rounds: seq<Round>, maxRetries: Option<nat>, now: int, i: nat, j: nat)
    requires RoundsOk(rounds) && i <= j < |Starts(rounds, 0, maxRetries, now)|
    ensures var starts := Starts(rounds, 0, maxRetries, now);
      starts[j] - starts[i] >= (UNKNOWN_SPACING + UNKNOWN_JITTER_LOW) * UnknownCount(rounds[i..j])
    decreases j
  {
    hide Starts, NextStart, UnknownCount;
    var starts := Starts(rounds, 0, maxRetries, now);
    if i == j {
      NoneUnknown(rounds, i);
    } else {
      UnknownsSpreadOut(rounds, maxRetries, now, i, j - 1);
      StartsFollow(rounds, 0, maxRetries, now, j - 1);
      UnknownIsSpaced(starts[j - 1], rounds[j - 1], j);
      OneMoreUnknown(rounds, i, j);
      OneMoreGap(starts[i], starts[j - 1], starts[j], UnknownCount(rounds[i..j - 1]), Unknown(rounds[j - 1]));
    }
  }

  lemma NoneUnknown(rounds: seq<Round>, i: nat)
    requires i <= |rounds|
    ensures UnknownCount(rounds[i..i]) == 0
  {
  }

  lemma OneMoreGap(first: int, previous: int, next: int, count: nat, unknown: bool)
    requires previous - first >= (UNKNOWN_SPACING + UNKNOWN_JITTER_LOW) * count && next > previous
    requires unknown ==> next >= previous + UNKNOWN_SPACING + UNKNOWN_JITTER_LOW
    ensures next - first >= (UNKNOWN_SPACING + UNKNOWN_JITTER_LOW) * (count + (if unknown then 1 else 0))
  {
  }

  lemma OneMoreUnknown(rounds: seq<Round>, i: nat, j: nat)
    requires i < j <= |rounds|
    ensures UnknownCount(rounds[i..j]) == UnknownCount(rounds[i..j - 1]) + (if Unknown(rounds[j - 1]) then 1 else 0)
  {
    assert rounds[i..j][..j - i - 1] == rounds[i..j - 1];
  }

  /** Attempts that start within less than 93 s of each other include at most three of unknown outcome. */
  lemma WindowHoldsThreeUnknowns(rounds: seq<Round>, maxRetries: Option<nat>, now: int, i: nat, j: nat)
    requires RoundsOk(rounds) && i <= j < |Starts(rounds, 0, maxRetries, now)|
    requires Starts(rounds, 0, maxRetries, now)[j] - Starts(rounds, 0, maxRetries, now)[i] < 93_000
    ensures UnknownCount(rounds[i..j + 1]) <= 3
  {
    UnknownsSpreadOut(rounds, maxRetries, now, i, j);
    assert rounds[i..j + 1][..j - i] == rounds[i..j];
  }

  // --- The replay schedule -----------------------------------------------------------------------

  /** Unknown outcome, decided within the attempt ceiling, and an exact sleep. */
  predicate Prompt(round: Round) {
    && Unknown(round)
    && Elapsed(round) <= ATTEMPT_CEILING
    && round.pauseBeforeSleep == 0 && round.oversleep == 0 && round.pauseAfterSleep == 0
  }

  lemma FirstBackoffs(attempt: nat)
    requires 1 <= attempt <= 4
    ensures BackoffBase(attempt) <= 8_000
  {
    assert PowerOfTwo(0) == 1 && PowerOfTwo(1) == 2 && PowerOfTwo(2) == 4 && PowerOfTwo(3) == 8;
  }

  lemma PromptIsOnTime(started: int, round: Round, attempt: nat)
    requires RoundOk(round, attempt) && Prompt(round) && 1 <= attempt <= 4
    ensures NextStart(started, round, attempt) == started + UNKNOWN_SPACING + round.spacingJitter
  {
    FirstBackoffs(attempt);
    BackoffIsPositive(attempt, round.jitter);
  }

  /** With every outcome unknown and prompt, the k-th of the first four replays starts 31k to 35k seconds in. */
  lemma {:induction false} ReplaySchedule(rounds: seq<Round>, maxRetries: Option<nat>, now: int, k: nat)
    requires RoundsOk(rounds) && k < |Starts(rounds, 0, maxRetries, now)| && k <= 4
    requires forall i :: 0 <= i < k ==> Prompt(rounds[i])
    ensures now + 31_000 * k <= Starts(rounds, 0, maxRetries, now)[k] <= now + 35_000 * k
  {
    if k > 0 {
      var starts := Starts(rounds, 0, maxRetries, now);
      ReplaySchedule(rounds, maxRetries, now, k - 1);
      StartsFollow(rounds, 0, maxRetries, now, k - 1);
      PromptIsOnTime(starts[k - 1], rounds[k - 1], k);
    }
  }

  /** So the first two replays fall into the server's 90 s window and the third does not. */
  lemma TwoReplaysInGraceWindow(rounds: seq<Round>, maxRetries: Option<nat>, now: int)
    requires RoundsOk(rounds) && |Starts(rounds, 0, maxRetries, now)| >= 4
    requires forall i :: 0 <= i < 3 ==> Prompt(rounds[i])
    ensures var starts := Starts(rounds, 0, maxRetries, now);
      && now + 31_000 <= starts[1] <= now + 35_000
      && now + 62_000 <= starts[2] <= now + 70_000
      && now + 93_000 <= starts[3]
  {
    ReplaySchedule(rounds, maxRetries, now, 1);
    ReplaySchedule(rounds, maxRetries, now, 2);
    ReplaySchedule(rounds, maxRetries, now, 3);
  }

  /** Only transient failures are tried again, and at most as often as allowed. */
  lemma OnlyTransientIsRetried(rounds: seq<Round>, maxRetries: Option<nat>, now: int)
    ensures var starts := Starts(rounds, 0, maxRetries, now);
      && (forall i :: 0 <= i && i + 1 < |starts| ==> rounds[i].reply.Failed? && !Permanent(rounds[i].reply.error))
      && (maxRetries.Some? ==> |starts| <= maxRetries.value + 1)
  {
    var starts := Starts(rounds, 0, maxRetries, now);
    forall i | 0 <= i && i + 1 < |starts|
      ensures rounds[i].reply.Failed? && !Permanent(rounds[i].reply.error)
      ensures maxRetries.Some? ==> i + 1 <= maxRetries.value
    {
      StartsFollow(rounds, 0, maxRetries, now, i);
    }
    if |starts| >= 2 {
      StartsFollow(rounds, 0, maxRetries, now, |starts| - 2);
    }
  }

  /** Code 10003, or code 400 with the HTTP status 200 or none. */
  predicate SignsOut(reply: Reply) {
    reply.Failed?
    && (reply.error.code == Some(10003)
        || (reply.error.code == Some(400) && reply.error.status in {None, Some(200)}))
  }

  predicate Willing(round: Round) {
    round.goOn && round.goSleep && round.goAgain
  }

  predicate MayGoOn(rounds: seq<Round>, n: nat)
    requires n <= |rounds|
  {
    forall i :: 0 <= i < n ==> rounds[i].reply.Failed? && !SignsOut(rounds[i].reply) && Willing(rounds[i])
  }

  /** An attempt is made exactly when all before it failed with another error than these, the caller
      agreed each time, and the number of retries allows it. */
  lemma {:induction false} AttemptedExactlyWhen(
      rounds: seq<Round>, made: nat, maxRetries: Option<nat>, now: int, k: nat)
    requires k < |rounds|
    ensures k < |Starts(rounds, made, maxRetries, now)|
       <==> MayGoOn(rounds, k) && (k > 0 && maxRetries.Some? ==> made + k <= maxRetries.value)
  {
    hide Verdict, NextStart;
    if k > 0 {
      var rest, next := rounds[1..], NextStart(now, rounds[0], made + 1);
      AttemptedExactlyWhen(rest, made + 1, maxRetries, next, k - 1);
      MayGoOnFirst(rounds, k);
      GoesOnExactlyWhen(rounds[0], made + 1, maxRetries);
    }
  }

  lemma MayGoOnFirst(rounds: seq<Round>, k: nat)
    requires 0 < k <= |rounds|
    ensures MayGoOn(rounds, k) <==> MayGoOn(rounds, 1) && MayGoOn(rounds[1..], k - 1)
  {
    assert forall i :: 1 <= i < k ==> rounds[i] == rounds[1..][i - 1];
  }

  lemma GoesOnExactlyWhen(round: Round, attempt: nat, maxRetries: Option<nat>)
    ensures Verdict(round, attempt, maxRetries) == StillTrying
      <==> round.reply.Failed? && !SignsOut(round.reply) && Willing(round)
           && (maxRetries.Some? ==> attempt <= maxRetries.value)
  {
  }
}
