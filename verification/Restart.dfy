/** What happens after the client stops on its own (`restart.rs`): restart or not, and how long to
    wait. Seconds are reals; what the kick tables find in a message is given. */
module Restart {
  import opened Wrappers

  // --- The wait before a restart -----------------------------------------------------------------

  datatype Seconds = Finite(seconds: real) | NotFinite

  const DEFAULT_DELAY_MIN: real := 5.0
  const DEFAULT_DELAY_MAX: real := 10.0
  const BACKOFF_STEPS: seq<real> := [60.0, 90.0, 120.0, 180.0, 240.0]
  const DOUBLINGS: nat := 32

  datatype Schedule = Schedule(
    floor: real,
    ceiling: real,
    ramp: nat,
    steps: seq<real>,
    stableAfter: real)
  {
    /** Durations are not negative, and the steps do not go down. */
    predicate Sound() {
      && 0.0 <= floor && 0.0 <= ceiling
      && forall i, j :: 0 <= i <= j < |steps| ==> 0.0 <= steps[i] <= steps[j]
    }

    function Steps(): seq<real> { if steps == [] then BACKOFF_STEPS else steps }
  }

  function Max(a: real, b: real): real { if a < b then b else a }

  function Min(a: real, b: real): real { if a < b then a else b }

  function Clamp(x: real, low: real, high: real): real
    requires low <= high
  {
    Max(low, Min(x, high))
  }

  function Bound(s: Schedule, stored: Seconds, fallback: real): real {
    Clamp(match stored case Finite(x) => x case NotFinite => fallback, s.floor, Max(s.ceiling, s.floor))
  }

  /** The account's shortest and longest delay, in bounds and in order. */
  function Range(s: Schedule, delayMin: Seconds, delayMax: Seconds): (range: (real, real))
    ensures s.floor <= range.0 <= range.1 <= Max(s.ceiling, s.floor)
  {
    var a, b := Bound(s, delayMin, DEFAULT_DELAY_MIN), Bound(s, delayMax, DEFAULT_DELAY_MAX);
    (Min(a, b), Max(a, b))
  }

  function Power2(n: nat): real { if n == 0 then 1.0 else 2.0 * Power2(n - 1) }

  /** `x` doubled `n` times. */
  function Doubled(x: real, n: nat): real { if n == 0 then x else 2.0 * Doubled(x, n - 1) }

  lemma {:induction false} DoubledIsPower(x: real, n: nat)
    ensures Doubled(x, n) == x * Power2(n)
  {
    if n > 0 {
      DoubledIsPower(x, n - 1);
      assert x * (2.0 * Power2(n - 1)) == 2.0 * (x * Power2(n - 1));
    }
  }

  /** The restart whose doubled delay first reaches the first step: no later than the 32nd. */
  function Reached(shortest: real, first: real, from: nat): nat
    decreases DOUBLINGS - from
  {
    if Doubled(shortest, from) < first && from + 1 < DOUBLINGS then Reached(shortest, first, from + 1)
    else from + 1
  }

  /** 1, 2, 4, ... times the shortest delay up to the first step, then one step per failure. */
  function BackoffOf(s: Schedule, shortest: real, attempt: nat): real {
    var steps := s.Steps();
    WaitAt(steps, shortest, Reached(shortest, steps[0], 0), if attempt < 1 then 1 else attempt)
  }

  function WaitAt(steps: seq<real>, shortest: real, reached: nat, n: nat): real
    requires steps != [] && n >= 1
  {
    if n <= reached then Min(Doubled(shortest, n - 1), steps[0])
    else steps[if n - reached < |steps| then n - reached else |steps| - 1]
  }

  /** `x * 2^n`, as the code computes it. */
  method TimesPower(x: real, n: nat) returns (r: real)
    ensures r == Doubled(x, n)
  {
    DoubledIsPower(x, n);
    r := x * Power2(n);
  }

  /** `backoff`. */
  method Backoff(s: Schedule, shortest: real, attempt: nat) returns (wait: real)
    ensures wait == BackoffOf(s, shortest, attempt)
  {
    var steps := if s.steps == [] then BACKOFF_STEPS else s.steps;
    var first := steps[0];
    var n := if attempt < 1 then 1 else attempt;
    var reached, doubled := 1, shortest;
    while doubled < first && reached < DOUBLINGS
      invariant 1 <= reached <= DOUBLINGS
      invariant doubled == Doubled(shortest, reached - 1)
      invariant Reached(shortest, first, 0) == Reached(shortest, first, reached - 1)
      decreases DOUBLINGS - reached
    {
      doubled := doubled * 2.0;
      reached := reached + 1;
    }
    if n <= reached {
      wait := TimesPower(shortest, n - 1);
      return Min(wait, first);
    }
    var step := n - reached;
    if step > |steps| - 1 {
      step := |steps| - 1;
    }
    return steps[step];
  }

  function Fraction(ramp: nat, attempt: nat): real {
    if ramp <= 1 then 1.0
    else
      var clamped := if attempt < 1 then 1 else if attempt > ramp then ramp else attempt;
      (clamped - 1) as real / (ramp - 1) as real
  }

  function Mix(low: real, high: real, fraction: real): real { low + (high - low) * fraction }

  /** `delay`: seconds before restart number `attempt`. */
  function Delay(s: Schedule, delayMin: Seconds, delayMax: Seconds, attempt: nat): real {
    var (shortest, longest) := Range(s, delayMin, delayMax);
    Clamp(Max(Mix(shortest, longest, Fraction(s.ramp, attempt)), BackoffOf(s, shortest, attempt)),
          s.floor, Max(s.ceiling, s.floor))
  }

  function Factor(spread: Seconds): (f: real)
    ensures 0.8 <= f <= 1.2
  {
    0.8 + 0.4 * (match spread case Finite(x) => Clamp(x, 0.0, 1.0) case NotFinite => 0.5)
  }

  function Spread(delay: real, spread: Seconds): real { delay * Factor(spread) }

  function SpreadDelay(s: Schedule, delayMin: Seconds, delayMax: Seconds, attempt: nat, spread: Seconds): real {
    Spread(Delay(s, delayMin, delayMax, attempt), spread)
  }

  // --- What the wait keeps -----------------------------------------------------------------------

  lemma {:induction false} DoubledGrows(x: real, m: nat, n: nat)
    requires 0.0 <= x && m <= n
    ensures x <= Doubled(x, m) <= Doubled(x, n)
  {
    if n > 0 {
      DoubledGrows(x, 0, n - 1);
      if m < n { DoubledGrows(x, m, n - 1); }
    }
  }

  lemma Scale(x: real, a: real, b: real)
    requires 0.0 <= x && a <= b
    ensures x * a <= x * b
  {}

  lemma MixGrows(low: real, high: real, f: real, g: real)
    requires low <= high && 0.0 <= f <= g
    ensures low <= Mix(low, high, f) <= Mix(low, high, g)
  {
    Scale(high - low, 0.0, f);
    Scale(high - low, f, g);
  }

  /** `Reached` is the first restart that gets to the step, unless none of the first 32 does. */
  lemma {:induction false} ReachedFirst(shortest: real, first: real, from: nat)
    requires from < DOUBLINGS
    ensures var reached := Reached(shortest, first, from);
      && from < reached <= DOUBLINGS
      && (reached < DOUBLINGS ==> Doubled(shortest, reached - 1) >= first)
      && (forall n: nat :: from <= n < reached - 1 ==> Doubled(shortest, n) < first)
    decreases DOUBLINGS - from
  {
    if Doubled(shortest, from) < first && from + 1 < DOUBLINGS {
      ReachedFirst(shortest, first, from + 1);
    }
  }

  /** Every further failure in a row waits at least as long. */
  lemma BackoffGrows(s: Schedule, shortest: real, m: nat, n: nat)
    requires s.Sound() && 0.0 <= shortest && m <= n
    ensures 0.0 <= BackoffOf(s, shortest, m) <= BackoffOf(s, shortest, n)
  {
    StepsGrow(s);
    WaitGrows(s.Steps(), shortest, Reached(shortest, s.Steps()[0], 0), if m < 1 then 1 else m, if n < 1 then 1 else n);
  }

  lemma StepsGrow(s: Schedule)
    requires s.Sound()
    ensures s.Steps() != [] && forall i, j :: 0 <= i <= j < |s.Steps()| ==> 0.0 <= s.Steps()[i] <= s.Steps()[j]
  {
  }

  lemma WaitGrows(steps: seq<real>, shortest: real, reached: nat, a: nat, b: nat)
    requires steps != [] && (forall i, j :: 0 <= i <= j < |steps| ==> 0.0 <= steps[i] <= steps[j])
    requires 0.0 <= shortest && 1 <= a <= b
    ensures 0.0 <= WaitAt(steps, shortest, reached, a) <= WaitAt(steps, shortest, reached, b)
  {
    DoubledGrows(shortest, a - 1, b - 1);
  }

  lemma FractionGrows(ramp: nat, m: nat, n: nat)
    requires m <= n
    ensures 0.0 <= Fraction(ramp, m) <= Fraction(ramp, n) <= 1.0
  {
    if ramp > 1 {
      var a := if m < 1 then 1 else if m > ramp then ramp else m;
      var b := if n < 1 then 1 else if n > ramp then ramp else n;
      Quotient((a - 1) as real, (b - 1) as real, (ramp - 1) as real);
    }
  }

  lemma Quotient(a: real, b: real, c: real)
    requires 0.0 <= a <= b <= c && c > 0.0
    ensures 0.0 <= a / c <= b / c <= 1.0
  {}

  /** The wait never gets shorter from one failure to the next, and stays within the bounds of the
      schedule and above the account's shortest delay. */
  lemma DelayGrows(s: Schedule, delayMin: Seconds, delayMax: Seconds, m: nat, n: nat)
    requires s.Sound() && m <= n
    ensures Delay(s, delayMin, delayMax, m) <= Delay(s, delayMin, delayMax, n)
    ensures s.floor <= Delay(s, delayMin, delayMax, m) <= Max(s.ceiling, s.floor)
    ensures Range(s, delayMin, delayMax).0 <= Delay(s, delayMin, delayMax, m)
  {
    var (shortest, longest) := Range(s, delayMin, delayMax);
    BackoffGrows(s, shortest, m, n);
    FractionGrows(s.ramp, m, n);
    MixGrows(shortest, longest, Fraction(s.ramp, m), Fraction(s.ramp, n));
  }

  /** From some failure on the wait stays: the longest of the account's and the last step. */
  lemma DelayLevels(s: Schedule, delayMin: Seconds, delayMax: Seconds, attempt: nat)
    requires s.Sound() && attempt >= s.ramp && attempt >= DOUBLINGS + |s.Steps()|
    ensures var steps := s.Steps();
      Delay(s, delayMin, delayMax, attempt) ==
      Clamp(Max(Range(s, delayMin, delayMax).1, steps[|steps| - 1]), s.floor, Max(s.ceiling, s.floor))
  {
    var (shortest, longest) := Range(s, delayMin, delayMax);
    BackoffLevels(s, shortest, attempt);
    FractionLevels(s.ramp, attempt);
    assert Mix(shortest, longest, 1.0) == longest;
  }

  lemma BackoffLevels(s: Schedule, shortest: real, attempt: nat)
    requires attempt >= DOUBLINGS + |s.Steps()|
    ensures BackoffOf(s, shortest, attempt) == s.Steps()[|s.Steps()| - 1]
  {
    ReachedFirst(shortest, s.Steps()[0], 0);
  }

  lemma FractionLevels(ramp: nat, attempt: nat)
    requires attempt >= ramp
    ensures Fraction(ramp, attempt) == 1.0
  {
    if ramp > 1 { assert (ramp - 1) as real / (ramp - 1) as real == 1.0; }
  }

  /** The first restart waits the account's shortest delay. */
  lemma FirstDelay(s: Schedule, delayMin: Seconds, delayMax: Seconds)
    requires s.Sound() && s.ramp > 1
    ensures Delay(s, delayMin, delayMax, 1) == Range(s, delayMin, delayMax).0
  {
    var (shortest, longest) := Range(s, delayMin, delayMax);
    ReachedFirst(shortest, s.Steps()[0], 0);
    assert Fraction(s.ramp, 1) == 0.0 / (s.ramp - 1) as real == 0.0;
    assert Power2(0) == 1.0;
  }

  /** The shortest delay, doubled once for each restart after the first. */
  function Risen(shortest: real, n: nat): real
    requires n >= 1
  {
    shortest * Power2(n - 1)
  }

  lemma RisenIs(shortest: real, n: nat)
    requires n >= 1
    ensures Risen(shortest, n) == Doubled(shortest, n - 1)
  {
    DoubledIsPower(shortest, n - 1);
  }

  /** The restart at which the doubling ends: the first whose doubled wait gets to the first step, or
      else the 32nd. */
  ghost predicate EndsDoubling(shortest: real, first: real, reached: nat) {
    && 1 <= reached <= DOUBLINGS
    && (reached < DOUBLINGS ==> Risen(shortest, reached) >= first)
    && forall n :: 1 <= n < reached ==> Risen(shortest, n) < first
  }

  /** Main theorem: the back-off in full. Up to the end of the doubling restart `n` waits the shortest
      delay doubled `n - 1` times, but no longer than the first step; then each failure waits one step
      more, until the last. */
  lemma BackoffIs(s: Schedule, shortest: real) returns (reached: nat)
    ensures EndsDoubling(shortest, s.Steps()[0], reached)
    ensures forall n :: 1 <= n <= reached ==> BackoffOf(s, shortest, n) == Min(Risen(shortest, n), s.Steps()[0])
    ensures forall n :: reached < n < reached + |s.Steps()| ==>
      BackoffOf(s, shortest, n) == s.Steps()[n - reached]
    ensures forall n :: reached + |s.Steps()| <= n ==> BackoffOf(s, shortest, n) == s.Steps()[|s.Steps()| - 1]
  {
    var steps := s.Steps();
    reached := Reached(shortest, steps[0], 0);
    DoublingEnds(shortest, steps[0]);
    forall n | 1 <= n <= reached ensures BackoffOf(s, shortest, n) == Min(Risen(shortest, n), steps[0]) {
      RisenIs(shortest, n);
    }
  }

  lemma DoublingEnds(shortest: real, first: real)
    ensures EndsDoubling(shortest, first, Reached(shortest, first, 0))
  {
    var reached := Reached(shortest, first, 0);
    ReachedFirst(shortest, first, 0);
    forall n | 1 <= n <= reached ensures Risen(shortest, n) == Doubled(shortest, n - 1) { RisenIs(shortest, n); }
    forall n | 1 <= n < reached ensures Risen(shortest, n) < first { assert Doubled(shortest, n - 1) < first; }
  }

  /** Without a back-off the delay goes from the shortest to the longest in equal steps. */
  lemma RampIsLinear(low: real, high: real, ramp: nat, n: nat)
    requires 1 <= n < ramp
    ensures (Mix(low, high, Fraction(ramp, n + 1)) - Mix(low, high, Fraction(ramp, n))) * (ramp - 1) as real ==
            high - low
    ensures Mix(low, high, Fraction(ramp, 1)) == low && Mix(low, high, Fraction(ramp, ramp)) == high
  {
    var c := (ramp - 1) as real;
    Equally(high - low, (n - 1) as real, n as real, c);
    assert 0.0 / c == 0.0 && c / c == 1.0;
  }

  lemma Equally(d: real, a: real, b: real, c: real)
    requires c > 0.0 && b - a == 1.0
    ensures (d * (b / c) - d * (a / c)) * c == d
  {
    assert b / c * c == b && a / c * c == a;
    assert (d * (b / c) - d * (a / c)) * c == d * (b / c * c) - d * (a / c * c);
    assert d * b - d * a == d * (b - a);
  }

  /** Delays within the bounds are taken as they are, the smaller one first; those beyond them are
      brought to the nearest bound, and what is no number becomes the default. */
  lemma RangeIs(s: Schedule, delayMin: Seconds, delayMax: Seconds)
    ensures var a, b := Stored(delayMin, DEFAULT_DELAY_MIN), Stored(delayMax, DEFAULT_DELAY_MAX);
      var top := Max(s.ceiling, s.floor);
      && (s.floor <= a <= b <= top ==> Range(s, delayMin, delayMax) == (a, b))
      && (s.floor <= b <= a <= top ==> Range(s, delayMin, delayMax) == (b, a))
      && (a < s.floor || b < s.floor ==> Range(s, delayMin, delayMax).0 == s.floor)
      && (a > top || b > top ==> Range(s, delayMin, delayMax).1 == top)
  {
  }

  function Stored(stored: Seconds, fallback: real): real {
    match stored case Finite(x) => x case NotFinite => fallback
  }

  /** The spread moves a wait by a fifth at most. */
  lemma SpreadWithin(delay: real, spread: Seconds)
    requires 0.0 <= delay
    ensures WithinFifth(Spread(delay, spread), delay)
  {
    ScaleWithin(delay, Factor(spread));
  }

  predicate WithinFifth(x: real, delay: real) { 0.8 * delay <= x <= 1.2 * delay }

  lemma ScaleWithin(x: real, f: real)
    requires 0.0 <= x && 0.8 <= f <= 1.2
    ensures WithinFifth(x * f, x)
  {
    Scale(x, 0.8, f);
    Scale(x, f, 1.2);
  }

  // --- Failures and causes -----------------------------------------------------------------------

  datatype DisconnectReason = InGameKick | LoginRejected | ConnectionLost | UserLogout | OtherReason

  datatype KickCause =
    | Banned
    | NotWhitelisted
    | WrongPassword
    | PremiumOnly
    | LoggedInElsewhere
    | AlreadyConnected
    | LoginTimeout

  const REPEATED_KICKS: nat := 5

  function KicksToStop(cause: KickCause): nat {
    match cause
    case AlreadyConnected | LoginTimeout => REPEATED_KICKS
    case _ => 1
  }

  predicate IsLogin(cause: KickCause) {
    match cause
    case LoginTimeout | WrongPassword | AlreadyConnected | PremiumOnly => true
    case Banned | NotWhitelisted | LoggedInElsewhere => false
  }

  /** What the phrase tables say of a message. */
  datatype Texts = Texts(
    /** The message is about a passing stop. */
    passing: string -> bool,
    cause: string -> Option<KickCause>,
    /** One of the account's kick messages occurs in it. */
    listed: (seq<string>, string) -> bool)

  /** An account's AutoRelog settings. `retries` below zero: no limit. */
  datatype Relog = Relog(
    enabled: bool,
    delayMin: Seconds,
    delayMax: Seconds,
    retries: int,
    ignoreKickMessage: bool,
    kickMessages: seq<string>)

  datatype FailureReason =
    | Kicked(message: Option<string>)
    | Rejected(message: Option<string>)
    | Lost(message: Option<string>)
    | LoggedOut(message: Option<string>)
    | Disconnected(message: Option<string>)
    | UnsupportedVersion(message: Option<string>)
    | Failed(message: Option<string>)
    | UnexpectedExit(code: Option<int>)
    | LaunchFailed
    | ClientMissing
    | SecretsUnavailable
    | Refused(cause: KickCause, message: Option<string>)

  function MessageOf(reason: FailureReason): Option<string> {
    match reason
    case UnexpectedExit(_) | LaunchFailed | ClientMissing | SecretsUnavailable => None
    case _ => reason.message
  }

  function FromExitCode(code: Option<int>): FailureReason {
    match code
    case Some(1) => LoggedOut(None)
    case Some(2) => Kicked(None)
    case Some(3) => Lost(None)
    case Some(4) => Rejected(None)
    case _ => UnexpectedExit(code)
  }

  function ReasonOfExit(code: Option<int>): Option<DisconnectReason> {
    match code
    case Some(2) => Some(InGameKick)
    case Some(3) => Some(ConnectionLost)
    case Some(4) => Some(LoginRejected)
    case _ => None
  }

  predicate ByServer(reason: Option<DisconnectReason>) {
    reason == Some(InGameKick) || reason == Some(LoginRejected)
  }

  /** `kick_cause`. */
  function CauseOf(t: Texts, reason: Option<DisconnectReason>, message: Option<string>): Option<KickCause> {
    if !ByServer(reason) || message.None? || t.passing(message.value) then None else t.cause(message.value)
  }

  predicate Listed(t: Texts, relog: Relog, message: Option<string>) {
    t.listed(relog.kickMessages, if message.Some? then message.value else "")
  }

  predicate KickFilterAllows(t: Texts, relog: Relog, reason: Option<DisconnectReason>, message: Option<string>) {
    relog.ignoreKickMessage || (ByServer(reason) ==> Listed(t, relog, message))
  }

  /** The last problem the running client reported. */
  datatype Failure = Failure(reason: Option<DisconnectReason>, message: Option<string>, versionError: bool) {
    function Cause(t: Texts): Option<KickCause> { CauseOf(t, reason, message) }

    function ToReason(): FailureReason {
      if versionError then UnsupportedVersion(message)
      else match reason
        case Some(InGameKick) => Kicked(message)
        case Some(LoginRejected) => Rejected(message)
        case Some(ConnectionLost) => Lost(message)
        case Some(UserLogout) => LoggedOut(message)
        case Some(OtherReason) => Disconnected(message)
        case None => Failed(message)
    }
  }

  /** A report without a message keeps the message of the same reason before it. */
  function Merge(previous: Option<Failure>, next: Failure): Failure {
    match previous
    case Some(before) =>
      if next.message.None? && before.reason == next.reason
      then Failure.Failure(next.reason, before.message, before.versionError || next.versionError)
      else next
    case None => next
  }

  function Lasting(s: Schedule, inGame: real, cause: Option<KickCause>): bool {
    inGame >= s.stableAfter && !(cause.Some? && IsLogin(cause.value))
  }

  // --- Decisions ---------------------------------------------------------------------------------

  datatype Decision =
    | Stop
    | Fail(reason: FailureReason)
    | GiveUp(reason: FailureReason)
    | RestartAs(attempt: nat, reason: FailureReason)

  /** `decide_failure`: `attempts` restarts since the last lasting connection, `repeats` failures
      with this one's cause right before it. */
  function DecideFailure(t: Texts, relog: Relog, reason: Option<DisconnectReason>, display: FailureReason,
                         attempts: nat, repeats: nat): Decision {
    var message := MessageOf(display);
    var cause := CauseOf(t, reason, message);
    if cause.Some? && !Listed(t, relog, message) && (!relog.enabled || repeats + 1 >= KicksToStop(cause.value))
    then Fail(Refused(cause.value, message))
    else if !relog.enabled || display.UnsupportedVersion? || !KickFilterAllows(t, relog, reason, message)
    then Fail(display)
    else if 0 <= relog.retries <= attempts then GiveUp(display)
    else RestartAs(attempts + 1, display)
  }

  /** `decide_exit`. */
  function DecideExit(t: Texts, relog: Relog, stopRequested: bool, code: Option<int>, failure: Option<Failure>,
                      attempts: nat, repeats: nat): Decision {
    if stopRequested then Stop
    else if failure.Some? then
      DecideFailure(t, relog, failure.value.reason, failure.value.ToReason(), attempts, repeats)
    else if !relog.enabled then (if code == Some(0) then Stop else Fail(FromExitCode(code)))
    else if code == Some(0) then DecideFailure(t, relog, None, Lost(None), attempts, repeats)
    else DecideFailure(t, relog, ReasonOfExit(code), FromExitCode(code), attempts, repeats)
  }

  /** The retry limit leaves one more restart. */
  predicate MayRetry(relog: Relog, attempts: nat) { relog.retries < 0 || attempts < relog.retries }

  /** What is shown for an exit when the reconnect is on: the reported problem, or the exit code's. */
  function ReasonShown(code: Option<int>, failure: Option<Failure>): FailureReason {
    match failure
    case Some(f) => f.ToReason()
    case None => if code == Some(0) then Lost(None) else FromExitCode(code)
  }

  /** Neither the version, nor a kick that is not on the account's list, stands against a restart. */
  predicate Passing(t: Texts, relog: Relog, code: Option<int>, failure: Option<Failure>) {
    match failure
    case None => code == Some(2) || code == Some(4) ==> relog.ignoreKickMessage || Listed(t, relog, None)
    case Some(f) => !f.versionError && (ByServer(f.reason) ==> relog.ignoreKickMessage || Listed(t, relog, f.message))
  }

  /** The failure's cause is not on the account's list, and came too often in a row, or once with the
      reconnect off. */
  predicate CauseStops(t: Texts, relog: Relog, failure: Option<Failure>, repeats: nat) {
    && failure.Some? && failure.value.Cause(t).Some? && !Listed(t, relog, failure.value.message)
    && (!relog.enabled || repeats + 1 >= KicksToStop(failure.value.Cause(t).value))
  }

  /** Exactly when an exit that was not asked for leads to a restart. */
  predicate MayRestart(t: Texts, relog: Relog, code: Option<int>, failure: Option<Failure>, attempts: nat,
      repeats: nat)
  {
    relog.enabled && MayRetry(relog, attempts) && Passing(t, relog, code, failure)
    && !CauseStops(t, relog, failure, repeats)
  }

  /** The decision in full: what stops, what is started again as what, what gives up and what fails
      how. */
  lemma ExitIs(t: Texts, relog: Relog, code: Option<int>, failure: Option<Failure>, attempts: nat, repeats: nat)
    ensures var d := DecideExit(t, relog, false, code, failure, attempts, repeats);
      && (d.Stop? <==> !relog.enabled && failure.None? && code == Some(0))
      && (d.RestartAs? <==> MayRestart(t, relog, code, failure, attempts, repeats))
      && (d.RestartAs? ==> d == RestartAs(attempts + 1, ReasonShown(code, failure)))
      && (d.GiveUp? <==>
            relog.enabled && !MayRetry(relog, attempts) && Passing(t, relog, code, failure)
            && !CauseStops(t, relog, failure, repeats))
      && (d.GiveUp? ==> d.reason == ReasonShown(code, failure))
      && (CauseStops(t, relog, failure, repeats) ==>
            d == Fail(Refused(failure.value.Cause(t).value, failure.value.message)))
      && (d.Fail? && !CauseStops(t, relog, failure, repeats) ==> d.reason == ReasonShown(code, failure))
  {
    if failure.Some? {
      assert MessageOf(failure.value.ToReason()) == failure.value.message;
    }
  }

  /** A launch that fails is tried again exactly if that is on and within its limit, unless for the
      version. */
  lemma LaunchFailureIs(t: Texts, relog: Relog, reason: FailureReason, attempts: nat)
    requires relog.enabled
    ensures DecideFailure(t, relog, None, reason, attempts, 0) ==
      if reason.UnsupportedVersion? then Fail(reason)
      else if MayRetry(relog, attempts) then RestartAs(attempts + 1, reason) else GiveUp(reason)
  {
  }
}
