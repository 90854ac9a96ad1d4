/** One account's session (`session.rs`): a sequential actor that owns the client process, a restart
    or connection-slot timer, a kill timer and the state its card shows.

    What the surroundings answer (connection slots, preparing, spawning, stored settings, clocks)
    comes with the events. `Step` is what one event does to the actor's fields; the class below does
    it field by field. */
module Session {
  import opened Wrappers
  import opened Restart

  type Time = real

  datatype State =
    | Stopped
    | Starting
    | Connecting
    | Connected(since: Time)
    | Reconnecting(attempt: nat, nextAttemptAt: Option<Time>, why: Option<FailureReason>)
    | Stopping
    | Errored(reason: FailureReason, retryLimitReached: bool)

  datatype Running = Running(generation: nat, killed: bool)

  datatype Env = Env(t: Texts, schedule: Schedule, stopGrace: real)

  datatype Prepared = Ready(revision: nat) | Unready(reason: FailureReason)

  /** The answers to one launch. `slot`: when it has to wait for its connection slot. */
  datatype Launch = Launch(
    now: Time,
    slot: Option<Time>,
    prepared: Prepared,
    spawns: bool,
    relog: Relog,
    spread: Seconds)

  datatype Line = Blank | Quit | Chat

  datatype Report =
    | ConnectingNow
    | Joined(now: Time)
    | Disrupted(failure: Failure, now: Time, relog: Relog)
    | OtherOutput
    | Exited(code: Option<int>, now: Time, relog: Relog, spread: Seconds)

  datatype Event =
    | Start(launch: Launch)
    | Stop(now: Time)
    | Send(line: Line, now: Time)
    | Shutdown
    | RestartTimer(launch: Launch)
    | KillTimer
    | Io(generation: nat, report: Report)

  /** The actor's fields. */
  datatype View = View(
    process: Option<Running>,
    generation: nat,
    stopRequested: bool,
    attempts: nat,
    joinedAt: Option<Time>,
    lastCause: Option<KickCause>,
    causeRepeats: nat,
    restartAt: Option<Time>,
    paced: Option<bool>,
    killAt: Option<Time>,
    failure: Option<Failure>,
    state: State,
    launchedRevision: Option<nat>,
    over: bool)

  const IDLE := View(None, 0, false, 0, None, None, 0, None, None, None, None, Stopped, None, false)

  // --- What one event does -----------------------------------------------------------------------

  function NoteCause(v: View, cause: Option<KickCause>): View {
    if cause.Some? && cause == v.lastCause then v.(causeRepeats := v.causeRepeats + 1)
    else v.(lastCause := cause, causeRepeats := if cause.Some? then 1 else 0)
  }

  /** Failures with this one's cause right before it. */
  function RepeatsOf(e: Env, v: View, failure: Failure): nat {
    if failure.Cause(e.t).Some? && failure.Cause(e.t) == v.lastCause then v.causeRepeats else 0
  }

  /** The connection that ended so had worked. */
  predicate Lasted(e: Env, v: View, failure: Option<Failure>, now: Time) {
    v.joinedAt.Some? &&
    Lasting(e.schedule, now - v.joinedAt.value, if failure.Some? then failure.value.Cause(e.t) else None)
  }

  function ForgetFailures(e: Env, v: View, failure: Option<Failure>, now: Time): View {
    if Lasted(e, v, failure, now) then v.(attempts := 0, lastCause := None, causeRepeats := 0) else v
  }

  function ApplyDecision(e: Env, v: View, decision: Decision, now: Time, relog: Relog, spread: Seconds): View {
    match decision
    case Stop => v.(state := Stopped)
    case Fail(reason) => v.(state := Errored(reason, false))
    case GiveUp(reason) => v.(state := Errored(reason, true))
    case RestartAs(attempt, reason) =>
      var at := now + SpreadDelay(e.schedule, relog.delayMin, relog.delayMax, attempt, spread);
      v.(attempts := attempt, restartAt := Some(at), state := Reconnecting(attempt, Some(at), Some(reason)))
  }

  function LaunchFails(e: Env, v: View, l: Launch, reason: FailureReason, isRestart: bool): View {
    if isRestart && l.relog.enabled then
      ApplyDecision(e, NoteCause(v, None), DecideFailure(e.t, l.relog, None, reason, v.attempts, 0),
                    l.now, l.relog, l.spread)
    else v.(state := Errored(reason, false))
  }

  /** The settings changed since the launch before. */
  predicate SavedSince(v: View, revision: nat, isRestart: bool) {
    isRestart && v.launchedRevision.Some? && v.launchedRevision.value != revision
  }

  function Spawned(v: View, revision: nat, isRestart: bool): View {
    var forget := SavedSince(v, revision, isRestart);
    v.(generation := v.generation + 1,
       process := Some(Running(v.generation + 1, false)),
       launchedRevision := Some(revision),
       lastCause := if forget then None else v.lastCause,
       causeRepeats := if forget then 0 else v.causeRepeats,
       state := Connecting)
  }

  function LaunchNow(e: Env, v: View, l: Launch, isRestart: bool): View {
    match l.prepared
    case Unready(reason) => LaunchFails(e, v, l, reason, isRestart)
    case Ready(revision) =>
      if l.spawns then Spawned(v, revision, isRestart) else LaunchFails(e, v, l, LaunchFailed, isRestart)
  }

  function WaitForSlot(v: View, slot: Time, isRestart: bool): View {
    var waiting := v.(paced := Some(isRestart), restartAt := Some(slot));
    if !isRestart then waiting
    else match v.state
      case Reconnecting(attempt, _, why) => waiting.(state := Reconnecting(attempt, Some(slot), why))
      case _ => waiting.(state := Reconnecting(v.attempts, Some(slot), None))
  }

  function LaunchInTurn(e: Env, v: View, l: Launch, isRestart: bool): View {
    if l.slot.Some? then WaitForSlot(v, l.slot.value, isRestart) else LaunchNow(e, v, l, isRestart)
  }

  /** A start command forgets what was. */
  function Anew(v: View): View {
    v.(stopRequested := false, restartAt := None, attempts := 0, joinedAt := None, lastCause := None,
       causeRepeats := 0, failure := None, state := Starting)
  }

  function OnStart(e: Env, v: View, l: Launch): View {
    if v.process.Some? || v.paced.Some? then v
    else LaunchInTurn(e, Anew(v), l, false)
  }

  function OnStop(e: Env, v: View, now: Time): View {
    var stopping := v.(restartAt := None, paced := None, stopRequested := true);
    if v.process.None? then stopping.(state := Stopped)
    else stopping.(killAt := if v.killAt.None? then Some(now + e.stopGrace) else v.killAt, state := Stopping)
  }

  function OnShutdown(v: View): View {
    v.(restartAt := None, paced := None, stopRequested := true, process := None,
       state := Stopped, over := true)
  }

  function OnRestartDue(e: Env, v: View, l: Launch): View {
    if v.stopRequested || v.process.Some? then v
    else
      var why := match v.state case Reconnecting(_, _, why) => why case _ => None;
      LaunchInTurn(e, v.(state := Reconnecting(v.attempts, None, why), failure := None), l, true)
  }

  function OnRestartTimer(e: Env, v: View, l: Launch): View {
    var due := v.(restartAt := None, paced := None);
    match v.paced
    case Some(isRestart) => if !v.stopRequested && v.process.None? then LaunchNow(e, due, l, isRestart) else due
    case None => OnRestartDue(e, due, l)
  }

  function OnKillTimer(v: View): View {
    v.(killAt := None, process := if v.process.Some? then Some(v.process.value.(killed := true)) else None)
  }

  /** Where a reported problem is heading; the exit decides. */
  function OnDisruption(e: Env, v: View, report: Failure, now: Time, relog: Relog): View {
    if v.stopRequested then v
    else
      var failure := Merge(v.failure, report);
      var w := ForgetFailures(e, v, Some(failure), now).(failure := Some(failure));
      match DecideFailure(e.t, relog, failure.reason, failure.ToReason(), w.attempts, RepeatsOf(e, w, failure))
      case RestartAs(attempt, reason) => w.(state := Reconnecting(attempt, None, Some(reason)))
      case GiveUp(reason) => w.(state := Errored(reason, true))
      case Fail(reason) => w.(state := Errored(reason, false))
      case Stop => w.(state := Stopped)
  }

  /** The client is gone, and so are old failures if it had worked. */
  function Gone(e: Env, v: View, now: Time): View {
    ForgetFailures(e, v.(process := None, killAt := None, failure := None), v.failure, now).(joinedAt := None)
  }

  /** What follows, after a client that reported `failure`. */
  function OnGone(e: Env, v: View, failure: Option<Failure>, code: Option<int>, now: Time, relog: Relog,
      spread: Seconds): View
  {
    var repeats := if failure.Some? then RepeatsOf(e, v, failure.value) else 0;
    var decision := DecideExit(e.t, relog, v.stopRequested, code, failure, v.attempts, repeats);
    var noted := if v.stopRequested then v
      else NoteCause(v, if failure.Some? then failure.value.Cause(e.t) else None);
    ApplyDecision(e, noted, decision, now, relog, spread)
  }

  function OnExited(e: Env, v: View, code: Option<int>, now: Time, relog: Relog, spread: Seconds): View {
    OnGone(e, Gone(e, v, now), v.failure, code, now, relog, spread)
  }

  function OnReport(e: Env, v: View, report: Report): View {
    match report
    case ConnectingNow =>
      if !v.stopRequested && (v.state.Starting? || v.state.Connecting? || v.state.Reconnecting?)
      then v.(state := Connecting) else v
    case Joined(now) =>
      if v.stopRequested then v else v.(joinedAt := Some(now), failure := None, state := Connected(now))
    case Disrupted(failure, now, relog) => OnDisruption(e, v, failure, now, relog)
    case OtherOutput => v
    case Exited(code, now, relog, spread) => OnExited(e, v, code, now, relog, spread)
  }

  predicate IsCurrent(v: View, generation: nat) {
    v.process.Some? && v.process.value.generation == generation
  }

  /** A timer that is not set never fires. */
  function Step(e: Env, v: View, event: Event): View {
    if v.over then v
    else match event
      case Start(l) => OnStart(e, v, l)
      case Stop(now) => OnStop(e, v, now)
      case Send(line, now) => if line.Quit? && v.process.Some? then OnStop(e, v, now) else v
      case Shutdown => OnShutdown(v)
      case RestartTimer(l) => if v.restartAt.Some? then OnRestartTimer(e, v, l) else v
      case KillTimer => if v.killAt.Some? then OnKillTimer(v) else v
      case Io(generation, report) => if IsCurrent(v, generation) then OnReport(e, v, report) else v
  }

  function Run(e: Env, v: View, events: seq<Event>): View
    decreases |events|
  {
    if events == [] then v else Run(e, Step(e, v, events[0]), events[1..])
  }

  // --- What every run keeps ----------------------------------------------------------------------

  predicate Inv(v: View) {
    && (v.process.Some? ==> v.process.value.generation == v.generation && v.restartAt.None?)
    && (v.paced.Some? ==> v.restartAt.Some?)
    && (v.killAt.Some? && !v.over ==> v.process.Some? && v.stopRequested)
    && (v.process.Some? && v.process.value.killed ==> v.stopRequested)
    && (v.stopRequested ==> v.restartAt.None?)
    && (v.state.Stopping? <==> v.process.Some? && v.stopRequested)
    && (v.joinedAt.Some? && !v.over ==> v.process.Some?)
    && (v.state.Connected? ==> v.joinedAt.Some?)
    && (v.state.Stopped? ==> v.process.None? && v.restartAt.None?)
    && (v.process.None? && v.restartAt.None? ==> v.state.Stopped? || v.state.Errored?)
    && (v.restartAt.Some? ==> if v.paced == Some(false) then v.state.Starting? else v.state.Reconnecting?)
    && (v.over ==> v.process.None? && v.stopRequested)
  }

  lemma InvLaunch(e: Env, v: View, l: Launch, isRestart: bool)
    requires v.process.None? && v.restartAt.None? && v.paced.None? && !v.stopRequested && !v.over
    requires v.killAt.None? && v.joinedAt.None?
    requires if isRestart then v.state.Reconnecting? else v.state.Starting?
    ensures Inv(LaunchInTurn(e, v, l, isRestart)) && Inv(LaunchNow(e, v, l, isRestart))
  {}

  lemma InvStart(e: Env, v: View, l: Launch)
    requires Inv(v) && !v.over
    ensures Inv(OnStart(e, v, l))
  {
    if v.process.None? && v.paced.None? {
      InvLaunch(e, Anew(v), l, false);
    }
  }

  lemma InvRestartTimer(e: Env, v: View, l: Launch)
    requires Inv(v) && !v.over && v.restartAt.Some?
    ensures Inv(OnRestartTimer(e, v, l))
  {
    var due := v.(restartAt := None, paced := None);
    if v.paced.Some? {
      InvLaunch(e, due, l, v.paced.value);
    } else {
      var why := match v.state case Reconnecting(_, _, why) => why case _ => None;
      InvLaunch(e, due.(state := Reconnecting(v.attempts, None, why), failure := None), l, true);
    }
  }

  lemma InvApply(e: Env, v: View, decision: Decision, now: Time, relog: Relog, spread: Seconds)
    requires v.process.None? && v.restartAt.None? && v.paced.None? && v.killAt.None? && v.joinedAt.None? && !v.over
    requires v.stopRequested ==> decision.Stop?
    ensures Inv(ApplyDecision(e, v, decision, now, relog, spread))
  {}

  lemma InvGone(e: Env, v: View, failure: Option<Failure>, code: Option<int>, now: Time, relog: Relog, spread: Seconds)
    requires v.process.None? && v.restartAt.None? && v.paced.None? && v.killAt.None? && v.joinedAt.None? && !v.over
    ensures Inv(OnGone(e, v, failure, code, now, relog, spread))
  {
    var repeats := if failure.Some? then RepeatsOf(e, v, failure.value) else 0;
    var noted := if v.stopRequested then v
      else NoteCause(v, if failure.Some? then failure.value.Cause(e.t) else None);
    InvApply(e, noted, DecideExit(e.t, relog, v.stopRequested, code, failure, v.attempts, repeats), now, relog, spread);
  }

  lemma InvReport(e: Env, v: View, report: Report)
    requires Inv(v) && !v.over && v.process.Some?
    ensures Inv(OnReport(e, v, report))
  {
    match report
    case Exited(code, now, relog, spread) => InvGone(e, Gone(e, v, now), v.failure, code, now, relog, spread);
    case _ =>
  }

  lemma StepKeepsInv(e: Env, v: View, event: Event)
    requires Inv(v)
    ensures Inv(Step(e, v, event))
  {
    if !v.over {
      match event
      case Start(l) => InvStart(e, v, l);
      case RestartTimer(l) => if v.restartAt.Some? { InvRestartTimer(e, v, l); }
      case Io(generation, report) => if IsCurrent(v, generation) { InvReport(e, v, report); }
      case _ =>
    }
  }

  /** Over every run of commands, timers and client output: the timers, the process and the shown
      state fit together. */
  lemma {:induction false} RunKeepsInv(e: Env, v: View, events: seq<Event>)
    requires Inv(v)
    ensures Inv(Run(e, v, events))
    decreases |events|
  {
    if events != [] {
      StepKeepsInv(e, v, events[0]);
      RunKeepsInv(e, Step(e, v, events[0]), events[1..]);
    }
  }

  /** Output and exits of a client before the running one change nothing. */
  lemma OldOutputIgnored(e: Env, v: View, generation: nat, report: Report)
    requires Inv(v) && generation != v.generation
    ensures Step(e, v, Io(generation, report)) == v
  {}

  /** Once stopped, no client is started until the next start command. */
  lemma {:induction false} StoppedStays(e: Env, v: View, events: seq<Event>)
    requires Inv(v) && v.stopRequested
    requires forall i :: 0 <= i < |events| ==> !events[i].Start?
    ensures var w := Run(e, v, events);
      && w.stopRequested && w.generation == v.generation && w.restartAt.None?
      && (v.process.None? ==> w.process.None?)
    decreases |events|
  {
    if events != [] {
      StepKeepsInv(e, v, events[0]);
      StoppedStays(e, Step(e, v, events[0]), events[1..]);
    }
  }

  // --- Counting restarts and kicks ---------------------------------------------------------------

  /** The actor with what happened to it. `causes`: the kick causes of its failures, in order, since
      they last stopped to count. `fired` and `spawned`: automatic restarts begun and clients started
      since the last start command or lasting connection. */
  datatype Tracked = Tracked(v: View, causes: seq<Option<KickCause>>, fired: nat, spawned: nat)

  /** How a launch that does not wait ends. */
  predicate Spawns(l: Launch) { l.prepared.Ready? && l.spawns }

  /** The launch an event makes at once, and whether it is a restart. */
  function LaunchOf(v: View, event: Event): Option<(Launch, bool)> {
    match event
    case Start(l) => if v.process.None? && v.paced.None? && l.slot.None? then Some((l, false)) else None
    case RestartTimer(l) =>
      if v.restartAt.None? || v.stopRequested || v.process.Some? then None
      else if v.paced.Some? then Some((l, v.paced.value))
      else if l.slot.None? then Some((l, true)) else None
    case _ => None
  }

  /** The failures before the event stop to count: a start, or a connection that had lasted ends. */
  predicate CountsAnew(e: Env, v: View, event: Event) {
    match event
    case Start(_) => v.process.None? && v.paced.None?
    case Io(generation, Disrupted(failure, now, _)) =>
      IsCurrent(v, generation) && !v.stopRequested && Lasted(e, v, Some(Merge(v.failure, failure)), now)
    case Io(generation, Exited(_, now, _, _)) => IsCurrent(v, generation) && Lasted(e, v, v.failure, now)
    case _ => false
  }

  /** The kick causes alone stop to count: a restart with other settings. */
  predicate CausesAnew(v: View, event: Event) {
    var launch := LaunchOf(v, event);
    launch.Some? && Spawns(launch.value.0) && SavedSince(v, launch.value.0.prepared.revision, launch.value.1)
  }

  /** The failure the event finishes: its kick cause, if it is one. */
  function FinishedFailure(e: Env, v: View, event: Event): Option<Option<KickCause>> {
    match event
    case Io(generation, Exited(_, _, _, _)) =>
      if IsCurrent(v, generation) && !v.stopRequested
      then Some(if v.failure.Some? then v.failure.value.Cause(e.t) else None) else None
    case _ =>
      var launch := LaunchOf(v, event);
      if launch.Some? && !Spawns(launch.value.0) && launch.value.1 && launch.value.0.relog.enabled
      then Some(None) else None
  }

  function Track(e: Env, w: Tracked, event: Event): Tracked {
    var v := w.v;
    if v.over then w
    else
      var anew := CountsAnew(e, v, event);
      var causes := if anew || CausesAnew(v, event) then [] else w.causes;
      var noted := FinishedFailure(e, v, event);
      var launch := LaunchOf(v, event);
      var fires := event.RestartTimer? && v.restartAt.Some? && v.paced.None?;
      Tracked(
        Step(e, v, event),
        if noted.Some? then causes + [noted.value] else causes,
        (if anew then 0 else w.fired) + (if fires then 1 else 0),
        (if anew then 0 else w.spawned) + (if launch.Some? && Spawns(launch.value.0) then 1 else 0))
  }

  function TrackAll(e: Env, w: Tracked, events: seq<Event>): Tracked
    decreases |events|
  {
    if events == [] then w else TrackAll(e, Track(e, w, events[0]), events[1..])
  }

  /** How many equal causes the list ends in. */
  function Streak(causes: seq<Option<KickCause>>): nat {
    if causes == [] || causes[|causes| - 1].None? then 0
    else if |causes| > 1 && causes[|causes| - 2] == causes[|causes| - 1] then Streak(causes[..|causes| - 1]) + 1
    else 1
  }

  function LastCause(causes: seq<Option<KickCause>>): Option<KickCause> {
    if causes == [] then None else causes[|causes| - 1]
  }

  /** The two fields sum up the history. */
  predicate SumsUp(w: Tracked) {
    Sums(w.v, w.causes)
  }

  lemma NoteSumsUp(v: View, causes: seq<Option<KickCause>>, cause: Option<KickCause>)
    requires v.lastCause == LastCause(causes) && v.causeRepeats == Streak(causes)
    ensures NoteCause(v, cause).lastCause == LastCause(causes + [cause])
    ensures NoteCause(v, cause).causeRepeats == Streak(causes + [cause])
  {
    assert (causes + [cause])[..|causes|] == causes;
  }

  /** A restart is scheduled and has not begun. */
  function Pending(v: View): nat { if v.restartAt.Some? && v.paced.None? then 1 else 0 }

  predicate Counted(w: Tracked) {
    && w.fired + Pending(w.v) <= w.v.attempts
    && w.spawned + (if w.v.paced.Some? then 1 else 0) <= w.fired + 1
  }

  /** The settings an event comes with, if it comes with any. */
  function RelogOf(event: Event): Option<Relog> {
    match event
    case Start(l) => Some(l.relog)
    case RestartTimer(l) => Some(l.relog)
    case Io(_, Disrupted(_, _, relog)) => Some(relog)
    case Io(_, Exited(_, _, relog, _)) => Some(relog)
    case _ => None
  }

  predicate Within(events: seq<Event>, limit: nat) {
    forall i :: 0 <= i < |events| && RelogOf(events[i]).Some? ==> 0 <= RelogOf(events[i]).value.retries <= limit
  }

  predicate Sums(v: View, causes: seq<Option<KickCause>>) {
    v.lastCause == LastCause(causes) && v.causeRepeats == Streak(causes)
  }

  lemma LaunchHistory(e: Env, v: View, causes: seq<Option<KickCause>>, l: Launch, isRestart: bool)
    requires Sums(v, causes)
    ensures Sums(LaunchNow(e, v, l, isRestart),
      if Spawns(l) then (if SavedSince(v, l.prepared.revision, isRestart) then [] else causes)
      else if isRestart && l.relog.enabled then causes + [None] else causes)
  {
    NoteSumsUp(v, causes, None);
  }

  lemma ApplyKeepsCauses(e: Env, v: View, decision: Decision, now: Time, relog: Relog, spread: Seconds)
    ensures var w := ApplyDecision(e, v, decision, now, relog, spread);
      w.lastCause == v.lastCause && w.causeRepeats == v.causeRepeats
  {}

  lemma ExitSums(e: Env, v: View, causes: seq<Option<KickCause>>, code: Option<int>, now: Time, relog: Relog,
      spread: Seconds)
    requires Sums(v, causes)
    ensures var counted := if Lasted(e, v, v.failure, now) then [] else causes;
      var cause := if v.failure.Some? then v.failure.value.Cause(e.t) else None;
      Sums(OnExited(e, v, code, now, relog, spread), if v.stopRequested then counted else counted + [cause])
  {
    var failure := v.failure;
    var w := ForgetFailures(e, v.(process := None, killAt := None, failure := None), failure, now).(joinedAt := None);
    var counted := if Lasted(e, v, failure, now) then [] else causes;
    var cause := if failure.Some? then failure.value.Cause(e.t) else None;
    assert Sums(w, counted);
    NoteSumsUp(w, counted, cause);
    var repeats := if failure.Some? then RepeatsOf(e, w, failure.value) else 0;
    ApplyKeepsCauses(e, if v.stopRequested then w else NoteCause(w, cause),
      DecideExit(e.t, relog, v.stopRequested, code, failure, w.attempts, repeats), now, relog, spread);
  }

  lemma ExitHistory(e: Env, w: Tracked, event: Event)
    requires Inv(w.v) && SumsUp(w) && !w.v.over
    requires event.Io? && event.report.Exited? && IsCurrent(w.v, event.generation)
    ensures SumsUp(Track(e, w, event))
  {
    var report := event.report;
    ExitSums(e, w.v, w.causes, report.code, report.now, report.relog, report.spread);
    assert LaunchOf(w.v, event).None? && !CausesAnew(w.v, event);
  }

  lemma TimerHistory(e: Env, w: Tracked, l: Launch)
    requires Inv(w.v) && SumsUp(w) && !w.v.over && w.v.restartAt.Some?
    ensures SumsUp(Track(e, w, RestartTimer(l)))
  {
    var v := w.v;
    var due := v.(restartAt := None, paced := None);
    if v.paced.Some? {
      LaunchHistory(e, due, w.causes, l, v.paced.value);
    } else {
      var why := match v.state case Reconnecting(_, _, why) => why case _ => None;
      LaunchHistory(e, due.(state := Reconnecting(v.attempts, None, why), failure := None), w.causes, l, true);
    }
  }

  lemma StartHistory(e: Env, w: Tracked, l: Launch)
    requires Inv(w.v) && SumsUp(w) && !w.v.over
    ensures SumsUp(Track(e, w, Start(l)))
  {
    var v := w.v;
    if v.process.None? && v.paced.None? {
      LaunchHistory(e, Anew(v), [], l, false);
    }
  }

  lemma TrackKeepsHistory(e: Env, w: Tracked, event: Event)
    requires Inv(w.v) && SumsUp(w)
    ensures SumsUp(Track(e, w, event))
  {
    if !w.v.over {
      match event
      case Start(l) => StartHistory(e, w, l);
      case RestartTimer(l) => if w.v.restartAt.Some? { TimerHistory(e, w, l); }
      case Io(generation, Exited(_, _, _, _)) => if IsCurrent(w.v, generation) { ExitHistory(e, w, event); }
      case _ =>
    }
  }

  lemma LaunchCounts(e: Env, v: View, l: Launch, isRestart: bool)
    requires v.restartAt.None? && v.paced.None?
    ensures var w := LaunchNow(e, v, l, isRestart);
      && w.paced.None? && v.attempts + Pending(w) <= w.attempts
      && (Spawns(l) ==> Pending(w) == 0)
  {}

  lemma TimerCounts(e: Env, w: Tracked, l: Launch)
    requires Inv(w.v) && Counted(w) && !w.v.over && w.v.restartAt.Some?
    ensures Counted(Track(e, w, RestartTimer(l)))
  {
    var due := w.v.(restartAt := None, paced := None);
    if w.v.paced.Some? {
      LaunchCounts(e, due, l, w.v.paced.value);
    } else {
      var why := match w.v.state case Reconnecting(_, _, why) => why case _ => None;
      LaunchCounts(e, due.(state := Reconnecting(w.v.attempts, None, why), failure := None), l, true);
    }
  }

  lemma StartCounts(e: Env, w: Tracked, l: Launch)
    requires Inv(w.v) && Counted(w) && !w.v.over
    ensures Counted(Track(e, w, Start(l)))
  {
    if w.v.process.None? && w.v.paced.None? {
      LaunchCounts(e, Anew(w.v), l, false);
    }
  }

  /** An exit schedules one restart at most, and counts it. */
  lemma ExitCounts(e: Env, v: View, code: Option<int>, now: Time, relog: Relog, spread: Seconds)
    requires Inv(v) && !v.over && v.process.Some?
    ensures var w := OnExited(e, v, code, now, relog, spread);
      && w.paced.None?
      && w.attempts == (if Lasted(e, v, v.failure, now) then 0 else v.attempts) + Pending(w)
  {
    GoneCounts(e, Gone(e, v, now), v.failure, code, now, relog, spread);
  }

  lemma GoneCounts(e: Env, v: View, failure: Option<Failure>, code: Option<int>, now: Time, relog: Relog,
      spread: Seconds)
    requires v.restartAt.None? && v.paced.None?
    ensures var w := OnGone(e, v, failure, code, now, relog, spread);
      w.paced.None? && w.attempts == v.attempts + Pending(w)
  {}

  lemma ReportCounts(e: Env, w: Tracked, generation: nat, report: Report)
    requires Inv(w.v) && Counted(w) && !w.v.over
    ensures Counted(Track(e, w, Io(generation, report)))
  {
    if IsCurrent(w.v, generation) && report.Exited? {
      ExitCounts(e, w.v, report.code, report.now, report.relog, report.spread);
    }
  }

  lemma TrackKeepsCounts(e: Env, w: Tracked, event: Event)
    requires Inv(w.v) && Counted(w)
    ensures Counted(Track(e, w, event))
  {
    if !w.v.over {
      match event
      case Start(l) => StartCounts(e, w, l);
      case RestartTimer(l) => if w.v.restartAt.Some? { TimerCounts(e, w, l); }
      case Io(generation, report) => ReportCounts(e, w, generation, report);
      case _ =>
    }
  }

  /** Launching, at once or in turn, counts no further than the limit. */
  lemma LaunchWithinLimit(e: Env, v: View, l: Launch, isRestart: bool, limit: nat)
    requires v.attempts <= limit && 0 <= l.relog.retries <= limit
    ensures LaunchNow(e, v, l, isRestart).attempts <= limit
    ensures LaunchInTurn(e, v, l, isRestart).attempts <= limit
  {}

  lemma TimerWithinLimit(e: Env, v: View, l: Launch, limit: nat)
    requires v.attempts <= limit && 0 <= l.relog.retries <= limit
    ensures OnRestartTimer(e, v, l).attempts <= limit
  {
    var due := v.(restartAt := None, paced := None);
    if v.paced.Some? {
      LaunchWithinLimit(e, due, l, v.paced.value, limit);
    } else {
      var why := match v.state case Reconnecting(_, _, why) => why case _ => None;
      LaunchWithinLimit(e, due.(state := Reconnecting(v.attempts, None, why), failure := None), l, true, limit);
    }
  }

  lemma ExitWithinLimit(e: Env, v: View, code: Option<int>, now: Time, relog: Relog, spread: Seconds, limit: nat)
    requires v.attempts <= limit && 0 <= relog.retries <= limit
    ensures OnExited(e, v, code, now, relog, spread).attempts <= limit
  {}

  lemma StepWithinLimit(e: Env, v: View, event: Event, limit: nat)
    requires Inv(v) && v.attempts <= limit && Within([event], limit)
    ensures Step(e, v, event).attempts <= limit
  {
    assert RelogOf([event][0]).Some? ==> 0 <= RelogOf(event).value.retries <= limit;
    match event
    case Start(l) =>
      LaunchWithinLimit(e, Anew(v), l, false, limit);
    case RestartTimer(l) => TimerWithinLimit(e, v, l, limit);
    case Io(_, Exited(code, now, relog, spread)) => ExitWithinLimit(e, v, code, now, relog, spread, limit);
    case _ =>
  }

  /** Over every run with a retry limit: no more than `limit` automatic restarts since the last start
      command or lasting connection, and no more than one client besides theirs. */
  lemma {:induction false} RestartsBounded(e: Env, w: Tracked, events: seq<Event>, limit: nat)
    requires Inv(w.v) && Counted(w) && w.v.attempts <= limit && Within(events, limit)
    ensures var last := TrackAll(e, w, events);
      && Counted(last) && last.v.attempts <= limit
      && last.fired + Pending(last.v) <= limit && last.spawned <= limit + 1
    decreases |events|
  {
    if events != [] {
      assert Within([events[0]], limit) && Within(events[1..], limit);
      StepKeepsInv(e, w.v, events[0]);
      StepWithinLimit(e, w.v, events[0], limit);
      TrackKeepsCounts(e, w, events[0]);
      RestartsBounded(e, Track(e, w, events[0]), events[1..], limit);
    }
  }

  /** `last_cause` and `cause_repeats` always sum up the failures: the cause of the last one, and how
      many in a row had it. */
  lemma {:induction false} HistoryKept(e: Env, w: Tracked, events: seq<Event>)
    requires Inv(w.v) && SumsUp(w)
    ensures var last := TrackAll(e, w, events); Inv(last.v) && SumsUp(last)
    ensures TrackAll(e, w, events).v == Run(e, w.v, events)
    decreases |events|
  {
    if events != [] {
      StepKeepsInv(e, w.v, events[0]);
      TrackKeepsHistory(e, w, events[0]);
      HistoryKept(e, Track(e, w, events[0]), events[1..]);
    } 
  }

  /** Kicks that stop a session: a restart never follows a cause, not on the account's list, that
      was the cause of enough failures in a row; of any cause, five are enough. */
  lemma StreakStops(e: Env, w: Tracked, generation: nat, code: Option<int>, now: Time, relog: Relog, spread: Seconds)
    requires Inv(w.v) && SumsUp(w) && !w.v.over && IsCurrent(w.v, generation)
    requires w.v.failure.Some? && w.v.failure.value.Cause(e.t).Some?
    requires !Listed(e.t, relog, w.v.failure.value.message)
    ensures var next := Track(e, w, Io(generation, Exited(code, now, relog, spread)));
      var cause := w.v.failure.value.Cause(e.t).value;
      && KicksToStop(cause) <= REPEATED_KICKS
      && (next.v.restartAt.Some? ==> Streak(next.causes) < KicksToStop(cause))
      && (!w.v.stopRequested && Streak(next.causes) >= KicksToStop(cause) ==>
            next.v.state == Errored(Refused(cause, w.v.failure.value.message), false))
  {
    TrackKeepsHistory(e, w, Io(generation, Exited(code, now, relog, spread)));
    ExitRefuses(e, w.v, code, now, relog, spread);
  }

  /** The exit after a kick with a cause off the list counts it, and stops at the last one allowed. */
  lemma ExitRefuses(e: Env, v: View, code: Option<int>, now: Time, relog: Relog, spread: Seconds)
    requires Inv(v) && !v.over && v.process.Some?
    requires v.failure.Some? && v.failure.value.Cause(e.t).Some? && !Listed(e.t, relog, v.failure.value.message)
    ensures var next, cause := OnExited(e, v, code, now, relog, spread), v.failure.value.Cause(e.t).value;
      && (next.restartAt.Some? ==> next.causeRepeats < KicksToStop(cause))
      && (!v.stopRequested && next.causeRepeats >= KicksToStop(cause) ==>
            next.state == Errored(Refused(cause, v.failure.value.message), false))
  {
    assert MessageOf(v.failure.value.ToReason()) == v.failure.value.message;
  }

  predicate IsActive(state: State) { !state.Stopped? && !state.Errored? }

  /** Waiting for "no client runs and nothing is on its way" watches the right thing: the shown
      state, with no client running, is active just while a timer is set. */
  lemma IdleIsSeen(e: Env, events: seq<Event>)
    ensures var v := Run(e, IDLE, events);
      v.process.None? ==> (IsActive(v.state) <==> v.restartAt.Some?)
  {
    RunKeepsInv(e, IDLE, events);
  }

  /** A new session under a retry limit. */
  lemma NewSessionBounded(e: Env, events: seq<Event>, limit: nat)
    requires Within(events, limit)
    ensures var last := TrackAll(e, Tracked(IDLE, [], 0, 0), events);
      && Inv(last.v) && SumsUp(last) && last.v == Run(e, IDLE, events)
      && last.fired <= limit && last.spawned <= limit + 1
  {
    HistoryKept(e, Tracked(IDLE, [], 0, 0), events);
    RestartsBounded(e, Tracked(IDLE, [], 0, 0), events, limit);
  }

  // --- The actor itself --------------------------------------------------------------------------

  predicate HasClient(v: View) { Inv(v) && !v.over && v.process.Some? }

  /** Nothing runs or waits, and a client may be launched. */
  predicate MayLaunch(v: View, isRestart: bool) {
    && v.process.None? && v.restartAt.None? && v.paced.None? && !v.stopRequested && !v.over
    && v.killAt.None? && v.joinedAt.None?
    && (if isRestart then v.state.Reconnecting? else v.state.Starting?)
  }

  /** The client of the next generation runs, or no client was begun. */
  predicate BegunOnce(v: View, w: View) {
    w.generation == v.generation || (w.generation == v.generation + 1 && IsCurrent(w, w.generation))
  }

  lemma FailedMeans(e: Env, v: View, l: Launch, reason: FailureReason, isRestart: bool)
    ensures var w := LaunchFails(e, v, l, reason, isRestart);
      w.process == v.process && w.generation == v.generation && (MayLaunch(v, isRestart) ==> Inv(w))
  {}

  lemma LaunchMeans(e: Env, v: View, l: Launch, isRestart: bool)
    ensures MayLaunch(v, isRestart) ==> Inv(LaunchInTurn(e, v, l, isRestart)) && Inv(LaunchNow(e, v, l, isRestart))
    ensures BegunOnce(v, LaunchInTurn(e, v, l, isRestart)) && BegunOnce(v, LaunchNow(e, v, l, isRestart))
  {
    if MayLaunch(v, isRestart) { InvLaunch(e, v, l, isRestart); }
  }

  lemma StartMeans(e: Env, v: View, l: Launch)
    ensures var w := OnStart(e, v, l);
      && (Inv(v) && !v.over ==> Inv(w)) && BegunOnce(v, w)
      && (v.process.None? && v.paced.None? ==>
            !w.stopRequested && w.attempts == 0 && (w.process.Some? || w.restartAt.Some? || w.state.Errored?))
  {
    if Inv(v) && !v.over { InvStart(e, v, l); }
  }

  lemma TimerInv(e: Env, v: View, l: Launch)
    ensures Inv(v) && !v.over && v.restartAt.Some? ==> Inv(OnRestartTimer(e, v, l))
  {
    if Inv(v) && !v.over && v.restartAt.Some? { InvRestartTimer(e, v, l); }
  }

  lemma TimerFrame(e: Env, v: View, l: Launch)
    ensures BegunOnce(v, OnRestartTimer(e, v, l))
    ensures v.stopRequested ==> OnRestartTimer(e, v, l).generation == v.generation
  {
    var due := v.(restartAt := None, paced := None);
    if v.paced.Some? {
      LaunchMeans(e, due, l, v.paced.value);
    } else {
      var why := match v.state case Reconnecting(_, _, why) => why case _ => None;
      LaunchMeans(e, due.(state := Reconnecting(v.attempts, None, why), failure := None), l, true);
    }
  }

  lemma DisruptionInv(e: Env, v: View, report: Failure, now: Time, relog: Relog)
    ensures HasClient(v) ==> Inv(OnDisruption(e, v, report, now, relog))
  {
    if HasClient(v) { InvReport(e, v, Disrupted(report, now, relog)); }
  }

  lemma DisruptionFrame(e: Env, v: View, report: Failure, now: Time, relog: Relog)
    ensures var w := OnDisruption(e, v, report, now, relog);
      w.process == v.process && w.generation == v.generation && w.restartAt == v.restartAt
  {}

  lemma ExitInv(e: Env, v: View, code: Option<int>, now: Time, relog: Relog, spread: Seconds)
    ensures HasClient(v) ==> Inv(OnExited(e, v, code, now, relog, spread))
  {
    if HasClient(v) { InvGone(e, Gone(e, v, now), v.failure, code, now, relog, spread); }
  }

  lemma GoneFrame(e: Env, v: View, failure: Option<Failure>, code: Option<int>, now: Time, relog: Relog,
      spread: Seconds)
    ensures var w := OnGone(e, v, failure, code, now, relog, spread);
      w.process == v.process && w.generation == v.generation
  {}

  /** A client that was told to stop is not started again. */
  lemma ExitStopped(e: Env, v: View, code: Option<int>, now: Time, relog: Relog, spread: Seconds)
    requires HasClient(v) && v.stopRequested
    ensures var w := OnExited(e, v, code, now, relog, spread);
      w.state.Stopped? && w.restartAt.None?
  {
    StoppedIsGone(e, Gone(e, v, now), v.failure, code, now, relog, spread);
  }

  lemma StoppedIsGone(e: Env, v: View, failure: Option<Failure>, code: Option<int>, now: Time, relog: Relog,
      spread: Seconds)
    requires v.stopRequested && v.restartAt.None?
    ensures OnGone(e, v, failure, code, now, relog, spread) == v.(state := Stopped)
  {}

  // --- What an exit leads to ---------------------------------------------------------------------

  /** Failures before this one that still count, and those with its cause right before it. */
  function AttemptsBefore(e: Env, v: View, now: Time): nat { if Lasted(e, v, v.failure, now) then 0 else v.attempts }

  function RepeatsBefore(e: Env, v: View, now: Time): nat {
    if v.failure.None? || Lasted(e, v, v.failure, now) then 0 else RepeatsOf(e, v, v.failure.value)
  }

  /** The client is to be started again: as which restart, why and when is shown as it will be, after
      a wait within a fifth of the account's delay for that restart. */
  ghost predicate RestartDue(e: Env, v: View, attempt: nat, why: FailureReason, now: Time, relog: Relog) {
    && v.process.None? && v.paced.None? && v.restartAt.Some? && v.attempts == attempt
    && v.state == Reconnecting(attempt, v.restartAt, Some(why))
    && WithinFifth(v.restartAt.value - now, Delay(e.schedule, relog.delayMin, relog.delayMax, attempt))
  }

  lemma AppliedIsDue(e: Env, v: View, attempt: nat, why: FailureReason, now: Time, relog: Relog, spread: Seconds)
    requires e.schedule.Sound() && v.process.None? && v.paced.None?
    ensures RestartDue(e, ApplyDecision(e, v, RestartAs(attempt, why), now, relog, spread), attempt, why, now, relog)
  {
    DelayGrows(e.schedule, relog.delayMin, relog.delayMax, attempt, attempt);
    SpreadWithin(Delay(e.schedule, relog.delayMin, relog.delayMax, attempt), spread);
  }

  /** What is left to decide when the client is gone. */
  lemma GoneIs(e: Env, v: View, now: Time)
    ensures var w := Gone(e, v, now);
      && w.attempts == AttemptsBefore(e, v, now) && w.stopRequested == v.stopRequested
      && w.process.None? && w.restartAt == v.restartAt && w.paced == v.paced
      && (v.failure.Some? ==> RepeatsOf(e, w, v.failure.value) == RepeatsBefore(e, v, now))
  {
  }

  /** The client is started again exactly if it may be, and otherwise the session ends as it should. */
  ghost predicate ExitDone(e: Env, v: View, w: View, code: Option<int>, now: Time, relog: Relog) {
    var attempts, repeats := AttemptsBefore(e, v, now), RepeatsBefore(e, v, now);
    && (w.restartAt.Some? <==> MayRestart(e.t, relog, code, v.failure, attempts, repeats))
    && (w.restartAt.Some? ==> RestartDue(e, w, attempts + 1, ReasonShown(code, v.failure), now, relog))
    && (w.restartAt.None? ==> w.state == EndState(e, v.failure, code, relog, attempts, repeats))
  }

  /** Main theorem: a client that exits without being told to is started again exactly if the account's
      settings, its failure and the failures before it allow that, as one restart more, after the wait
      of that restart. Otherwise its session ends: stopped after a clean exit with the reconnect off,
      given up at the retry limit, refused for a cause, or failed with what is shown of the exit. */
  lemma ExitMeans(e: Env, v: View, code: Option<int>, now: Time, relog: Relog, spread: Seconds)
    requires HasClient(v) && !v.stopRequested && e.schedule.Sound()
    ensures ExitDone(e, v, OnExited(e, v, code, now, relog, spread), code, now, relog)
  {
    var attempts, repeats := AttemptsBefore(e, v, now), RepeatsBefore(e, v, now);
    GoneIs(e, v, now);
    ExitIs(e.t, relog, code, v.failure, attempts, repeats);
    OnGoneMeans(e, Gone(e, v, now), v.failure, code, now, relog, spread, attempts, repeats);
  }

  /** How a session ends that is not started again. */
  function EndState(e: Env, failure: Option<Failure>, code: Option<int>, relog: Relog, attempts: nat, repeats: nat)
    : State
  {
    if CauseStops(e.t, relog, failure, repeats) then
      Errored(Refused(failure.value.Cause(e.t).value, failure.value.message), false)
    else if !relog.enabled && failure.None? && code == Some(0) then Stopped
    else
      Errored(ReasonShown(code, failure),
              relog.enabled && !MayRetry(relog, attempts) && Passing(e.t, relog, code, failure))
  }

  lemma OnGoneMeans(e: Env, v: View, failure: Option<Failure>, code: Option<int>, now: Time, relog: Relog,
      spread: Seconds, attempts: nat, repeats: nat)
    requires v.process.None? && v.restartAt.None? && v.paced.None? && !v.stopRequested && e.schedule.Sound()
    requires v.attempts == attempts && repeats == if failure.Some? then RepeatsOf(e, v, failure.value) else 0
    ensures var w, d := OnGone(e, v, failure, code, now, relog, spread),
                        DecideExit(e.t, relog, false, code, failure, attempts, repeats);
      && (w.restartAt.Some? <==> d.RestartAs?)
      && (d.RestartAs? ==> RestartDue(e, w, d.attempt, d.reason, now, relog))
      && (!d.RestartAs? ==> w.state == StateOf(d))
  {
    var noted := NoteCause(v, if failure.Some? then failure.value.Cause(e.t) else None);
    var d := DecideExit(e.t, relog, false, code, failure, attempts, repeats);
    if d.RestartAs? { AppliedIsDue(e, noted, d.attempt, d.reason, now, relog, spread); }
  }

  /** The state of a session that is not started again. */
  function StateOf(decision: Decision): State {
    match decision
    case Fail(reason) => Errored(reason, false)
    case GiveUp(reason) => Errored(reason, true)
    case _ => Stopped
  }

  /** The restart is due again exactly if it may be tried again, and otherwise the failure shows. */
  ghost predicate FailureDone(e: Env, v: View, w: View, l: Launch, reason: FailureReason, isRestart: bool) {
    && (w.restartAt.Some? <==>
          isRestart && l.relog.enabled && MayRetry(l.relog, v.attempts) && !reason.UnsupportedVersion?)
    && (w.restartAt.Some? ==> RestartDue(e, w, v.attempts + 1, reason, l.now, l.relog))
    && (w.restartAt.None? ==>
          w.state == Errored(reason, isRestart && l.relog.enabled && !reason.UnsupportedVersion?))
  }

  /** A restart that cannot be launched is tried again, as one restart more, exactly if the reconnect
      is on and within its limit, unless the version is at fault; the first launch is not. */
  lemma FailedLaunchMeans(e: Env, v: View, l: Launch, reason: FailureReason, isRestart: bool)
    requires MayLaunch(v, isRestart) && e.schedule.Sound()
    ensures FailureDone(e, v, LaunchFails(e, v, l, reason, isRestart), l, reason, isRestart)
  {
    if isRestart && l.relog.enabled {
      LaunchFailureIs(e.t, l.relog, reason, v.attempts);
      if DecideFailure(e.t, l.relog, None, reason, v.attempts, 0).RestartAs? {
        AppliedIsDue(e, NoteCause(v, None), v.attempts + 1, reason, l.now, l.relog, l.spread);
      }
    }
  }

  /** A launch begins the next client at once, waits for its slot, or fails. */
  ghost predicate Launched(e: Env, v: View, l: Launch, isRestart: bool, w: View) {
    match l.prepared
    case Ready(_) =>
      if l.spawns then w.process == Some(Running(v.generation + 1, false)) && w.state == Connecting && w.restartAt.None?
      else w == LaunchFails(e, v, l, LaunchFailed, isRestart)
    case Unready(reason) => w == LaunchFails(e, v, l, reason, isRestart)
  }

  /** A client begins, waits for its slot, or the failure shows. */
  ghost predicate StartDone(e: Env, v: View, l: Launch, w: View) {
    if l.slot.Some? then
      w.process.None? && w.restartAt == l.slot && w.paced == Some(false) && w.state == Starting
    else
      exists anew :: MayLaunch(anew, false) && anew.attempts == 0 && anew.generation == v.generation
        && Launched(e, anew, l, false, w)
  }

  /** A start command from rest. */
  lemma StartBegins(e: Env, v: View, l: Launch)
    requires Inv(v) && !v.over && v.process.None? && v.paced.None?
    ensures StartDone(e, v, l, OnStart(e, v, l))
  {
    assert MayLaunch(Anew(v), false) && Anew(v).attempts == 0 && Anew(v).generation == v.generation;
    if l.slot.None? { assert Launched(e, Anew(v), l, false, OnStart(e, v, l)); }
  }

  /** The client that waited for its slot begins; a restart begins, or waits for a slot in turn. */
  ghost predicate TimerDone(e: Env, v: View, l: Launch, w: View) {
    if v.paced.None? && l.slot.Some? then
      && w.process.None? && w.restartAt == l.slot && w.paced == Some(true)
      && w.state.Reconnecting? && w.state.attempt == v.attempts && w.state.nextAttemptAt == l.slot
    else
      exists due :: MayLaunch(due, v.paced != Some(false)) && due.attempts == v.attempts
        && due.generation == v.generation && Launched(e, due, l, v.paced != Some(false), w)
  }

  /** A timer that is due. */
  lemma TimerBegins(e: Env, v: View, l: Launch)
    requires Inv(v) && !v.over && v.restartAt.Some?
    ensures TimerDone(e, v, l, OnRestartTimer(e, v, l))
  {
    var due := DueView(v);
    assert MayLaunch(due, v.paced != Some(false)) && due.attempts == v.attempts && due.generation == v.generation;
    if v.paced.Some? || l.slot.None? { assert Launched(e, due, l, v.paced != Some(false), OnRestartTimer(e, v, l)); }
  }

  function DueView(v: View): View {
    var due := v.(restartAt := None, paced := None);
    if v.paced.Some? then due
    else
      var why := match v.state case Reconnecting(_, _, why) => why case _ => None;
      due.(state := Reconnecting(v.attempts, None, why), failure := None)
  }

  /** A reported problem shows what the exit right after it decides: another restart, with the same
      count and reason, or the same end. */
  lemma DisruptionForetells(e: Env, v: View, report: Failure, code: Option<int>, now: Time, relog: Relog,
      spread: Seconds)
    requires HasClient(v) && !v.stopRequested && e.schedule.Sound()
    ensures var w := OnDisruption(e, v, report, now, relog);
      var x := OnExited(e, w, code, now, relog, spread);
      && (x.restartAt.Some? <==> w.state.Reconnecting?)
      && (w.state.Reconnecting? ==> w.state.nextAttemptAt.None? && x.state == w.state.(nextAttemptAt := x.restartAt))
      && (!w.state.Reconnecting? ==> x.state == w.state)
  {
    var failure := Merge(v.failure, report);
    var w := OnDisruption(e, v, report, now, relog);
    ReportedIs(e, v, report, now, relog);
    GoneIs(e, w, now);
    OnGoneMeans(e, Gone(e, w, now), w.failure, code, now, relog, spread, w.attempts, RepeatsOf(e, w, failure));
  }

  /** The reported problem is kept, and weighed as the exit will weigh it. */
  lemma ReportedIs(e: Env, v: View, report: Failure, now: Time, relog: Relog)
    requires HasClient(v) && !v.stopRequested
    ensures var failure, w := Merge(v.failure, report), OnDisruption(e, v, report, now, relog);
      var d := DecideFailure(e.t, relog, failure.reason, failure.ToReason(), w.attempts, RepeatsOf(e, w, failure));
      && w.failure == Some(failure) && !w.stopRequested && w.restartAt.None? && w.paced.None?
      && AttemptsBefore(e, w, now) == w.attempts && RepeatsBefore(e, w, now) == RepeatsOf(e, w, failure)
      && w.state == (match d
                     case RestartAs(attempt, why) => Reconnecting(attempt, None, Some(why))
                     case _ => StateOf(d))
  {
  }

  /** A connection that lasted starts the count over: the next restart is the first again. */
  lemma LastingStartsOver(e: Env, v: View, since: Time, code: Option<int>, now: Time, relog: Relog, spread: Seconds)
    requires HasClient(v) && !v.stopRequested && e.schedule.Sound() && now - since >= e.schedule.stableAfter
    ensures var w := OnReport(e, v, Joined(since));
      var x := OnExited(e, w, code, now, relog, spread);
      && w.state == Connected(since)
      && (x.restartAt.Some? <==>
            relog.enabled && relog.retries != 0
            && (code == Some(2) || code == Some(4) ==> relog.ignoreKickMessage || Listed(e.t, relog, None)))
      && (x.restartAt.Some? ==> RestartDue(e, x, 1, ReasonShown(code, None), now, relog))
  {
    var w := OnReport(e, v, Joined(since));
    InvReport(e, v, Joined(since));
    ExitMeans(e, w, code, now, relog, spread);
  }

  /** A kick for the login does not count as a connection that lasted, however long it did: the count
      and the streak of its cause go on. */
  lemma LoginKickCounts(e: Env, v: View, code: Option<int>, now: Time, relog: Relog, spread: Seconds)
    requires HasClient(v) && !v.stopRequested && e.schedule.Sound()
    requires v.failure.Some? && v.failure.value.Cause(e.t).Some? && IsLogin(v.failure.value.Cause(e.t).value)
    ensures var w := OnExited(e, v, code, now, relog, spread);
      && (w.restartAt.Some? ==> w.attempts == v.attempts + 1)
      && w.lastCause == v.failure.value.Cause(e.t)
      && w.causeRepeats == RepeatsOf(e, v, v.failure.value) + 1
  {
    assert !Lasted(e, v, v.failure, now);
    ExitMeans(e, v, code, now, relog, spread);
    CausesNoted(e, Gone(e, v, now), v.failure.value, code, now, relog, spread);
  }

  lemma CausesNoted(e: Env, v: View, failure: Failure, code: Option<int>, now: Time, relog: Relog, spread: Seconds)
    requires !v.stopRequested && failure.Cause(e.t).Some?
    ensures var w := OnGone(e, v, Some(failure), code, now, relog, spread);
      w.lastCause == failure.Cause(e.t) && w.causeRepeats == RepeatsOf(e, v, failure) + 1
  {
  }

  /** The message of a kick survives the report without one that follows it. */
  lemma MessageSurvives(e: Env, v: View, reason: Option<DisconnectReason>, message: string, first: bool, second: bool,
      now: Time, later: Time, relog: Relog)
    requires HasClient(v) && !v.stopRequested
    ensures var w := OnDisruption(e, v, Failure.Failure(reason, Some(message), first), now, relog);
      var x := OnDisruption(e, w, Failure.Failure(reason, None, second), later, relog);
      x.failure == Some(Failure.Failure(reason, Some(message), first || second))
  {
  }

  /** A stop is carried out: the client is killed when its grace is over, and its exit ends the
      session. */
  lemma StopEnds(e: Env, v: View, asked: Time, code: Option<int>, now: Time, relog: Relog, spread: Seconds)
    requires HasClient(v)
    ensures var w := OnStop(e, v, asked);
      && w.state == Stopping && w.process == v.process && w.killAt.Some?
      && (v.killAt.None? ==> w.killAt == Some(asked + e.stopGrace))
      && OnKillTimer(w).process == Some(v.process.value.(killed := true)) && OnKillTimer(w).killAt.None?
      && (forall x :: x == w || x == OnKillTimer(w) ==>
            OnExited(e, x, code, now, relog, spread).state == Stopped
            && OnExited(e, x, code, now, relog, spread).restartAt.None?)
  {
    var w := OnStop(e, v, asked);
    assert HasClient(w) && HasClient(OnKillTimer(w));
    ExitStopped(e, w, code, now, relog, spread);
    ExitStopped(e, OnKillTimer(w), code, now, relog, spread);
  }

  /** No timer or slot is left; a client is told to go, and killed when its grace is over. */
  predicate StopDone(e: Env, v: View, now: Time, w: View) {
    && w.stopRequested && w.restartAt.None? && w.paced.None? && w.process == v.process && w.generation == v.generation
    && (v.process.None? ==> w.state == Stopped)
    && (v.process.Some? ==>
          w.state == Stopping && w.killAt == if v.killAt.Some? then v.killAt else Some(now + e.stopGrace))
  }

  /** What the client's output does. */
  ghost predicate ReportDone(e: Env, v: View, report: Report, w: View) {
    match report
    case ConnectingNow =>
      w == if v.stopRequested || v.state.Connected? || v.state.Errored? then v else v.(state := Connecting)
    case Joined(now) =>
      if v.stopRequested then w == v
      else w.state == Connected(now) && w.joinedAt == Some(now) && w.failure.None? && w.process == v.process
    case Disrupted(_, _, _) => w.process == v.process && w.restartAt == v.restartAt && (v.stopRequested ==> w == v)
    case OtherOutput => w == v
    case Exited(code, now, relog, _) =>
      w.process.None? && (if v.stopRequested then w.state == Stopped && w.restartAt.None?
                          else ExitDone(e, v, w, code, now, relog))
  }

  lemma ReportMeans(e: Env, v: View, report: Report)
    requires HasClient(v) && e.schedule.Sound()
    ensures ReportDone(e, v, report, OnReport(e, v, report))
  {
    match report
    case Exited(code, now, relog, spread) =>
      if v.stopRequested {
        ExitStopped(e, v, code, now, relog, spread);
      } else {
        ExitMeans(e, v, code, now, relog, spread);
      }
    case Disrupted(failure, now, relog) => DisruptionFrame(e, v, failure, now, relog);
    case _ =>
  }

  /** Main theorem: what each event does to a session that goes on. */
  lemma EventMeans(e: Env, v: View, event: Event)
    requires Inv(v) && !v.over && e.schedule.Sound()
    ensures var w := Step(e, v, event);
      match event
      case Start(l) => if v.process.Some? || v.paced.Some? then w == v else StartDone(e, v, l, w)
      case Stop(now) => StopDone(e, v, now, w)
      case Send(line, now) => if line.Quit? && v.process.Some? then StopDone(e, v, now, w) else w == v
      case Shutdown => w.over && w.process.None? && w.restartAt.None? && w.paced.None? && w.state == Stopped
      case RestartTimer(l) => if v.restartAt.Some? then TimerDone(e, v, l, w) else w == v
      case KillTimer =>
        w == if v.killAt.None? then v
             else v.(killAt := None, process := Some(v.process.value.(killed := true)))
      case Io(generation, report) => if IsCurrent(v, generation) then ReportDone(e, v, report, w) else w == v
  {
    match event
    case Start(l) => if v.process.None? && v.paced.None? { StartBegins(e, v, l); }
    case RestartTimer(l) => if v.restartAt.Some? { TimerBegins(e, v, l); }
    case Io(generation, report) => if IsCurrent(v, generation) { ReportMeans(e, v, report); }
    case _ =>
  }

  class Actor {
    const e: Env
    var process: Option<Running>
    var generation: nat
    var stopRequested: bool
    var attempts: nat
    var joinedAt: Option<Time>
    var lastCause: Option<KickCause>
    var causeRepeats: nat
    var restartAt: Option<Time>
    var paced: Option<bool>
    var killAt: Option<Time>
    var failure: Option<Failure>
    var state: State
    var launchedRevision: Option<nat>
    var over: bool

    ghost function Fields(): View
      reads this
    {
      View(process, generation, stopRequested, attempts, joinedAt, lastCause, causeRepeats, restartAt, paced,
           killAt, failure, state, launchedRevision, over)
    }

    constructor (e: Env)
      ensures this.e == e && Fields() == IDLE
    {
      this.e := e;
      process, generation, stopRequested, attempts, joinedAt := None, 0, false, 0, None;
      lastCause, causeRepeats, restartAt, paced, killAt := None, 0, None, None, None;
      failure, state, launchedRevision, over := None, Stopped, None, false;
    }

    method NoteTheCause(cause: Option<KickCause>)
      modifies this
      ensures Fields() == NoteCause(old(Fields()), cause)
    {
      if cause.Some? && cause == lastCause {
        causeRepeats := causeRepeats + 1;
      } else {
        lastCause := cause;
        causeRepeats := if cause.Some? then 1 else 0;
      }
    }

    method ForgetAfterLasting(failure: Option<Failure>, now: Time)
      modifies this
      ensures Fields() == ForgetFailures(e, old(Fields()), failure, now)
    {
      var cause := if failure.Some? then failure.value.Cause(e.t) else None;
      if joinedAt.Some? && Lasting(e.schedule, now - joinedAt.value, cause) {
        attempts := 0;
        lastCause := None;
        causeRepeats := 0;
      }
    }

    method CountRepeats(failure: Failure) returns (repeats: nat)
      ensures repeats == RepeatsOf(e, Fields(), failure)
    {
      var cause := failure.Cause(e.t);
      repeats := if cause.Some? && cause == lastCause then causeRepeats else 0;
    }

    method Apply(decision: Decision, now: Time, relog: Relog, spread: Seconds)
      modifies this
      ensures Fields() == ApplyDecision(e, old(Fields()), decision, now, relog, spread)
    {
      match decision
      case Stop => state := Stopped;
      case Fail(reason) => state := Errored(reason, false);
      case GiveUp(reason) => state := Errored(reason, true);
      case RestartAs(attempt, reason) =>
        attempts := attempt;
        var delay := SpreadDelay(e.schedule, relog.delayMin, relog.delayMax, attempt, spread);
        restartAt := Some(now + delay);
        state := Reconnecting(attempt, restartAt, Some(reason));
    }

    method LaunchHasFailed(l: Launch, reason: FailureReason, isRestart: bool)
      modifies this
      ensures Fields() == LaunchFails(e, old(Fields()), l, reason, isRestart)
      ensures process == old(process) && generation == old(generation)
      ensures old(MayLaunch(Fields(), isRestart)) ==> Inv(Fields())
      ensures old(MayLaunch(Fields(), isRestart)) && e.schedule.Sound() ==>
        FailureDone(e, old(Fields()), Fields(), l, reason, isRestart)
    {
      if MayLaunch(Fields(), isRestart) && e.schedule.Sound() {
        FailedLaunchMeans(e, Fields(), l, reason, isRestart);
      }
      FailedMeans(e, Fields(), l, reason, isRestart);
      if isRestart && l.relog.enabled {
        var decision := DecideFailure(e.t, l.relog, None, reason, attempts, 0);
        NoteTheCause(None);
        Apply(decision, l.now, l.relog, l.spread);
      } else {
        state := Errored(reason, false);
      }
    }

    method SpawnClient(l: Launch, revision: nat, isRestart: bool)
      modifies this
      ensures Fields() ==
        if l.spawns then Spawned(old(Fields()), revision, isRestart)
        else LaunchFails(e, old(Fields()), l, LaunchFailed, isRestart)
      ensures l.spawns ==> IsCurrent(Fields(), old(generation) + 1)
      ensures !l.spawns ==> process == old(process) && generation == old(generation)
      ensures old(MayLaunch(Fields(), isRestart)) ==> Inv(Fields())
    {
      LaunchMeans(e, Fields(), l.(prepared := Ready(revision)), isRestart);
      if !l.spawns {
        LaunchHasFailed(l, LaunchFailed, isRestart);
        return;
      }
      generation := generation + 1;
      process := Some(Running(generation, false));
      var savedSince := isRestart && launchedRevision.Some? && launchedRevision.value != revision;
      launchedRevision := Some(revision);
      if savedSince {
        lastCause := None;
        causeRepeats := 0;
      }
      state := Connecting;
    }

    method LaunchAtOnce(l: Launch, isRestart: bool)
      modifies this
      ensures Fields() == LaunchNow(e, old(Fields()), l, isRestart)
    {
      match l.prepared
      case Ready(revision) => SpawnClient(l, revision, isRestart);
      case Unready(reason) => LaunchHasFailed(l, reason, isRestart);
    }

    method TakeSlot(slot: Time, isRestart: bool)
      modifies this
      ensures Fields() == WaitForSlot(old(Fields()), slot, isRestart)
    {
      paced := Some(isRestart);
      restartAt := Some(slot);
      if isRestart {
        match state
        case Reconnecting(attempt, _, why) => state := Reconnecting(attempt, Some(slot), why);
        case _ => state := Reconnecting(attempts, Some(slot), None);
      }
    }

    method LaunchClient(l: Launch, isRestart: bool)
      modifies this
      ensures Fields() == LaunchInTurn(e, old(Fields()), l, isRestart)
      ensures old(MayLaunch(Fields(), isRestart)) ==> Inv(Fields())
      ensures BegunOnce(old(Fields()), Fields())
    {
      LaunchMeans(e, Fields(), l, isRestart);
      if l.slot.Some? {
        TakeSlot(l.slot.value, isRestart);
        return;
      }
      LaunchAtOnce(l, isRestart);
    }

    method BeginAnew()
      modifies this
      ensures Fields() == Anew(old(Fields()))
    {
      stopRequested := false;
      restartAt := None;
      attempts := 0;
      joinedAt := None;
      lastCause := None;
      causeRepeats := 0;
      failure := None;
      state := Starting;
    }

    method StartIt(l: Launch)
      modifies this
      ensures Fields() == OnStart(e, old(Fields()), l)
      ensures old(Inv(Fields()) && !over) ==> Inv(Fields())
      ensures old(process.Some? || paced.Some?) ==> Fields() == old(Fields())
      ensures old(process.None? && paced.None?) ==>
        !stopRequested && attempts == 0 && (process.Some? || restartAt.Some? || state.Errored?)
      ensures BegunOnce(old(Fields()), Fields())
    {
      StartMeans(e, Fields(), l);
      if process.Some? || paced.Some? {
        return;
      }
      BeginAnew();
      LaunchClient(l, false);
    }

    method StopIt(now: Time)
      modifies this
      ensures Fields() == OnStop(e, old(Fields()), now)
      ensures old(Inv(Fields()) && !over) ==> Inv(Fields())
      ensures stopRequested && restartAt.None? && paced.None?
      ensures generation == old(generation) && process == old(process)
      ensures old(Inv(Fields()) && !over) ==> (process.Some? <==> killAt.Some?)
    {
      restartAt := None;
      paced := None;
      stopRequested := true;
      if process.None? {
        state := Stopped;
      } else {
        if killAt.None? {
          killAt := Some(now + e.stopGrace);
        }
        state := Stopping;
      }
    }

    method ShutDown()
      modifies this
      ensures Fields() == OnShutdown(old(Fields()))
      ensures old(Inv(Fields())) ==> Inv(Fields())
      ensures over && process.None? && restartAt.None? && paced.None? && generation == old(generation)
    {
      restartAt := None;
      paced := None;
      stopRequested := true;
      process := None;
      state := Stopped;
      over := true;
    }

    method RestartIsDue(l: Launch)
      modifies this
      ensures Fields() == OnRestartDue(e, old(Fields()), l)
    {
      if stopRequested || process.Some? {
        return;
      }
      var why := match state case Reconnecting(_, _, why) => why case _ => None;
      state := Reconnecting(attempts, None, why);
      failure := None;
      LaunchClient(l, true);
    }

    method RestartTimerFires(l: Launch)
      modifies this
      ensures Fields() == OnRestartTimer(e, old(Fields()), l)
      ensures old(Inv(Fields()) && !over && restartAt.Some?) ==> Inv(Fields())
      ensures BegunOnce(old(Fields()), Fields())
      ensures old(stopRequested) ==> generation == old(generation)
    {
      TimerInv(e, Fields(), l);
      TimerFrame(e, Fields(), l);
      restartAt := None;
      var turn := paced;
      paced := None;
      match turn
      case Some(isRestart) =>
        if !stopRequested && process.None? {
          LaunchAtOnce(l, isRestart);
        }
      case None => RestartIsDue(l);
    }

    method KillTimerFires()
      modifies this
      ensures Fields() == OnKillTimer(old(Fields()))
    {
      killAt := None;
      if process.Some? {
        process := Some(process.value.(killed := true));
      }
    }

    method Disruption(report: Failure, now: Time, relog: Relog)
      modifies this
      ensures Fields() == OnDisruption(e, old(Fields()), report, now, relog)
      ensures old(HasClient(Fields())) ==> Inv(Fields())
      ensures process == old(process) && generation == old(generation) && restartAt == old(restartAt)
    {
      DisruptionInv(e, Fields(), report, now, relog);
      DisruptionFrame(e, Fields(), report, now, relog);
      if stopRequested {
        return;
      }
      var merged := Merge(failure, report);
      ForgetAfterLasting(Some(merged), now);
      failure := Some(merged);
      var repeats := CountRepeats(merged);
      var decision := DecideFailure(e.t, relog, merged.reason, merged.ToReason(), attempts, repeats);
      match decision
      case RestartAs(attempt, reason) => state := Reconnecting(attempt, None, Some(reason));
      case GiveUp(reason) => state := Errored(reason, true);
      case Fail(reason) => state := Errored(reason, false);
      case Stop => state := Stopped;
    }

    method ProcessGone(now: Time)
      modifies this
      ensures Fields() == Gone(e, old(Fields()), now)
    {
      process := None;
      killAt := None;
      var last := failure;
      failure := None;
      ForgetAfterLasting(last, now);
      joinedAt := None;
    }

    method DecideAfter(last: Option<Failure>, code: Option<int>, now: Time, relog: Relog, spread: Seconds)
      modifies this
      ensures Fields() == OnGone(e, old(Fields()), last, code, now, relog, spread)
    {
      var repeats := 0;
      if last.Some? {
        repeats := CountRepeats(last.value);
      }
      var decision := DecideExit(e.t, relog, stopRequested, code, last, attempts, repeats);
      if !stopRequested {
        NoteTheCause(if last.Some? then last.value.Cause(e.t) else None);
      }
      Apply(decision, now, relog, spread);
    }

    /** A client that was told to stop is not started again. */
    method ClientExited(code: Option<int>, now: Time, relog: Relog, spread: Seconds)
      modifies this
      ensures Fields() == OnExited(e, old(Fields()), code, now, relog, spread)
      ensures HasClient(old(Fields())) ==> Inv(Fields())
      ensures process.None? && generation == old(generation)
      ensures HasClient(old(Fields())) && old(stopRequested) ==> state.Stopped? && restartAt.None?
      ensures old(HasClient(Fields()) && !stopRequested) && e.schedule.Sound() ==>
        ExitDone(e, old(Fields()), Fields(), code, now, relog)
    {
      if HasClient(Fields()) && !stopRequested && e.schedule.Sound() {
        ExitMeans(e, Fields(), code, now, relog, spread);
      }
      ExitInv(e, Fields(), code, now, relog, spread);
      GoneFrame(e, Gone(e, Fields(), now), failure, code, now, relog, spread);
      if HasClient(Fields()) && stopRequested { ExitStopped(e, Fields(), code, now, relog, spread); }
      var last := failure;
      ProcessGone(now);
      DecideAfter(last, code, now, relog, spread);
    }

    method ReportCame(report: Report)
      modifies this
      ensures Fields() == OnReport(e, old(Fields()), report)
    {
      match report
      case ConnectingNow =>
        if !stopRequested && (state.Starting? || state.Connecting? || state.Reconnecting?) {
          state := Connecting;
        }
      case Joined(now) =>
        if stopRequested {
          return;
        }
        joinedAt := Some(now);
        failure := None;
        state := Connected(now);
      case Disrupted(reported, now, relog) => Disruption(reported, now, relog);
      case OtherOutput =>
      case Exited(code, now, relog, spread) => ClientExited(code, now, relog, spread);
    }

    /** One turn of the actor's loop. */
    method Handle(event: Event)
      modifies this
      ensures Fields() == Step(e, old(Fields()), event)
      ensures Inv(old(Fields())) ==> Inv(Fields())
    {
      StepKeepsInv'(e, Fields(), event);
      if over {
        return;
      }
      match event
      case Start(l) => StartIt(l);
      case Stop(now) => StopIt(now);
      case Send(line, now) =>
        if line.Quit? && process.Some? {
          StopIt(now);
        }
      case Shutdown => ShutDown();
      case RestartTimer(l) =>
        if restartAt.Some? {
          RestartTimerFires(l);
        }
      case KillTimer =>
        if killAt.Some? {
          KillTimerFires();
        }
      case Io(from, report) =>
        if process.Some? && process.value.generation == from {
          ReportCame(report);
        }
    }
  }

  lemma StepKeepsInv'(e: Env, v: View, event: Event)
    ensures Inv(v) ==> Inv(Step(e, v, event))
  {
    if Inv(v) { StepKeepsInv(e, v, event); }
  }
}
