/** How connects share one background preparation of the client (`manager.rs`): every locked section
    is one step, in any interleaving. A cancelled preparation may be replaced while its task still
    runs, and its task may finish after the newer one started. */
module Preparation {
  import opened Wrappers

  type Id = string
  type Problem = string

  /** `start`: a connect, whose session starts once the client is ready. */
  datatype Waiter = Waiter(start: bool, serial: nat)

  datatype Prep = Prep(serial: nat, waiters: map<Id, Waiter>, cancelled: bool)

  datatype Outcome = Ready | Failed(problem: Problem) | Cancelled

  /** The locked state, and what happened outside of it: the tasks at work, the outcomes they told
      the state and published, the waiters that ever joined (with their preparation and account),
      those whose token fired, and those whose session was started. */
  datatype World = World(
    current: Option<Prep>,
    failed: map<Id, Problem>,
    serial: nat,
    working: set<nat>,
    told: map<nat, Outcome>,
    published: set<nat>,
    joined: map<nat, (nat, Id)>,
    left: set<nat>,
    started: set<nat>)

  const EMPTY := World(None, map[], 0, {}, map[], {}, map[], {}, {})

  datatype Event =
    | Join(ids: seq<Id>, start: bool)
    | Leave(id: Id)
    | LeaveRun(id: Id, waiter: nat)
    | Finish(task: nat, outcome: Outcome, accounts: set<Id>)
    | Publish(task: nat)

  // --- What one step does ------------------------------------------------------------------------

  function WithPreparation(w: World): World {
    if w.current.Some? && !w.current.value.cancelled then w
    else
      w.(serial := w.serial + 1,
         current := Some(Prep(w.serial + 1, map[], false)),
         working := w.working + {w.serial + 1})
  }

  function AddWaiter(w: World, id: Id, start: bool): World
    requires w.current.Some?
  {
    var prep := w.current.value;
    if id in prep.waiters then
      var waiter := prep.waiters[id];
      w.(current := Some(prep.(waiters := prep.waiters[id := waiter.(start := waiter.start || start)])))
    else
      w.(serial := w.serial + 1,
         current := Some(prep.(waiters := prep.waiters[id := Waiter(start, w.serial + 1)])),
         joined := w.joined[w.serial + 1 := (prep.serial, id)])
  }

  function AddWaiters(w: World, ids: seq<Id>, start: bool): World
    requires w.current.Some?
  {
    if ids == [] then w else AddWaiter(AddWaiters(w, ids[..|ids| - 1], start), ids[|ids| - 1], start)
  }

  function SetOf(ids: seq<Id>): set<Id> { set id | id in ids }

  function OnJoin(w: World, ids: seq<Id>, start: bool): World {
    AddWaiters(WithPreparation(w.(failed := w.failed - SetOf(ids))), ids, start)
  }

  /** A waiter goes; the last one to leave stops the preparation. */
  function TakeOff(w: World, id: Id): World
    requires w.current.Some? && id in w.current.value.waiters
  {
    var prep := w.current.value;
    var rest := prep.waiters - {id};
    w.(left := w.left + {prep.waiters[id].serial},
       current := Some(prep.(waiters := rest, cancelled := prep.cancelled || rest == map[])))
  }

  function OnLeave(w: World, id: Id): World {
    var forgot := w.(failed := w.failed - {id});
    if w.current.Some? && id in w.current.value.waiters then TakeOff(forgot, id) else forgot
  }

  /** Unless a connect took the waiter over since. */
  function OnLeaveRun(w: World, id: Id, waiter: nat): World {
    if w.current.Some? && id in w.current.value.waiters
       && w.current.value.waiters[id].serial == waiter && !w.current.value.waiters[id].start
    then TakeOff(w, id) else w
  }

  function FailedWith(waiters: map<Id, Waiter>, problem: Problem): map<Id, Problem> {
    map id | id in waiters :: problem
  }

  function StartedOf(waiters: map<Id, Waiter>, accounts: set<Id>): set<nat> {
    set id | id in waiters && id in accounts && waiters[id].start :: waiters[id].serial
  }

  /** The task takes the preparation only when it is its own. */
  function OnFinish(w: World, task: nat, outcome: Outcome, accounts: set<Id>): World {
    var ours := w.current.Some? && w.current.value.serial == task;
    var waiters := if ours then w.current.value.waiters else map[];
    w.(current := if ours then None else w.current,
       failed := match outcome
         case Ready => map[]
         case Failed(problem) => w.failed + FailedWith(waiters, problem)
         case Cancelled => w.failed,
       working := w.working - {task},
       told := w.told[task := outcome],
       started := if outcome.Ready? then w.started + StartedOf(waiters, accounts) else w.started)
  }

  function Step(w: World, event: Event): World {
    match event
    case Join(ids, start) => if ids == [] then w else OnJoin(w, ids, start)
    case Leave(id) => OnLeave(w, id)
    case LeaveRun(id, waiter) => OnLeaveRun(w, id, waiter)
    case Finish(task, outcome, accounts) => if task in w.working then OnFinish(w, task, outcome, accounts) else w
    case Publish(task) => if task in w.told then w.(published := w.published + {task}) else w
  }

  function Run(w: World, events: seq<Event>): World
    decreases |events|
  {
    if events == [] then w else Run(Step(w, events[0]), events[1..])
  }

  // --- What every interleaving keeps -------------------------------------------------------------

  ghost predicate Waits(w: World, waiter: nat) {
    && waiter in w.joined && w.current.Some?
    && w.joined[waiter].0 == w.current.value.serial
    && w.joined[waiter].1 in w.current.value.waiters
    && w.current.value.waiters[w.joined[waiter].1].serial == waiter
  }

  /** The current preparation; while `unjoined`, it may still be without its first waiter. */
  ghost predicate CurrentOk(w: World, unjoined: bool) {
    w.current.Some? ==>
      var prep := w.current.value;
      && prep.serial in w.working
      && (prep.cancelled ==> prep.waiters == map[])
      && (prep.waiters == map[] ==> unjoined || prep.cancelled)
      && prep.waiters.Keys !! w.failed.Keys
      && (forall id :: id in prep.waiters ==>
            && prep.waiters[id].serial in w.joined
            && w.joined[prep.waiters[id].serial] == (prep.serial, id)
            && prep.waiters[id].serial !in w.left)
  }

  ghost predicate TasksOk(w: World) {
    && (forall task :: task in w.working ==> task <= w.serial && task !in w.told)
    && (forall task :: task in w.told ==> task <= w.serial)
    && w.published <= w.told.Keys
  }

  ghost predicate WaitersOk(w: World) {
    && w.left <= w.joined.Keys
    && (forall waiter :: waiter in w.joined ==>
          waiter <= w.serial && (w.joined[waiter].0 in w.working || w.joined[waiter].0 in w.told))
    && (forall waiter :: waiter in w.joined && waiter !in w.left && w.joined[waiter].0 in w.working ==>
          Waits(w, waiter))
  }

  ghost predicate StartedOk(w: World) {
    forall waiter :: waiter in w.started ==>
      waiter in w.joined && waiter !in w.left && w.joined[waiter].0 in w.told && w.told[w.joined[waiter].0].Ready?
  }

  ghost predicate InvOf(w: World, unjoined: bool) {
    CurrentOk(w, unjoined) && TasksOk(w) && WaitersOk(w) && StartedOk(w)
  }

  /** The current preparation is cancelled just when nobody waits; no account both waits and is
      recorded as failed; a waiter of a task at work waits on the current preparation or left. */
  ghost predicate Inv(w: World) { InvOf(w, false) }

  lemma WithPreparationInv(w: World)
    requires Inv(w)
    ensures InvOf(WithPreparation(w), true)
    ensures !WithPreparation(w).current.value.cancelled
  {
    var next := WithPreparation(w);
    if next != w {
      assert forall waiter :: waiter in w.joined && waiter !in w.left ==> !Waits(w, waiter);
    }
  }

  lemma AddWaiterInv(w: World, id: Id, start: bool)
    requires InvOf(w, true) && w.current.Some? && !w.current.value.cancelled && id !in w.failed
    ensures Inv(AddWaiter(w, id, start)) && !AddWaiter(w, id, start).current.value.cancelled
  {
    var next := AddWaiter(w, id, start);
    assert id in next.current.value.waiters;
    AddWaiterWaits(w, id, start);
    assert CurrentOk(next, false) && StartedOk(next);
  }

  lemma AddWaiterWaits(w: World, id: Id, start: bool)
    requires InvOf(w, true) && w.current.Some?
    ensures WaitersOk(AddWaiter(w, id, start))
  {
    var next := AddWaiter(w, id, start);
    forall waiter | waiter in next.joined && waiter !in next.left && next.joined[waiter].0 in next.working
      ensures Waits(next, waiter)
    {
      if waiter in w.joined { assert Waits(w, waiter); }
    }
  }

  lemma {:induction false} AddWaitersInv(w: World, ids: seq<Id>, start: bool)
    requires InvOf(w, true) && w.current.Some? && !w.current.value.cancelled
    requires SetOf(ids) !! w.failed.Keys
    ensures var next := AddWaiters(w, ids, start);
      && InvOf(next, ids == []) && !next.current.value.cancelled && next.failed == w.failed
  {
    if ids != [] {
      AddWaitersInv(w, ids[..|ids| - 1], start);
      assert ids[|ids| - 1] in SetOf(ids);
      AddWaiterInv(AddWaiters(w, ids[..|ids| - 1], start), ids[|ids| - 1], start);
    }
  }

  lemma TakeOffInv(w: World, id: Id)
    requires Inv(w) && w.current.Some? && id in w.current.value.waiters
    ensures Inv(TakeOff(w, id))
  {
    var next := TakeOff(w, id);
    forall waiter | waiter in next.joined && waiter !in next.left && next.joined[waiter].0 in next.working
      ensures Waits(next, waiter)
    {
      assert Waits(w, waiter);
    }
  }

  lemma FinishInv(w: World, task: nat, outcome: Outcome, accounts: set<Id>)
    requires Inv(w) && task in w.working
    ensures Inv(OnFinish(w, task, outcome, accounts))
  {
    var next := OnFinish(w, task, outcome, accounts);
    forall waiter | waiter in next.joined && waiter !in next.left && next.joined[waiter].0 in next.working
      ensures Waits(next, waiter)
    {
      assert Waits(w, waiter);
    }
  }

  lemma StepKeepsInv(w: World, event: Event)
    requires Inv(w)
    ensures Inv(Step(w, event))
  {
    match event
    case Join(ids, start) =>
      if ids != [] {
        var forgot := w.(failed := w.failed - SetOf(ids));
        assert Inv(forgot);
        WithPreparationInv(forgot);
        AddWaitersInv(WithPreparation(forgot), ids, start);
      }
    case Leave(id) =>
      var forgot := w.(failed := w.failed - {id});
      assert Inv(forgot);
      if w.current.Some? && id in w.current.value.waiters { TakeOffInv(forgot, id); }
    case LeaveRun(id, waiter) =>
      if OnLeaveRun(w, id, waiter) != w { TakeOffInv(w, id); }
    case Finish(task, outcome, accounts) =>
      if task in w.working { FinishInv(w, task, outcome, accounts); }
    case Publish(_) =>
  }

  /** Every interleaving, from the start. */
  lemma {:induction false} RunKeepsInv(w: World, events: seq<Event>)
    requires Inv(w)
    ensures Inv(Run(w, events))
    decreases |events|
  {
    if events != [] {
      StepKeepsInv(w, events[0]);
      RunKeepsInv(Step(w, events[0]), events[1..]);
    }
  }

  /** A waiter's fate: it left, or it still waits on its own preparation, or that preparation told
      its outcome. */
  lemma WaiterIsServed(events: seq<Event>, waiter: nat)
    ensures var w := Run(EMPTY, events);
      waiter in w.joined ==>
        var prep := w.joined[waiter].0;
        || waiter in w.left
        || (Waits(w, waiter) && prep in w.working && !w.current.value.cancelled)
        || prep in w.told
  {
    RunKeepsInv(EMPTY, events);
  }

  // --- What a step leaves alone ------------------------------------------------------------------

  /** What happened stays: outcomes never change, tokens stay fired, waiters keep their preparation.
      A session is started only by its waiter's own preparation, and for a waiter that had not left. */
  ghost predicate Grows(w: World, next: World) {
    && w.serial <= next.serial
    && (forall waiter :: waiter in w.joined ==> waiter in next.joined && next.joined[waiter] == w.joined[waiter])
    && w.left <= next.left
    && (forall task :: task in w.told ==> task in next.told && next.told[task] == w.told[task])
    && w.published <= next.published
    && (forall waiter :: waiter in w.joined && w.joined[waiter].0 in w.told && waiter !in w.left ==>
          waiter !in next.left)
    && w.started <= next.started
  }

  lemma {:induction false} AddWaitersGrows(w: World, ids: seq<Id>, start: bool)
    requires w.current.Some? && forall waiter :: waiter in w.joined ==> waiter <= w.serial
    ensures var next := AddWaiters(w, ids, start);
      && Grows(w, next) && next.left == w.left && next.told == w.told && next.current.Some?
      && next.current.value.serial == w.current.value.serial
      && (forall waiter :: waiter in next.joined ==> waiter <= next.serial)
  {
    if ids != [] { AddWaitersGrows(w, ids[..|ids| - 1], start); }
  }

  lemma StepGrows(w: World, event: Event)
    requires Inv(w)
    ensures Grows(w, Step(w, event))
  {
    match event
    case Join(ids, start) =>
      if ids != [] { AddWaitersGrows(WithPreparation(w.(failed := w.failed - SetOf(ids))), ids, start); }
    case _ =>
  }

  lemma {:induction false} RunGrows(w: World, events: seq<Event>)
    requires Inv(w)
    ensures Grows(w, Run(w, events))
    decreases |events|
  {
    if events != [] {
      StepGrows(w, events[0]);
      StepKeepsInv(w, events[0]);
      RunGrows(Step(w, events[0]), events[1..]);
    }
  }

  // --- A caller's wait ---------------------------------------------------------------------------

  /** The tokens a caller holds: those of its accounts' waiters. */
  function Tokens(w: World, ids: seq<Id>): set<nat>
    requires w.current.Some? && forall id :: id in ids ==> id in w.current.value.waiters
  {
    set id | id in ids :: w.current.value.waiters[id].serial
  }

  lemma {:induction false} AddWaitersAll(w: World, ids: seq<Id>, start: bool)
    requires w.current.Some?
    ensures var next := AddWaiters(w, ids, start);
      && next.current.Some?
      && (forall id :: id in w.current.value.waiters ==> id in next.current.value.waiters)
      && (forall id :: id in ids ==>
            id in next.current.value.waiters && (start ==> next.current.value.waiters[id].start))
  {
    if ids != [] {
      AddWaitersAll(w, ids[..|ids| - 1], start);
      assert forall id :: id in ids ==> id in ids[..|ids| - 1] || id == ids[|ids| - 1];
    }
  }

  /** Main theorem: whoever joins at any point of any interleaving, and whatever happens afterwards,
      at each moment all its tokens have fired (its wait ends as cancelled), or the outcome of the
      preparation it joined is told, or that preparation is the current one, not cancelled, and its
      task works on. A replaced preparation never keeps a caller waiting. */
  lemma CallerIsServed(before: seq<Event>, ids: seq<Id>, start: bool, after: seq<Event>)
    requires ids != []
    ensures var w := Step(Run(EMPTY, before), Join(ids, start));
      && w.current.Some? && (forall id :: id in ids ==> id in w.current.value.waiters)
      && var prep := w.current.value.serial;
        var tokens := Tokens(w, ids);
        var later := Run(w, after);
        || tokens <= later.left
        || prep in later.told
        || (later.current.Some? && later.current.value.serial == prep && !later.current.value.cancelled
            && prep in later.working)
  {
    var had := Run(EMPTY, before);
    RunKeepsInv(EMPTY, before);
    StepKeepsInv(had, Join(ids, start));
    AddWaitersAll(WithPreparation(had.(failed := had.failed - SetOf(ids))), ids, start);
    var w := Step(had, Join(ids, start));
    var later := Run(w, after);
    RunKeepsInv(w, after);
    RunGrows(w, after);
    var prep := w.current.value.serial;
    if token :| token in Tokens(w, ids) && token !in later.left {
      var id :| id in ids && w.current.value.waiters[id].serial == token;
      assert w.joined[token] == (prep, id);
      assert later.joined[token] == (prep, id);
      if prep in later.working { assert Waits(later, token); }
    }
  }

  // --- A connect's wait --------------------------------------------------------------------------

  /** The waiter of a connect has not left, and waits on its preparation until that tells its outcome. */
  ghost predicate Connects(w: World, waiter: nat) {
    && waiter in w.joined && waiter !in w.left
    && (w.joined[waiter].0 in w.told || (Waits(w, waiter) && w.current.value.waiters[w.joined[waiter].1].start))
  }

  /** An account that waits keeps its token, and a connect stays one. */
  ghost predicate WaitersStay(w: World, next: World) {
    w.current.Some? ==>
      && next.current.Some? && next.current.value.serial == w.current.value.serial
      && (forall id :: id in w.current.value.waiters ==>
            && id in next.current.value.waiters
            && next.current.value.waiters[id].serial == w.current.value.waiters[id].serial
            && (w.current.value.waiters[id].start ==> next.current.value.waiters[id].start))
  }

  lemma {:induction false} AddWaitersStay(w: World, ids: seq<Id>, start: bool)
    requires w.current.Some?
    ensures WaitersStay(w, AddWaiters(w, ids, start))
  {
    if ids != [] { AddWaitersStay(w, ids[..|ids| - 1], start); }
  }

  lemma JoinKeepsConnect(w: World, waiter: nat, ids: seq<Id>, start: bool)
    requires Inv(w) && Connects(w, waiter) && ids != []
    ensures Connects(OnJoin(w, ids, start), waiter)
  {
    var begun := WithPreparation(w.(failed := w.failed - SetOf(ids)));
    AddWaitersGrows(begun, ids, start);
    if w.joined[waiter].0 !in w.told {
      assert begun.current == w.current;
      AddWaitersStay(begun, ids, start);
    }
  }

  lemma StepKeepsConnect(w: World, waiter: nat, event: Event)
    requires Inv(w) && Connects(w, waiter) && event != Leave(w.joined[waiter].1)
    ensures Connects(Step(w, event), waiter) && Step(w, event).joined[waiter] == w.joined[waiter]
  {
    StepGrows(w, event);
    match event
    case Join(ids, start) => if ids != [] { JoinKeepsConnect(w, waiter, ids, start); }
    case Leave(id) => if w.current.Some? && id in w.current.value.waiters { OthersStay(w, waiter, id); }
    case LeaveRun(id, _) => if OnLeaveRun(w, id, event.waiter) != w { OthersStay(w, waiter, id); }
    case Finish(_, _, _) =>
    case Publish(_) =>
  }

  lemma OthersStay(w: World, waiter: nat, id: Id)
    requires Inv(w) && Connects(w, waiter) && w.current.Some? && id in w.current.value.waiters
    requires id != w.joined[waiter].1 || !w.current.value.waiters[id].start
    ensures Connects(TakeOff(w, id), waiter)
  {
  }

  lemma {:induction false} RunKeepsConnect(w: World, waiter: nat, events: seq<Event>)
    requires Inv(w) && Connects(w, waiter) && Leave(w.joined[waiter].1) !in events
    ensures Inv(Run(w, events)) && Connects(Run(w, events), waiter)
    ensures Run(w, events).joined[waiter] == w.joined[waiter]
    decreases |events|
  {
    if events != [] {
      StepKeepsInv(w, events[0]);
      StepKeepsConnect(w, waiter, events[0]);
      RunKeepsConnect(Step(w, events[0]), waiter, events[1..]);
    }
  }

  /** The token and the preparation of an account in `ids` once they joined. */
  lemma ConnectJoins(before: seq<Event>, ids: seq<Id>, id: Id)
    requires id in ids
    ensures var w := Step(Run(EMPTY, before), Join(ids, true));
      && Inv(w) && w.current.Some? && id in w.current.value.waiters
      && var token := w.current.value.waiters[id].serial;
        Connects(w, token) && w.joined[token] == (w.current.value.serial, id)
  {
    var had := Run(EMPTY, before);
    RunKeepsInv(EMPTY, before);
    StepKeepsInv(had, Join(ids, true));
    AddWaitersAll(WithPreparation(had.(failed := had.failed - SetOf(ids))), ids, true);
  }

  /** Main theorem: a connect is not cancelled by a bulk run, nor by anything else but its own
      account's leaving. Whatever happens after it joins, as long as its account is not told to
      leave, its token does not fire, and it waits on its preparation, which works on, or that has
      told its outcome. */
  lemma ConnectIsServed(before: seq<Event>, ids: seq<Id>, id: Id, after: seq<Event>)
    requires id in ids && Leave(id) !in after
    ensures var w := Step(Run(EMPTY, before), Join(ids, true));
      && w.current.Some? && id in w.current.value.waiters
      && var prep, token, later := w.current.value.serial, w.current.value.waiters[id].serial, Run(w, after);
        && token !in later.left
        && (prep in later.told || (Waits(later, token) && later.current.value.serial == prep && prep in later.working))
  {
    var w := Step(Run(EMPTY, before), Join(ids, true));
    ConnectJoins(before, ids, id);
    RunKeepsConnect(w, w.current.value.waiters[id].serial, after);
  }

  /** Main theorem: a connect whose account is not told to leave is started once the preparation it
      joined tells that the client is ready, if the account is still there, and stays so. */
  lemma ConnectIsStarted(before: seq<Event>, ids: seq<Id>, id: Id, middle: seq<Event>, accounts: set<Id>,
      after: seq<Event>)
    requires id in ids && id in accounts && Leave(id) !in middle
    ensures var w := Step(Run(EMPTY, before), Join(ids, true));
      && w.current.Some? && id in w.current.value.waiters
      && var prep, token, at := w.current.value.serial, w.current.value.waiters[id].serial, Run(w, middle);
        prep !in at.told ==> token in Run(Step(at, Finish(prep, Ready, accounts)), after).started
  {
    var w := Step(Run(EMPTY, before), Join(ids, true));
    ConnectJoins(before, ids, id);
    var prep, token, at := w.current.value.serial, w.current.value.waiters[id].serial, Run(w, middle);
    RunKeepsConnect(w, token, middle);
    if prep !in at.told {
      var told := Step(at, Finish(prep, Ready, accounts));
      assert token in StartedOf(at.current.value.waiters, accounts);
      StepKeepsInv(at, Finish(prep, Ready, accounts));
      RunGrows(told, after);
    }
  }

  // --- What joining, leaving and finishing do ----------------------------------------------------

  /** The preparation an account can join: the current one, unless it is cancelled. */
  predicate Joinable(w: World) { w.current.Some? && !w.current.value.cancelled }

  function WaitersOf(w: World): map<Id, Waiter> { if Joinable(w) then w.current.value.waiters else map[] }

  /** Who waits after a join, and for whom it is a connect. */
  ghost predicate Joined(had: map<Id, Waiter>, now: map<Id, Waiter>, ids: seq<Id>, start: bool) {
    && (forall id :: id in now <==> id in had || id in ids)
    && (forall id :: id in now ==> (now[id].start <==> (id in had && had[id].start) || (start && id in ids)))
    && (forall id :: id in had ==> now[id].serial == had[id].serial)
  }

  lemma {:induction false} AddedJoin(w: World, ids: seq<Id>, start: bool)
    requires w.current.Some?
    ensures var next := AddWaiters(w, ids, start);
      && next.current.Some? && next.failed == w.failed && next.working == w.working
      && next.current.value.serial == w.current.value.serial
      && Joined(w.current.value.waiters, next.current.value.waiters, ids, start)
  {
    if ids != [] {
      var most, last := ids[..|ids| - 1], ids[|ids| - 1];
      var mid := AddWaiters(w, most, start);
      AddedJoin(w, most, start);
      var waiter := OneAdded(mid, last, start);
      OneJoins(w.current.value.waiters, mid.current.value.waiters, most, last, start, waiter);
      assert ids == most + [last];
    }
  }

  lemma OneAdded(w: World, id: Id, start: bool) returns (waiter: Waiter)
    requires w.current.Some?
    ensures var had, next := w.current.value.waiters, AddWaiter(w, id, start);
      && next.current == Some(w.current.value.(waiters := had[id := waiter]))
      && next.failed == w.failed && next.working == w.working
      && (waiter.start <==> (id in had && had[id].start) || start)
      && (id in had ==> waiter.serial == had[id].serial)
  {
    waiter := AddWaiter(w, id, start).current.value.waiters[id];
  }

  lemma OneJoins(had: map<Id, Waiter>, mid: map<Id, Waiter>, most: seq<Id>, last: Id, start: bool, waiter: Waiter)
    requires Joined(had, mid, most, start)
    requires waiter.start <==> (last in mid && mid[last].start) || start
    requires last in mid ==> waiter.serial == mid[last].serial
    ensures Joined(had, mid[last := waiter], most + [last], start)
  {
    forall id ensures id in most + [last] <==> id in most || id == last {}
  }

  /** Main theorem: whoever joins waits on the current preparation, or on a new one if that is
      cancelled or there is none, together with all who waited on it; it is a connect's wait if this
      is one or the account's was; and the failures of those who join are forgotten. */
  lemma JoinMeans(w: World, ids: seq<Id>, start: bool)
    requires Inv(w) && ids != []
    ensures var next := Step(w, Join(ids, start));
      && Joinable(next) && Joined(WaitersOf(w), next.current.value.waiters, ids, start)
      && next.current.value.serial in next.working
      && (if Joinable(w) then next.current.value.serial == w.current.value.serial
          else next.current.value.serial > w.serial)
      && (forall id :: id in next.failed <==> id in w.failed && id !in ids)
      && (forall id :: id in next.failed ==> next.failed[id] == w.failed[id])
  {
    var forgot := w.(failed := w.failed - SetOf(ids));
    assert Inv(forgot);
    WithPreparationInv(forgot);
    AddWaitersInv(WithPreparation(forgot), ids, start);
    AddedJoin(WithPreparation(forgot), ids, start);
  }

  /** One account's waiter went: it waits no longer and its token fired; every other waiter is as it
      was; and the preparation is cancelled exactly if nobody else waited. */
  ghost predicate WentAlone(w: World, next: World, id: Id)
    requires w.current.Some? && id in w.current.value.waiters
  {
    var prep := w.current.value;
    && next.current.Some? && next.current.value.serial == prep.serial
    && (forall other :: other in next.current.value.waiters <==> other in prep.waiters && other != id)
    && (forall other :: other in prep.waiters && other != id ==>
          next.current.value.waiters[other] == prep.waiters[other])
    && (next.current.value.cancelled <==> forall other :: other in prep.waiters ==> other == id)
    && next.left == w.left + {prep.waiters[id].serial}
    && next.working == w.working && next.told == w.told && next.joined == w.joined && next.started == w.started
  }

  /** `id`'s failure is forgotten and no other. */
  ghost predicate ForgetsOne(failed: map<Id, Problem>, now: map<Id, Problem>, id: Id) {
    && id !in now
    && (forall other :: other != id ==> (other in now <==> other in failed))
    && (forall other :: other in now ==> other in failed && now[other] == failed[other])
  }

  lemma TakenOff(w: World, id: Id)
    requires Inv(w) && w.current.Some? && id in w.current.value.waiters
    ensures WentAlone(w, TakeOff(w, id), id)
  {
    var prep := w.current.value;
    var rest := prep.waiters - {id};
    if forall other :: other in prep.waiters ==> other == id {
      assert rest == map[];
    } else {
      var other :| other in prep.waiters && other != id;
      assert other in rest;
    }
  }

  /** Main theorem: a leave takes the account's waiter off, whoever else waits, and forgets its
      failure. */
  lemma LeaveMeans(w: World, id: Id)
    requires Inv(w)
    ensures var next := Step(w, Leave(id));
      && ForgetsOne(w.failed, next.failed, id)
      && (if w.current.Some? && id in w.current.value.waiters then WentAlone(w, next, id)
          else next == w.(failed := next.failed))
  {
    if w.current.Some? && id in w.current.value.waiters {
      TakenOff(w, id);
    }
  }

  /** The account waits with the bulk run's waiter, and no connect took it over. */
  ghost predicate RunsOwn(w: World, id: Id, waiter: nat) {
    Waits(w, waiter) && w.joined[waiter].1 == id && !w.current.value.waiters[id].start
  }

  /** Main theorem: a bulk run that is cancelled takes its waiter off exactly if the account still waits
      with it and no connect took it over. */
  lemma LeaveRunMeans(w: World, id: Id, waiter: nat)
    requires Inv(w)
    ensures var next := Step(w, LeaveRun(id, waiter));
      if RunsOwn(w, id, waiter) then WentAlone(w, next, id) && next.failed == w.failed else next == w
  {
    if w.current.Some? && id in w.current.value.waiters {
      TakenOff(w, id);
    }
  }

  /** Main theorem: a failed preparation is told to exactly the accounts that waited on it; a ready one
      clears all failures, and a cancelled one changes none. */
  lemma FinishMeans(w: World, task: nat, outcome: Outcome, accounts: set<Id>)
    requires Inv(w) && task in w.working
    ensures var next := Step(w, Finish(task, outcome, accounts));
      && (forall id :: FailsWith(w, task, id, outcome) ==> id in next.failed && next.failed[id] == outcome.problem)
      && (forall id :: !FailsWith(w, task, id, outcome) ==>
            (id in next.failed <==> id in w.failed && !outcome.Ready?)
            && (id in next.failed ==> next.failed[id] == w.failed[id]))
      && task in next.told && next.told[task] == outcome && task !in next.working
      && next.current == (if IsTask(w, task) then None else w.current)
  {
  }

  predicate IsTask(w: World, task: nat) { w.current.Some? && w.current.value.serial == task }

  predicate FailsWith(w: World, task: nat, id: Id, outcome: Outcome) {
    outcome.Failed? && IsTask(w, task) && id in w.current.value.waiters
  }

  // --- Only connects are started -----------------------------------------------------------------

  predicate ConnectsId(event: Event, id: Id) { event.Join? && event.start && id in event.ids }

  /** No connect of the account waits, and none was started. */
  ghost predicate NotConnected(w: World, id: Id) {
    && (w.current.Some? && id in w.current.value.waiters ==> !w.current.value.waiters[id].start)
    && (forall token :: token in w.started ==> token in w.joined && w.joined[token].1 != id)
  }

  lemma {:induction false} AddWaitersNotConnected(w: World, ids: seq<Id>, start: bool, id: Id)
    requires w.current.Some? && (start ==> id !in ids)
    requires id in w.current.value.waiters ==> !w.current.value.waiters[id].start
    ensures var next := AddWaiters(w, ids, start);
      && next.current.Some? && next.started == w.started
      && (id in next.current.value.waiters ==> !next.current.value.waiters[id].start)
  {
    if ids != [] {
      AddWaitersNotConnected(w, ids[..|ids| - 1], start, id);
      assert start ==> ids[|ids| - 1] != id;
    }
  }

  lemma StepNotConnected(w: World, event: Event, id: Id)
    requires Inv(w) && NotConnected(w, id) && !ConnectsId(event, id)
    ensures NotConnected(Step(w, event), id)
  {
    StepGrows(w, event);
    match event
    case Join(ids, start) =>
      if ids != [] { AddWaitersNotConnected(WithPreparation(w.(failed := w.failed - SetOf(ids))), ids, start, id); }
    case Finish(task, outcome, accounts) => if task in w.working { FinishNotConnected(w, task, outcome, accounts, id); }
    case _ =>
  }

  lemma FinishNotConnected(w: World, task: nat, outcome: Outcome, accounts: set<Id>, id: Id)
    requires Inv(w) && NotConnected(w, id)
    ensures NotConnected(OnFinish(w, task, outcome, accounts), id)
  {
  }

  /** Main theorem: an account that only bulk runs prepared is never started by a preparation. */
  lemma {:induction false} OnlyConnectsStart(w: World, events: seq<Event>, id: Id)
    requires Inv(w) && NotConnected(w, id) && forall i :: 0 <= i < |events| ==> !ConnectsId(events[i], id)
    ensures NotConnected(Run(w, events), id)
    decreases |events|
  {
    if events != [] {
      StepKeepsInv(w, events[0]);
      StepNotConnected(w, events[0], id);
      OnlyConnectsStart(Step(w, events[0]), events[1..], id);
    }
  }

  // --- The locked sections themselves ------------------------------------------------------------

  /** A waiter that joined the preparation with a token newer than `since`. */
  predicate NewWaiter(w: World, added: (Id, nat), preparation: nat, since: nat) {
    since < added.1 <= w.serial && added.1 in w.joined && w.joined[added.1] == (preparation, added.0)
  }

  /** What joined, and was not there before, is in the list. */
  ghost predicate AllAdded(was: map<nat, (nat, Id)>, now: map<nat, (nat, Id)>, added: seq<(Id, nat)>) {
    forall token :: token in now ==>
      (token in was && now[token] == was[token]) || (now[token].1, token) in added
  }

  /** The list is what joined the current preparation since. */
  ghost predicate AddedOk(was: World, now: World, added: seq<(Id, nat)>) {
    && now.current.Some? && AllAdded(was.joined, now.joined, added)
    && (forall i :: 0 <= i < |added| ==> NewWaiter(now, added[i], now.current.value.serial, was.serial))
  }

  lemma OneMoreAdded(was: map<nat, (nat, Id)>, now: map<nat, (nat, Id)>, added: seq<(Id, nat)>, token: nat,
      waits: (nat, Id))
    requires AllAdded(was, now, added)
    ensures AllAdded(was, now[token := waits], added + [(waits.1, token)])
  {
  }

  /** From a world as every interleaving keeps it, the list is exactly the waiters that are new. */
  lemma AddedAreNew(was: World, now: World, preparation: nat, added: seq<(Id, nat)>)
    requires Inv(was) && AllAdded(was.joined, now.joined, added)
    requires forall i :: 0 <= i < |added| ==> NewWaiter(now, added[i], preparation, was.serial)
    ensures forall id, token :: (id, token) in added <==>
      token in now.joined && token !in was.joined && now.joined[token].1 == id
  {
    forall id, token ensures (id, token) in added <==>
      token in now.joined && token !in was.joined && now.joined[token].1 == id
    {
      if (id, token) in added {
        var i :| 0 <= i < |added| && added[i] == (id, token);
        assert NewWaiter(now, added[i], preparation, was.serial);
      }
    }
  }

  lemma StepKeepsInv'(w: World, event: Event)
    ensures Inv(w) ==> Inv(Step(w, event))
  {
    if Inv(w) { StepKeepsInv(w, event); }
  }

  class ClientPrep {
    var current: Option<Prep>
    var failed: map<Id, Problem>
    var serial: nat
    ghost var working: set<nat>
    ghost var told: map<nat, Outcome>
    ghost var published: set<nat>
    ghost var joined: map<nat, (nat, Id)>
    ghost var left: set<nat>
    ghost var started: set<nat>

    ghost function Now(): World
      reads this
    {
      World(current, failed, serial, working, told, published, joined, left, started)
    }

    constructor ()
      ensures Now() == EMPTY
    {
      current, failed, serial := None, map[], 0;
      working, told, published, joined, left, started := {}, map[], {}, map[], {}, {};
    }

    /** `join_preparation`: what the caller gets is the preparation, and exactly the waiters it added. */
    method JoinPreparation(ids: seq<Id>, start: bool) returns (preparation: nat, added: seq<(Id, nat)>)
      requires ids != []
      modifies this
      ensures Now() == Step(old(Now()), Join(ids, start))
      ensures current.Some? && preparation == current.value.serial
      ensures forall i :: 0 <= i < |added| ==> NewWaiter(Now(), added[i], preparation, old(serial))
      ensures Inv(old(Now())) ==> Inv(Now())
      ensures Inv(old(Now())) ==>
        forall id, token :: (id, token) in added <==>
          token in joined && token !in old(joined) && joined[token].1 == id
    {
      StepKeepsInv'(Now(), Join(ids, start));
      ghost var was := Now();
      preparation, added := PrepareFor(ids, start);
      if Inv(was) { AddedAreNew(was, Now(), preparation, added); }
    }

    method PrepareFor(ids: seq<Id>, start: bool) returns (preparation: nat, added: seq<(Id, nat)>)
      modifies this
      ensures Now() == OnJoin(old(Now()), ids, start)
      ensures current.Some? && preparation == current.value.serial
      ensures forall i :: 0 <= i < |added| ==> NewWaiter(Now(), added[i], preparation, old(serial))
      ensures AllAdded(old(joined), joined, added)
    {
      failed := failed - (set id | id in ids);
      StartIfNone();
      preparation := current.value.serial;
      added := PutAllOn(ids, start);
    }

    /** The loop over the accounts that join. */
    method PutAllOn(ids: seq<Id>, start: bool) returns (added: seq<(Id, nat)>)
      requires current.Some?
      modifies this
      ensures Now() == AddWaiters(old(Now()), ids, start) && serial >= old(serial)
      ensures current.Some? && current.value.serial == old(current).value.serial
      ensures AddedOk(old(Now()), Now(), added)
    {
      added := [];
      for i := 0 to |ids|
        invariant Now() == AddWaiters(old(Now()), ids[..i], start)
        invariant current.Some? && current.value.serial == old(current).value.serial && serial >= old(serial)
        invariant AddedOk(old(Now()), Now(), added)
      {
        assert ids[..i + 1][..i] == ids[..i];
        added := PutNext(ids[i], start, added, old(Now()));
      }
      assert ids[..|ids|] == ids;
    }

    method PutNext(id: Id, start: bool, had: seq<(Id, nat)>, ghost was: World) returns (added: seq<(Id, nat)>)
      requires current.Some? && serial >= was.serial && AddedOk(was, Now(), had)
      modifies this
      ensures Now() == AddWaiter(old(Now()), id, start) && serial >= old(serial)
      ensures current.Some? && current.value.serial == old(current).value.serial
      ensures AddedOk(was, Now(), added)
    {
      added := had;
      OneMoreAdded(was.joined, joined, had, serial + 1, (current.value.serial, id));
      var waiter := PutOn(id, start);
      if waiter.Some? {
        added := added + [(id, waiter.value)];
      }
    }

    method StartIfNone()
      modifies this
      ensures Now() == WithPreparation(old(Now())) && current.Some? && serial >= old(serial)
    {
      if current.None? || current.value.cancelled {
        serial := serial + 1;
        current := Some(Prep(serial, map[], false));
        working := working + {serial};
      }
    }

    method PutOn(id: Id, start: bool) returns (added: Option<nat>)
      requires current.Some?
      modifies this
      ensures Now() == AddWaiter(old(Now()), id, start)
      ensures added == if id in old(current).value.waiters then None else Some(serial)
    {
      var prep := current.value;
      if id in prep.waiters {
        var waiter := prep.waiters[id];
        current := Some(prep.(waiters := prep.waiters[id := waiter.(start := waiter.start || start)]));
        return None;
      }
      serial := serial + 1;
      current := Some(prep.(waiters := prep.waiters[id := Waiter(start, serial)]));
      joined := joined[serial := (prep.serial, id)];
      return Some(serial);
    }

    /** The account no longer waits, nor counts as failed. */
    method LeaveWait(id: Id)
      modifies this
      ensures Now() == Step(old(Now()), Leave(id))
      ensures Inv(old(Now())) ==> Inv(Now())
      ensures id !in failed && (current.Some? ==> id !in current.value.waiters)
      ensures Inv(old(Now())) && old(current).Some? && id in old(current).value.waiters ==>
        WentAlone(old(Now()), Now(), id)
    {
      if Inv(Now()) { LeaveMeans(Now(), id); }
      StepKeepsInv'(Now(), Leave(id));
      failed := failed - {id};
      if current.Some? && id in current.value.waiters {
        RemoveWaiter(id);
      }
    }

    method RemoveWaiter(id: Id)
      requires current.Some? && id in current.value.waiters
      modifies this
      ensures Now() == TakeOff(old(Now()), id)
    {
      var prep := current.value;
      left := left + {prep.waiters[id].serial};
      prep := prep.(waiters := prep.waiters - {id});
      if prep.waiters == map[] {
        prep := prep.(cancelled := true);
      }
      current := Some(prep);
    }

    method LeaveRunWait(id: Id, waiter: nat)
      modifies this
      ensures Now() == Step(old(Now()), LeaveRun(id, waiter))
      ensures Inv(old(Now())) ==> Inv(Now())
      ensures old(current).Some? && id in old(current).value.waiters && old(current).value.waiters[id].start ==>
        Now() == old(Now())
      ensures Inv(old(Now())) && old(RunsOwn(Now(), id, waiter)) ==> WentAlone(old(Now()), Now(), id)
    {
      if Inv(Now()) { LeaveRunMeans(Now(), id, waiter); }
      StepKeepsInv'(Now(), LeaveRun(id, waiter));
      if current.None? {
        return;
      }
      var waiters := current.value.waiters;
      if id !in waiters || waiters[id].serial != waiter || waiters[id].start {
        return;
      }
      RemoveWaiter(id);
    }

    /** The end of a task's work: the sessions of the accounts returned are started. */
    method FinishTask(task: nat, outcome: Outcome, accounts: set<Id>) returns (starts: set<Id>)
      requires task in working
      modifies this
      ensures Now() == Step(old(Now()), Finish(task, outcome, accounts))
      ensures Inv(old(Now())) ==> Inv(Now())
      ensures starts == if outcome.Ready? && old(current).Some? && old(current).value.serial == task
        then set id | id in old(current).value.waiters && id in accounts && old(current).value.waiters[id].start
        else {}
    {
      StepKeepsInv'(Now(), Finish(task, outcome, accounts));
      var waiters := TakeOwn(task);
      match outcome {
      case Ready =>
        failed := map[];
      case Failed(problem) =>
        RecordFailures(waiters, problem);
      case Cancelled =>
      }
      starts := if outcome.Ready? then set id | id in waiters && id in accounts && waiters[id].start else {};
      working := working - {task};
      told := told[task := outcome];
      if outcome.Ready? {
        started := started + StartedOf(waiters, accounts);
      }
    }

    /** The waiters of the task's own preparation, which is then no longer the current one. */
    method TakeOwn(task: nat) returns (waiters: map<Id, Waiter>)
      modifies this`current
      ensures var ours := old(current).Some? && old(current).value.serial == task;
        && current == (if ours then None else old(current))
        && waiters == (if ours then old(current).value.waiters else map[])
    {
      waiters := map[];
      if current.Some? && current.value.serial == task {
        waiters := current.value.waiters;
        current := None;
      }
    }

    method RecordFailures(waiters: map<Id, Waiter>, problem: Problem)
      modifies this`failed
      ensures failed == old(failed) + FailedWith(waiters, problem)
    {
      var ids := waiters.Keys;
      while ids != {}
        invariant ids <= waiters.Keys
        invariant failed == old(failed) + map id | id in waiters && id !in ids :: problem
        decreases |ids|
      {
        var id :| id in ids;
        failed := failed[id := problem];
        ids := ids - {id};
      }
      assert (map id | id in waiters && id !in ids :: problem) == FailedWith(waiters, problem);
    }

    ghost method PublishOutcome(task: nat)
      requires task in told
      modifies this
      ensures Now() == Step(old(Now()), Publish(task))
    {
      published := published + {task};
    }
  }
}
