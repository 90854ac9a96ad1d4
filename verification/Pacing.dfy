/** Connection slots per destination (`pacing.rs`). Times are whole numbers. */
module Pacing {

  type Table = map<string, int>

  datatype Request = Request(destination: string, now: int)

  /** The table without the destinations whose next slot is free anyway. */
  function Pruned(last: Table, spacing: nat, now: int): Table {
    map d | d in last && last[d] + spacing > now :: last[d]
  }

  function Slot(last: Table, spacing: nat, r: Request): int {
    if r.destination in last && last[r.destination] + spacing > r.now then last[r.destination] + spacing else r.now
  }

  function After(last: Table, spacing: nat, r: Request): Table {
    Pruned(last, spacing, r.now)[r.destination := Slot(Pruned(last, spacing, r.now), spacing, r)]
  }

  class ConnectPacer {
    var last: Table

    constructor ()
      ensures last == map[]
    {
      last := map[];
    }

    /** `reserve`. */
    method Reserve(destination: string, spacing: nat, now: int) returns (slot: int)
      modifies this
      ensures slot == Slot(Pruned(old(last), spacing, now), spacing, Request(destination, now))
      ensures last == After(old(last), spacing, Request(destination, now))
      ensures forall d :: d in last ==> d == destination || last[d] + spacing > now
    {
      last := map d | d in last && last[d] + spacing > now :: last[d];
      slot := now;
      if destination in last {
        slot := last[destination] + spacing;
        if slot < now {
          slot := now;
        }
      }
      last := last[destination := slot];
    }
  }

  // --- Runs --------------------------------------------------------------------------------------

  /** The pacer's table after the requests. */
  function TableAfter(rs: seq<Request>, spacing: nat): Table {
    if rs == [] then map[] else After(TableAfter(rs[..|rs| - 1], spacing), spacing, rs[|rs| - 1])
  }

  /** The slot request `j` gets. */
  function SlotOf(rs: seq<Request>, spacing: nat, j: nat): int
    requires j < |rs|
  {
    Slot(Pruned(TableAfter(rs[..j], spacing), spacing, rs[j].now), spacing, rs[j])
  }

  /** A table that forgets nothing. */
  function FullTable(rs: seq<Request>, spacing: nat): Table {
    if rs == [] then map[]
    else
      var before, r := FullTable(rs[..|rs| - 1], spacing), rs[|rs| - 1];
      before[r.destination := Slot(before, spacing, r)]
  }

  function FullSlot(rs: seq<Request>, spacing: nat, j: nat): int
    requires j < |rs|
  {
    Slot(FullTable(rs[..j], spacing), spacing, rs[j])
  }

  function Times(rs: seq<Request>): seq<int> { seq(|rs|, i requires 0 <= i < |rs| => rs[i].now) }

  /** The clock never goes back behind a time that was not before some earlier one. */
  ghost predicate Calm(ts: seq<int>) {
    !exists k, i, j :: 0 <= k < i < j < |ts| && ts[k] <= ts[i] && ts[j] < ts[i]
  }

  /** Times in their order are calm. */
  lemma OrderedIsCalm(ts: seq<int>)
    requires forall i, j :: 0 <= i < j < |ts| ==> ts[i] <= ts[j]
    ensures Calm(ts)
  {
  }

  /** What the pacer remembers is what the full table holds. */
  lemma {:induction false} Remembered(rs: seq<Request>, spacing: nat, d: string)
    requires Calm(Times(rs)) && d in TableAfter(rs, spacing)
    ensures d in FullTable(rs, spacing) && FullTable(rs, spacing)[d] == TableAfter(rs, spacing)[d]
    decreases |rs|, 0
  {
    var before, r := rs[..|rs| - 1], rs[|rs| - 1];
    CalmBefore(rs, |rs| - 1);
    assert before + [r] == rs;
    if r.destination == d {
      SameSlot(before, spacing, r);
    } else {
      Remembered(before, spacing, d);
    }
  }

  lemma CalmBefore(rs: seq<Request>, n: nat)
    requires Calm(Times(rs)) && n <= |rs|
    ensures Calm(Times(rs[..n]))
  {
    var ts, us := Times(rs), Times(rs[..n]);
    assert forall i :: 0 <= i < n ==> us[i] == ts[i];
  }

  /** What it has forgotten was free at an earlier request, and after the slot's own. */
  lemma {:induction false} Forgotten(rs: seq<Request>, spacing: nat, d: string) returns (k: nat, i: nat)
    requires Calm(Times(rs)) && d in FullTable(rs, spacing) && d !in TableAfter(rs, spacing)
    ensures k < i < |rs| && rs[k].now <= FullTable(rs, spacing)[d]
    ensures FullTable(rs, spacing)[d] + spacing <= rs[i].now
    decreases |rs|, 0
  {
    var before := rs[..|rs| - 1];
    CalmBefore(rs, |rs| - 1);
    if d in TableAfter(before, spacing) {
      Remembered(before, spacing, d);
      k := SlotHeld(before, spacing, d);
      i := |rs| - 1;
    } else {
      k, i := Forgotten(before, spacing, d);
    }
  }

  /** So the next request gets the same slot from both tables. */
  lemma SameSlot(before: seq<Request>, spacing: nat, r: Request)
    requires Calm(Times(before + [r]))
    ensures Slot(Pruned(TableAfter(before, spacing), spacing, r.now), spacing, r) ==
            Slot(FullTable(before, spacing), spacing, r)
    decreases |before|, 1
  {
    var rs, d := before + [r], r.destination;
    assert rs[..|before|] == before;
    CalmBefore(rs, |before|);
    if d in TableAfter(before, spacing) {
      Remembered(before, spacing, d);
    } else if d in FullTable(before, spacing) {
      var k, i := Forgotten(before, spacing, d);
      var ts := Times(rs);
      assert ts[k] == before[k].now && ts[i] == before[i].now && ts[|before|] == r.now;
    }
  }

  lemma NeverShows(rs: seq<Request>, spacing: nat, j: nat)
    requires Calm(Times(rs)) && j < |rs|
    ensures SlotOf(rs, spacing, j) == FullSlot(rs, spacing, j)
  {
    assert rs[..j + 1] == rs[..j] + [rs[j]];
    CalmBefore(rs, j + 1);
    SameSlot(rs[..j], spacing, rs[j]);
  }

  /** Requests at these times for which pruning shows: one destination asked for at `k` and `j`, and
      another at all the others. */
  function Showing(ts: seq<int>, k: nat, j: nat): seq<Request> {
    seq(|ts|, m requires 0 <= m < |ts| => Request(if m == k || m == j then "a" else "b", ts[m]))
  }

  /** Until `j` the full table holds the slot taken at `k`. */
  lemma {:induction false} HeldSince(ts: seq<int>, k: nat, j: nat, spacing: nat, n: nat)
    requires k < n <= j < |ts|
    ensures var t := FullTable(Showing(ts, k, j)[..n], spacing); "a" in t && t["a"] == ts[k]
  {
    var rs := Showing(ts, k, j);
    assert rs[..n][..n - 1] == rs[..n - 1];
    if n == k + 1 { NotYet(ts, k, j, spacing, k); } else { HeldSince(ts, k, j, spacing, n - 1); }
  }

  lemma {:induction false} NotYet(ts: seq<int>, k: nat, j: nat, spacing: nat, n: nat)
    requires n <= k < j < |ts|
    ensures "a" !in FullTable(Showing(ts, k, j)[..n], spacing) && "a" !in TableAfter(Showing(ts, k, j)[..n], spacing)
  {
    var rs := Showing(ts, k, j);
    if n > 0 {
      assert rs[..n][..n - 1] == rs[..n - 1];
      NotYet(ts, k, j, spacing, n - 1);
    }
  }

  /** Between the two, the pacer holds that slot or nothing. */
  lemma {:induction false} HeldOrGone(ts: seq<int>, k: nat, j: nat, spacing: nat, n: nat)
    requires k < n <= j < |ts|
    ensures var t := TableAfter(Showing(ts, k, j)[..n], spacing); "a" in t ==> t["a"] == ts[k]
  {
    var rs := Showing(ts, k, j);
    assert rs[..n][..n - 1] == rs[..n - 1];
    if n == k + 1 { NotYet(ts, k, j, spacing, k); } else { HeldOrGone(ts, k, j, spacing, n - 1); }
  }

  lemma {:induction false} GoneSince(ts: seq<int>, k: nat, i: nat, j: nat, spacing: nat, n: nat)
    requires k < i < n <= j < |ts| && ts[k] + spacing <= ts[i]
    ensures "a" !in TableAfter(Showing(ts, k, j)[..n], spacing)
    decreases n
  {
    var rs := Showing(ts, k, j);
    assert rs[..n][..n - 1] == rs[..n - 1];
    if n == i + 1 { HeldOrGone(ts, k, j, spacing, i); } else { GoneSince(ts, k, i, j, spacing, n - 1); }
  }

  /** A forgotten destination asked for by a clock that went back is given a slot too early. */
  lemma PruningShows(ts: seq<int>, k: nat, i: nat, j: nat)
    requires k < i < j < |ts| && ts[k] <= ts[i] && ts[j] < ts[i]
    ensures var rs, spacing := Showing(ts, k, j), ts[i] - ts[k];
      Times(rs) == ts && SlotOf(rs, spacing, j) == ts[j] < ts[i] == FullSlot(rs, spacing, j)
  {
    var rs, spacing := Showing(ts, k, j), ts[i] - ts[k];
    HeldSince(ts, k, j, spacing, j);
    GoneSince(ts, k, i, j, spacing, j);
  }

  /** With these times pruning never shows, whoever asks for what and whatever the spacing. */
  ghost predicate Faithful(ts: seq<int>) {
    forall rs, spacing: nat, j :: Times(rs) == ts && 0 <= j < |rs| ==>
      SlotOf(rs, spacing, j) == FullSlot(rs, spacing, j)
  }

  /** Main theorem: pruning never shows exactly at calm times. */
  lemma PruningNeverShowsIff(ts: seq<int>)
    ensures Faithful(ts) <==> Calm(ts)
  {
    if Calm(ts) {
      forall rs, spacing: nat, j | Times(rs) == ts && 0 <= j < |rs|
        ensures SlotOf(rs, spacing, j) == FullSlot(rs, spacing, j)
      {
        NeverShows(rs, spacing, j);
      }
    } else {
      var k, i, j :| 0 <= k < i < j < |ts| && ts[k] <= ts[i] && ts[j] < ts[i];
      PruningShows(ts, k, i, j);
    }
  }

  /** The table holds the latest slot of every destination asked for. */
  lemma {:induction false} LatestSlot(rs: seq<Request>, spacing: nat, i: nat)
    requires i < |rs|
    ensures rs[i].destination in FullTable(rs, spacing)
    ensures FullSlot(rs, spacing, i) <= FullTable(rs, spacing)[rs[i].destination]
  {
    var before := rs[..|rs| - 1];
    if i < |before| {
      LatestSlot(before, spacing, i);
      assert before[..i] == rs[..i];
    }
  }

  /** Main theorem: two slots of a destination are at least the spacing apart, in the order they
      were asked for. */
  lemma SlotsSpaced(rs: seq<Request>, spacing: nat, i: nat, j: nat)
    requires Calm(Times(rs)) && i < j < |rs| && rs[i].destination == rs[j].destination
    ensures SlotOf(rs, spacing, i) + spacing <= SlotOf(rs, spacing, j)
  {
    NeverShows(rs, spacing, i);
    NeverShows(rs, spacing, j);
    LatestSlot(rs[..j], spacing, i);
    assert rs[..j][..i] == rs[..i];
  }

  /** No slot is before its request, whatever the clock does. */
  lemma NoneBeforeItsRequest(rs: seq<Request>, spacing: nat, j: nat)
    requires j < |rs|
    ensures rs[j].now <= SlotOf(rs, spacing, j)
  {
  }

  lemma {:induction false} SlotHeld(rs: seq<Request>, spacing: nat, d: string) returns (i: nat)
    requires d in FullTable(rs, spacing)
    ensures i < |rs| && rs[i].destination == d && FullTable(rs, spacing)[d] == FullSlot(rs, spacing, i)
    ensures rs[i].now <= FullTable(rs, spacing)[d]
  {
    var before, r := rs[..|rs| - 1], rs[|rs| - 1];
    if r.destination == d {
      i := |rs| - 1;
    } else {
      i := SlotHeld(before, spacing, d);
      assert before[..i] == rs[..i];
    }
  }

  /** The same of the pacer's own table, whatever the clock does. */
  lemma {:induction false} SlotKept(rs: seq<Request>, spacing: nat, d: string) returns (i: nat)
    requires d in TableAfter(rs, spacing)
    ensures i < |rs| && rs[i].destination == d && TableAfter(rs, spacing)[d] == SlotOf(rs, spacing, i)
  {
    var before, r := rs[..|rs| - 1], rs[|rs| - 1];
    if r.destination == d {
      i := |rs| - 1;
    } else {
      i := SlotKept(before, spacing, d);
      assert before[..i] == rs[..i];
    }
  }

  /** No request waits longer than it must, whatever the clock does: its slot is its own time, or the
      spacing after the slot of an earlier request to that destination. */
  lemma NoneWaitsLonger(rs: seq<Request>, spacing: nat, j: nat)
    requires j < |rs|
    ensures SlotOf(rs, spacing, j) == rs[j].now
         || exists i :: 0 <= i < j && rs[i].destination == rs[j].destination
              && SlotOf(rs, spacing, j) == SlotOf(rs, spacing, i) + spacing
  {
    if SlotOf(rs, spacing, j) != rs[j].now {
      var i := SlotKept(rs[..j], spacing, rs[j].destination);
      assert rs[..j][..i] == rs[..i];
    }
  }

  function Only(rs: seq<Request>, d: string): seq<Request> {
    if rs == [] then []
    else Only(rs[..|rs| - 1], d) + (if rs[|rs| - 1].destination == d then [rs[|rs| - 1]] else [])
  }

  lemma {:induction false} TableOfOne(rs: seq<Request>, spacing: nat, d: string)
    ensures d in FullTable(rs, spacing) <==> d in FullTable(Only(rs, d), spacing)
    ensures d in FullTable(rs, spacing) ==> FullTable(rs, spacing)[d] == FullTable(Only(rs, d), spacing)[d]
  {
    if rs != [] {
      var before, r := rs[..|rs| - 1], rs[|rs| - 1];
      TableOfOne(before, spacing, d);
      if r.destination == d {
        assert Only(rs, d)[..|Only(before, d)|] == Only(before, d);
      } else {
        assert Only(rs, d) == Only(before, d);
      }
    }
  }

  /** Asked for alone, a destination is never missed: it is forgotten only to be put back at once. */
  lemma {:induction false} AloneRemembered(rs: seq<Request>, spacing: nat, d: string)
    requires forall i :: 0 <= i < |rs| ==> rs[i].destination == d
    ensures TableAfter(rs, spacing) == FullTable(rs, spacing)
  {
    if rs != [] {
      AloneRemembered(rs[..|rs| - 1], spacing, d);
      AloneKeys(rs[..|rs| - 1], spacing, d);
    }
  }

  lemma {:induction false} AloneKeys(rs: seq<Request>, spacing: nat, d: string)
    requires forall i :: 0 <= i < |rs| ==> rs[i].destination == d
    ensures FullTable(rs, spacing).Keys <= {d}
  {
    if rs != [] { AloneKeys(rs[..|rs| - 1], spacing, d); }
  }

  lemma {:induction false} OnlyHas(rs: seq<Request>, d: string)
    ensures forall i :: 0 <= i < |Only(rs, d)| ==> Only(rs, d)[i].destination == d
  {
    if rs != [] { OnlyHas(rs[..|rs| - 1], d); }
  }

  /** Main theorem: a destination's slots are those it would get if nobody asked for another. */
  lemma OthersDoNotMatter(rs: seq<Request>, spacing: nat, j: nat)
    requires Calm(Times(rs)) && j < |rs|
    ensures var own := Only(rs[..j + 1], rs[j].destination);
      |own| > 0 && own[|own| - 1] == rs[j] && SlotOf(rs, spacing, j) == SlotOf(own, spacing, |own| - 1)
  {
    var d := rs[j].destination;
    var own := Only(rs[..j + 1], d);
    assert rs[..j + 1][..j] == rs[..j];
    assert own == Only(rs[..j], d) + [rs[j]] && own[..|own| - 1] == Only(rs[..j], d);
    NeverShows(rs, spacing, j);
    OnlyHas(rs[..j], d);
    AloneRemembered(Only(rs[..j], d), spacing, d);
    TableOfOne(rs[..j], spacing, d);
  }
}
