/** Where login commands live (`secrets.rs`): values longer than a keychain entry go into
    generation-numbered parts, written before the entry that points at them.

    Every primitive keychain call may fail (`faults`, by call number); a failed one has no effect.
    A run records the entries after each call, the states a stopped program can leave behind. */
module Secrets {
  import opened Numerals
  import opened Utf16
  import opened Wrappers

  const PART_UNITS: nat := 1000
  const MAX_PARTS: nat := 32
  const PARTS_TAG: string := "#pl-parts/1"
  /** UTF-16 units a keychain entry holds. */
  const ENTRY_UNITS: nat := 1280
  const U32: nat := 0x1_0000_0000
  const USIZE: nat := 0x1_0000_0000_0000_0000

  type Entries = map<string, string>

  // --- Pieces ------------------------------------------------------------------------------------

  /** How many characters of `s` fit into `room` units. */
  function Fit(s: string, room: nat): (n: nat)
    ensures n <= |s|
  {
    if s == [] || UnitsOf(s[0]) > room then 0 else 1 + Fit(s[1..], room - UnitsOf(s[0]))
  }

  function Pieces(value: string, units: nat): (pieces: seq<string>)
    requires units >= 2
    ensures pieces != []
  {
    var n := Fit(value, units);
    if n == |value| then [value] else [value[..n]] + Pieces(value[n..], units)
  }

  function Join(pieces: seq<string>): string {
    if pieces == [] then [] else pieces[0] + Join(pieces[1..])
  }

  /** `Fit` takes what fits, and not one character less. */
  lemma {:induction false} FitExact(s: string, n: nat, room: nat)
    requires n <= |s|
    ensures Fit(s, room) == n <==>
      Units(s[..n]) <= room && (n < |s| ==> Units(s[..n]) + UnitsOf(s[n]) > room)
  {
    if n == 0 {
    } else {
      assert s[..n][1..] == s[1..][..n - 1];
      if UnitsOf(s[0]) <= room {
        FitExact(s[1..], n - 1, room - UnitsOf(s[0]));
      }
    }
  }

  /** The pieces are the value, each within the limit; no piece could have taken the next
      character. */
  lemma {:induction false} PiecesWhole(value: string, units: nat)
    requires units >= 2
    ensures var pieces := Pieces(value, units);
      && Join(pieces) == value
      && (forall i :: 0 <= i < |pieces| ==> Units(pieces[i]) <= units)
      && (forall i :: 0 < i < |pieces| ==>
            pieces[i] != [] && Units(pieces[i - 1]) + UnitsOf(pieces[i][0]) > units)
      && (|pieces| == 1 <==> Units(value) <= units)
    decreases |value|
  {
    var n := Fit(value, units);
    FitExact(value, n, units);
    FitExact(value, |value|, units);
    assert value[..|value|] == value;
    if n < |value| {
      PiecesWhole(value[n..], units);
      assert Pieces(value, units)[1..] == Pieces(value[n..], units);
      PiecesFirst(value[n..], units);
    } else {
      assert Join([value][1..]) == [];
    }
  }

  lemma PiecesFirst(value: string, units: nat)
    requires units >= 2 && value != []
    ensures Pieces(value, units)[0] != [] && Pieces(value, units)[0][0] == value[0]
  {}

  /** `split_units`. */
  method SplitUnits(value: string, units: nat) returns (pieces: seq<string>)
    requires units >= 2
    ensures pieces == Pieces(value, units)
  {
    pieces := [];
    var start, used := 0, 0;
    assert value[0..] == value && value[0..0] == [];
    for at := 0 to |value|
      invariant start <= at && (start < at || at == 0)
      invariant used == Units(value[start..at]) <= units
      invariant pieces + Pieces(value[start..], units) == Pieces(value, units)
    {
      var c := value[at];
      if used + UnitsOf(c) > units {
        CutHere(value, start, at, units, pieces);
        pieces := pieces + [value[start..at]];
        start, used := at, 0;
        assert value[at..at] == [];
      }
      OneMoreUnit(value, start, at);
      used := used + UnitsOf(c);
    }
    LastPiece(value, start, units);
    pieces := pieces + [value[start..]];
  }

  /** The piece is full before the next character. */
  lemma CutHere(value: string, start: nat, at: nat, units: nat, had: seq<string>)
    requires units >= 2 && start < at < |value|
    requires Units(value[start..at]) <= units < Units(value[start..at]) + UnitsOf(value[at])
    ensures had + Pieces(value[start..], units) == had + [value[start..at]] + Pieces(value[at..], units)
  {
    var s := value[start..];
    assert s[..at - start] == value[start..at] && s[at - start..] == value[at..];
    FitExact(s, at - start, units);
  }

  lemma OneMoreUnit(value: string, start: nat, at: nat)
    requires start <= at < |value|
    ensures Units(value[start..at + 1]) == Units(value[start..at]) + UnitsOf(value[at])
  {
    var s := value[start..];
    assert s[..at - start] == value[start..at] && s[..at - start + 1] == value[start..at + 1];
    UnitsNext(s, at - start);
  }

  lemma LastPiece(value: string, start: nat, units: nat)
    requires units >= 2 && start <= |value| && Units(value[start..|value|]) <= units
    ensures Pieces(value[start..], units) == [value[start..]]
  {
    var s := value[start..];
    assert s[..|s|] == s == value[start..|value|];
    FitExact(s, |s|, units);
  }

  // --- Names and headers -------------------------------------------------------------------------

  function SplitOnce(s: string, c: char): Option<(string, string)> {
    if s == [] then None
    else if s[0] == c then Some(([], s[1..]))
    else match SplitOnce(s[1..], c)
      case None => None
      case Some((before, after)) => Some(([s[0]] + before, after))
  }

  lemma {:induction false} SplitAt(before: string, c: char, after: string)
    requires c !in before
    ensures SplitOnce(before + [c] + after, c) == Some((before, after))
  {
    var s := before + [c] + after;
    if before != [] {
      SplitAt(before[1..], c, after);
      assert s[0] == before[0] && before == [before[0]] + before[1..];
      assert s[1..] == before[1..] + [c] + after;
    }
  }

  function PartKey(key: string, generation: nat, index: nat): string {
    key + "#" + Decimal(generation) + "." + Decimal(index)
  }

  datatype PartsHead = PartsHead(generation: nat, count: nat, first: string)

  /** What an entry holds that starts a value in parts. */
  function ParseHead(value: string): (head: Option<PartsHead>)
    ensures head.Some? ==> head.value.generation < U32 && 1 <= head.value.count <= MAX_PARTS
  {
    if !(PARTS_TAG + " " <= value) then None
    else match SplitOnce(value[|PARTS_TAG| + 1..], '\n')
      case None => None
      case Some((header, first)) =>
        match SplitOnce(header, ' ')
        case None => None
        case Some((generation, count)) =>
          match (ParseUnsigned(generation, U32), ParseUnsigned(count, USIZE))
          case (Some(g), Some(n)) => if 1 <= n <= MAX_PARTS then Some(PartsHead(g, n, first)) else None
          case _ => None
  }

  function WriteHead(generation: nat, count: nat, first: string): string {
    PARTS_TAG + " " + (Decimal(generation) + " " + Decimal(count)) + "\n" + first
  }

  lemma DecimalPlain(n: nat)
    ensures '#' !in Decimal(n) && '.' !in Decimal(n) && ' ' !in Decimal(n) && '\n' !in Decimal(n)
  {
    DecimalValue(n);
    forall c | c in Decimal(n) ensures IsDigit(c) {}
  }

  /** A written header reads back as it was meant, whatever the first piece holds. */
  lemma HeadReadsBack(generation: nat, count: nat, first: string)
    requires generation < U32 && 1 <= count <= MAX_PARTS
    ensures ParseHead(WriteHead(generation, count, first)) == Some(PartsHead(generation, count, first))
    ensures PARTS_TAG <= WriteHead(generation, count, first)
  {
    var g, n := Decimal(generation), Decimal(count);
    var header := g + " " + n;
    var value := WriteHead(generation, count, first);
    assert value == (PARTS_TAG + " ") + (header + "\n" + first);
    assert value[|PARTS_TAG| + 1..] == header + ['\n'] + first;
    DecimalPlain(generation);
    DecimalPlain(count);
    SplitAt(header, '\n', first);
    assert header == g + [' '] + n;
    SplitAt(g, ' ', n);
    ParseDecimal(generation, U32);
    ParseDecimal(count, USIZE);
  }

  lemma HeadFits(generation: nat, count: nat, first: string)
    requires generation < U32 && count <= MAX_PARTS && Units(first) <= PART_UNITS
    ensures Units(WriteHead(generation, count, first)) <= ENTRY_UNITS
  {
    var g, n := Decimal(generation), Decimal(count);
    DecimalLength(generation, 10) by {
      assert Power10(5) == 100000;
      assert Power10(10) == 10_000_000_000;
    }
    DecimalLength(count, 2) by { assert Power10(2) == 100; }
    var before := PARTS_TAG + " " + (g + " " + n) + "\n";
    assert WriteHead(generation, count, first) == before + first;
    UnitsJoin(before, first);
    UnitsAtMost(before);
    assert |before| <= 26;
  }

  lemma {:induction false} UnitsAtMost(s: string)
    ensures Units(s) <= 2 * |s|
  {
    if s != [] { UnitsAtMost(s[1..]); }
  }

  lemma PartKeysDiffer(key: string, g: nat, i: nat, h: nat, j: nat)
    requires PartKey(key, g, i) == PartKey(key, h, j)
    ensures g == h && i == j
  {
    var n := |key| + 1;
    assert PartKey(key, g, i)[n..] == Decimal(g) + ['.'] + Decimal(i);
    assert PartKey(key, h, j)[n..] == Decimal(h) + ['.'] + Decimal(j);
    DecimalPlain(g);
    DecimalPlain(h);
    SplitAt(Decimal(g), '.', Decimal(i));
    SplitAt(Decimal(h), '.', Decimal(j));
    DecimalInjective(g, h);
    DecimalInjective(i, j);
  }

  /** Parts of one name are never the entry, nor a part, of another name without a `#`. */
  lemma PartKeysApart(key: string, g: nat, i: nat, other: string)
    requires '#' !in other
    ensures PartKey(key, g, i) != other
    ensures forall h, j :: '#' !in key && key != other ==> PartKey(key, g, i) != PartKey(other, h, j)
  {
    assert PartKey(key, g, i)[|key|] == '#';
    forall h: nat, j: nat | '#' !in key && key != other
      ensures PartKey(key, g, i) != PartKey(other, h, j)
    {
      assert PartKey(key, g, i) == key + ['#'] + (Decimal(g) + "." + Decimal(i));
      assert PartKey(other, h, j) == other + ['#'] + (Decimal(h) + "." + Decimal(j));
      SplitAt(key, '#', Decimal(g) + "." + Decimal(i));
      SplitAt(other, '#', Decimal(h) + "." + Decimal(j));
    }
  }

  // --- What is stored ----------------------------------------------------------------------------

  /** Parts `index..count` of a generation, if none is missing. */
  function Gather(entries: Entries, key: string, generation: nat, index: nat, count: nat): Option<string>
    decreases count - index
  {
    if index >= count then Some([])
    else
      var name := PartKey(key, generation, index);
      if name !in entries then None
      else match Gather(entries, key, generation, index + 1, count)
        case None => None
        case Some(rest) => Some(entries[name] + rest)
  }

  /** The value a reader finds under `key`. */
  function Stored(entries: Entries, key: string): Option<string> {
    if key !in entries then None
    else if !(PARTS_TAG <= entries[key]) then Some(entries[key])
    else match ParseHead(entries[key])
      case None => None
      case Some(head) =>
        WithRest(head, Gather(entries, key, head.generation, 1, head.count))
  }

  function WithRest(head: PartsHead, rest: Option<string>): Option<string> {
    match rest
    case None => None
    case Some(rest) => Some(head.first + rest)
  }

  function HeadAt(entries: Entries, key: string): Option<PartsHead> {
    if key in entries then ParseHead(entries[key]) else None
  }

  /** The value of `key` goes on in parts of `generation`. */
  predicate Points(entries: Entries, key: string, generation: nat) {
    match HeadAt(entries, key)
    case None => false
    case Some(head) => head.generation == generation && head.count > 1
  }

  /** Outside the parts of one generation of `key`, the entries are the same. */
  ghost predicate SameBut(entries: Entries, was: Entries, key: string, generation: nat) {
    forall name ::
      (forall i: nat | i >= 1 :: name != PartKey(key, generation, i)) ==>
        (name in entries <==> name in was) && (name in was ==> entries[name] == was[name])
  }

  lemma SameButKey(entries: Entries, was: Entries, key: string, generation: nat)
    requires SameBut(entries, was, key, generation)
    ensures key in entries <==> key in was
    ensures key in was ==> entries[key] == was[key]
  {
    forall i: nat | i >= 1 ensures key != PartKey(key, generation, i) {
      assert |PartKey(key, generation, i)| > |key|;
    }
  }

  lemma {:induction false} GatherSame(entries: Entries, was: Entries, key: string, h: nat, g: nat, index: nat,
      count: nat)
    requires SameBut(entries, was, key, g) && (h != g || index >= count)
    ensures Gather(entries, key, h, index, count) == Gather(was, key, h, index, count)
    decreases count - index
  {
    if index < count {
      GatherSame(entries, was, key, h, g, index + 1, count);
      forall i: nat | i >= 1 ensures PartKey(key, h, index) != PartKey(key, g, i) {
        if PartKey(key, h, index) == PartKey(key, g, i) { PartKeysDiffer(key, h, index, g, i); }
      }
    }
  }

  /** Parts of a generation the entry does not point at do not show. */
  lemma StoredSame(entries: Entries, was: Entries, key: string, g: nat)
    requires SameBut(entries, was, key, g) && !Points(was, key, g)
    ensures Stored(entries, key) == Stored(was, key) && !Points(entries, key, g)
  {
    SameButKey(entries, was, key, g);
    if key in was && ParseHead(was[key]).Some? {
      var head := ParseHead(was[key]).value;
      GatherSame(entries, was, key, head.generation, g, 1, head.count);
    }
  }

  // --- Runs --------------------------------------------------------------------------------------

  datatype World = World(entries: Entries, calls: nat)

  /** Where a run ends, and the entries after each of its calls. */
  datatype Run = Run(world: World, ok: bool, seen: seq<Entries>)

  type Faults = nat -> bool

  function WriteOne(w: World, faults: Faults, name: string, value: string): Run {
    var fails := faults(w.calls);
    var next := if fails then w.entries else w.entries[name := value];
    Run(World(next, w.calls + 1), !fails, [next])
  }

  function RemoveOne(w: World, faults: Faults, name: string): Run {
    var fails := faults(w.calls);
    var next := if fails then w.entries else w.entries - {name};
    Run(World(next, w.calls + 1), !fails, [next])
  }

  /** `remove_parts`: best effort. */
  function RemoveParts(w: World, faults: Faults, key: string, generation: nat, index: nat, count: nat): Run
    decreases count - index
  {
    if index >= count then Run(w, true, [])
    else
      var one := RemoveOne(w, faults, PartKey(key, generation, index));
      var rest := RemoveParts(one.world, faults, key, generation, index + 1, count);
      rest.(seen := one.seen + rest.seen)
  }

  function WriteParts(w: World, faults: Faults, key: string, generation: nat, pieces: seq<string>, index: nat): Run
    decreases |pieces| - index
  {
    if index >= |pieces| then Run(w, true, [])
    else
      var one := WriteOne(w, faults, PartKey(key, generation, index), pieces[index]);
      if one.ok then
        var rest := WriteParts(one.world, faults, key, generation, pieces, index + 1);
        rest.(seen := one.seen + rest.seen)
      else
        var undo := RemoveParts(one.world, faults, key, generation, 1, index);
        Run(undo.world, false, one.seen + undo.seen)
  }

  /** The parts header `set` and `delete` find: none when the entry can not be read. */
  function OldHead(w: World, faults: Faults, key: string): Option<PartsHead> {
    if faults(w.calls) then None else HeadAt(w.entries, key)
  }

  function NextGeneration(prior: Option<PartsHead>): nat {
    if prior.Some? then (prior.value.generation + 1) % U32 else 1
  }

  function RemoveOld(done: Run, faults: Faults, key: string, prior: Option<PartsHead>): Run {
    if prior.None? || !done.ok then done
    else
      var rest := RemoveParts(done.world, faults, key, prior.value.generation, 1, prior.value.count);
      rest.(seen := done.seen + rest.seen)
  }

  predicate InOnePiece(value: string) {
    |Pieces(value, PART_UNITS)| == 1 && !(PARTS_TAG <= value)
  }

  /** Parts first, then the entry that points at them. */
  function WriteInParts(w: World, faults: Faults, key: string, generation: nat, pieces: seq<string>): Run
    requires pieces != []
  {
    var parts := WriteParts(w, faults, key, generation, pieces, 1);
    if !parts.ok then parts
    else
      var head := WriteOne(parts.world, faults, key, WriteHead(generation, |pieces|, pieces[0]));
      if head.ok then head.(seen := parts.seen + head.seen)
      else
        var undo := RemoveParts(head.world, faults, key, generation, 1, |pieces|);
        Run(undo.world, false, parts.seen + head.seen + undo.seen)
  }

  /** The writes of `set`, once it has read the old entry. */
  function SetWrites(w: World, faults: Faults, key: string, value: string, prior: Option<PartsHead>): Run {
    var pieces := Pieces(value, PART_UNITS);
    if InOnePiece(value) then WriteOne(w, faults, key, value)
    else if |pieces| > MAX_PARTS then Run(w, false, [])
    else WriteInParts(w, faults, key, NextGeneration(prior), pieces)
  }

  function SetRun(w: World, faults: Faults, key: string, value: string): Run {
    var prior := OldHead(w, faults, key);
    RemoveOld(SetWrites(World(w.entries, w.calls + 1), faults, key, value, prior), faults, key, prior)
  }

  function DeleteRun(w: World, faults: Faults, key: string): Run {
    var prior := OldHead(w, faults, key);
    RemoveOld(RemoveOne(World(w.entries, w.calls + 1), faults, key), faults, key, prior)
  }

  // --- Atomicity ---------------------------------------------------------------------------------

  ghost predicate AllSameBut(states: seq<Entries>, was: Entries, key: string, g: nat) {
    forall i :: 0 <= i < |states| ==> SameBut(states[i], was, key, g)
  }

  lemma {:induction false} RemovePartsFrame(w: World, faults: Faults, key: string, g: nat, index: nat,
      count: nat, was: Entries)
    requires SameBut(w.entries, was, key, g) && index >= 1
    ensures var run := RemoveParts(w, faults, key, g, index, count);
      SameBut(run.world.entries, was, key, g) && AllSameBut(run.seen, was, key, g)
    decreases count - index
  {
    if index < count {
      var one := RemoveOne(w, faults, PartKey(key, g, index));
      assert SameBut(one.world.entries, was, key, g);
      RemovePartsFrame(one.world, faults, key, g, index + 1, count, was);
    }
  }

  lemma {:induction false} WritePartsFrame(w: World, faults: Faults, key: string, g: nat, pieces: seq<string>,
      index: nat, was: Entries)
    requires SameBut(w.entries, was, key, g) && index >= 1
    ensures var run := WriteParts(w, faults, key, g, pieces, index);
      SameBut(run.world.entries, was, key, g) && AllSameBut(run.seen, was, key, g)
    decreases |pieces| - index
  {
    if index < |pieces| {
      var one := WriteOne(w, faults, PartKey(key, g, index), pieces[index]);
      assert SameBut(one.world.entries, was, key, g);
      if one.ok {
        WritePartsFrame(one.world, faults, key, g, pieces, index + 1, was);
      } else {
        RemovePartsFrame(one.world, faults, key, g, 1, index, was);
      }
    }
  }

  /** The parts `1..upto` are in place. */
  ghost predicate PartsWritten(entries: Entries, key: string, g: nat, pieces: seq<string>, upto: nat) {
    forall i: nat :: 1 <= i < upto && i < |pieces| ==>
      PartKey(key, g, i) in entries && entries[PartKey(key, g, i)] == pieces[i]
  }

  lemma {:induction false} WritePartsWritten(w: World, faults: Faults, key: string, g: nat,
      pieces: seq<string>, index: nat)
    requires PartsWritten(w.entries, key, g, pieces, index) && index >= 1
    requires WriteParts(w, faults, key, g, pieces, index).ok
    ensures PartsWritten(WriteParts(w, faults, key, g, pieces, index).world.entries, key, g, pieces, |pieces|)
    decreases |pieces| - index
  {
    if index < |pieces| {
      var one := WriteOne(w, faults, PartKey(key, g, index), pieces[index]);
      forall i: nat | 1 <= i < index + 1 && i < |pieces|
        ensures PartKey(key, g, i) in one.world.entries && one.world.entries[PartKey(key, g, i)] == pieces[i]
      {
        if PartKey(key, g, i) == PartKey(key, g, index) { PartKeysDiffer(key, g, i, g, index); }
      }
      WritePartsWritten(one.world, faults, key, g, pieces, index + 1);
    }
  }

  lemma {:induction false} GatherWritten(entries: Entries, key: string, g: nat, pieces: seq<string>, index: nat)
    requires PartsWritten(entries, key, g, pieces, |pieces|) && 1 <= index <= |pieces|
    ensures Gather(entries, key, g, index, |pieces|) == Some(Join(pieces[index..]))
    decreases |pieces| - index
  {
    if index < |pieces| {
      GatherWritten(entries, key, g, pieces, index + 1);
      assert pieces[index..][1..] == pieces[index + 1..];
    }
  }

  /** Every one of the states shows `value`. */
  ghost predicate Show(states: seq<Entries>, key: string, value: Option<string>) {
    forall i :: 0 <= i < |states| ==> Stored(states[i], key) == value
  }

  /** The states of a run show the old value up to call `k`, and the new one from there on; the new
      one is there in the end just when the run succeeds. */
  ghost predicate CommitsAt(run: Run, key: string, before: Option<string>, after: Option<string>, k: nat) {
    && k <= |run.seen|
    && Show(run.seen[..k], key, before)
    && Show(run.seen[k..], key, after)
    && (run.ok <==> k < |run.seen|)
    && Stored(run.world.entries, key) == (if run.ok then after else before)
  }

  ghost predicate CommitsOnce(run: Run, key: string, before: Option<string>, after: Option<string>) {
    exists k :: CommitsAt(run, key, before, after, k)
  }

  lemma StatesShow(states: seq<Entries>, was: Entries, key: string, g: nat)
    requires AllSameBut(states, was, key, g) && !Points(was, key, g)
    ensures Show(states, key, Stored(was, key))
  {
    forall i | 0 <= i < |states| ensures Stored(states[i], key) == Stored(was, key) {
      StoredSame(states[i], was, key, g);
    }
  }

  /** A run that fails shows the old value throughout. */
  lemma NeverCommits(run: Run, key: string, before: Option<string>, after: Option<string>)
    requires !run.ok && Show(run.seen, key, before) && Stored(run.world.entries, key) == before
    ensures CommitsOnce(run, key, before, after)
  {
    assert run.seen[..|run.seen|] == run.seen;
    assert CommitsAt(run, key, before, after, |run.seen|);
  }

  /** A run that succeeds shows the old value in `first` and the new one in `rest`. */
  lemma Commits(world: World, first: seq<Entries>, rest: seq<Entries>, key: string, before: Option<string>,
      after: Option<string>)
    requires Show(first, key, before) && Show(rest, key, after) && rest != []
    requires Stored(world.entries, key) == after
    ensures CommitsOnce(Run(world, true, first + rest), key, before, after)
  {
    var seen := first + rest;
    assert seen[..|first|] == first && seen[|first|..] == rest;
    assert CommitsAt(Run(world, true, seen), key, before, after, |first|);
  }

  lemma OneCommits(run: Run, key: string, before: Option<string>, after: Option<string>)
    requires run.seen == [run.world.entries]
    requires Stored(run.world.entries, key) == (if run.ok then after else before)
    ensures CommitsOnce(run, key, before, after)
  {
    if run.ok {
      assert [] + run.seen == run.seen;
      Commits(run.world, [], run.seen, key, before, after);
    } else {
      NeverCommits(run, key, before, after);
    }
  }

  /** Dropping the parts of the old generation changes nothing that shows. */
  lemma RemoveOldKeeps(done: Run, faults: Faults, key: string, head: Option<PartsHead>, before: Option<string>,
      after: Option<string>)
    requires CommitsOnce(done, key, before, after)
    requires done.ok && head.Some? ==> !Points(done.world.entries, key, head.value.generation)
    ensures CommitsOnce(RemoveOld(done, faults, key, head), key, before, after)
  {
    if done.ok && head.Some? {
      var g, was := head.value.generation, done.world.entries;
      var rest := RemoveParts(done.world, faults, key, g, 1, head.value.count);
      RemovePartsFrame(done.world, faults, key, g, 1, head.value.count, was);
      StatesShow(rest.seen, was, key, g);
      StoredSame(rest.world.entries, was, key, g);
      RemovePartsOk(done.world, faults, key, g, 1, head.value.count);
      StaysCommitted(done, rest, key, before, after);
    }
  }

  lemma StaysCommitted(done: Run, rest: Run, key: string, before: Option<string>, after: Option<string>)
    requires CommitsOnce(done, key, before, after) && done.ok && rest.ok
    requires Show(rest.seen, key, after) && Stored(rest.world.entries, key) == after
    ensures CommitsOnce(rest.(seen := done.seen + rest.seen), key, before, after)
  {
    var k: nat :| CommitsAt(done, key, before, after, k);
    SeenJoined(done.seen, rest.seen, k);
    ShowJoined(done.seen[k..], rest.seen, key, after);
    assert CommitsAt(rest.(seen := done.seen + rest.seen), key, before, after, k);
  }

  lemma SeenJoined(states: seq<Entries>, more: seq<Entries>, k: nat)
    requires k <= |states|
    ensures (states + more)[..k] == states[..k] && (states + more)[k..] == states[k..] + more
  {
  }

  lemma {:induction false} RemovePartsOk(w: World, faults: Faults, key: string, g: nat, index: nat, count: nat)
    ensures RemoveParts(w, faults, key, g, index, count).ok
    decreases count - index
  {
    if index < count {
      RemovePartsOk(RemoveOne(w, faults, PartKey(key, g, index)).world, faults, key, g, index + 1, count);
    }
  }

  lemma ShowJoined(states: seq<Entries>, more: seq<Entries>, key: string, value: Option<string>)
    requires Show(states, key, value) && Show(more, key, value)
    ensures Show(states + more, key, value)
  {}

  lemma WholeStored(entries: Entries, key: string, g: nat, pieces: seq<string>)
    requires pieces != [] && |pieces| <= MAX_PARTS && g < U32
    requires PartsWritten(entries, key, g, pieces, |pieces|)
    requires key in entries && entries[key] == WriteHead(g, |pieces|, pieces[0])
    ensures Stored(entries, key) == Some(Join(pieces))
    ensures HeadAt(entries, key) == Some(PartsHead(g, |pieces|, pieces[0]))
  {
    HeadReadsBack(g, |pieces|, pieces[0]);
    GatherWritten(entries, key, g, pieces, 1);
  }

  lemma HeadWritten(w: World, faults: Faults, key: string, g: nat, pieces: seq<string>)
    requires pieces != [] && |pieces| <= MAX_PARTS && g < U32
    requires WriteParts(w, faults, key, g, pieces, 1).ok
    ensures var parts := WriteParts(w, faults, key, g, pieces, 1).world.entries;
      var entries := parts[key := WriteHead(g, |pieces|, pieces[0])];
      && Stored(entries, key) == Some(Join(pieces))
      && HeadAt(entries, key) == Some(PartsHead(g, |pieces|, pieces[0]))
  {
    var parts := WriteParts(w, faults, key, g, pieces, 1).world.entries;
    WritePartsWritten(w, faults, key, g, pieces, 1);
    forall i: nat ensures PartKey(key, g, i) != key { assert |PartKey(key, g, i)| > |key|; }
    WholeStored(parts[key := WriteHead(g, |pieces|, pieces[0])], key, g, pieces);
  }

  lemma InPartsCommits(w: World, faults: Faults, key: string, g: nat, pieces: seq<string>)
    requires pieces != [] && |pieces| <= MAX_PARTS && g < U32 && !Points(w.entries, key, g)
    ensures var run := WriteInParts(w, faults, key, g, pieces);
      && CommitsOnce(run, key, Stored(w.entries, key), Some(Join(pieces)))
      && (run.ok ==> HeadAt(run.world.entries, key) == Some(PartsHead(g, |pieces|, pieces[0])))
  {
    var was, before, after := w.entries, Stored(w.entries, key), Some(Join(pieces));
    var parts := WriteParts(w, faults, key, g, pieces, 1);
    WritePartsFrame(w, faults, key, g, pieces, 1, was);
    StatesShow(parts.seen, was, key, g);
    StoredSame(parts.world.entries, was, key, g);
    var run := WriteInParts(w, faults, key, g, pieces);
    if !parts.ok {
      NeverCommits(run, key, before, after);
    } else {
      var head := WriteOne(parts.world, faults, key, WriteHead(g, |pieces|, pieces[0]));
      if head.ok {
        HeadWritten(w, faults, key, g, pieces);
        Commits(head.world, parts.seen, head.seen, key, before, after);
      } else {
        HeadUndone(head, parts.seen, faults, key, g, |pieces|, was);
        NeverCommits(run, key, before, after);
      }
    }
  }

  /** After the entry could not be written, its parts go again, and nothing shows. */
  lemma HeadUndone(head: Run, had: seq<Entries>, faults: Faults, key: string, g: nat, count: nat, was: Entries)
    requires !Points(was, key, g) && SameBut(head.world.entries, was, key, g) && head.seen == [head.world.entries]
    requires Show(had, key, Stored(was, key))
    ensures var undo := RemoveParts(head.world, faults, key, g, 1, count);
      && Show(had + head.seen + undo.seen, key, Stored(was, key))
      && Stored(undo.world.entries, key) == Stored(was, key)
  {
    var undo := RemoveParts(head.world, faults, key, g, 1, count);
    RemovePartsFrame(head.world, faults, key, g, 1, count, was);
    StoredSame(head.world.entries, was, key, g);
    StatesShow(undo.seen, was, key, g);
    StoredSame(undo.world.entries, was, key, g);
    ShowJoined(had, head.seen, key, Stored(was, key));
    ShowJoined(had + head.seen, undo.seen, key, Stored(was, key));
  }

  /** The writes of `set` commit once, and then do not point at the old generation. */
  lemma SetWritesCommit(w: World, faults: Faults, key: string, value: string, prior: Option<PartsHead>)
    requires !Points(w.entries, key, NextGeneration(prior))
    ensures var done := SetWrites(w, faults, key, value, prior);
      && CommitsOnce(done, key, Stored(w.entries, key), Some(value))
      && (done.ok && prior.Some? ==> !Points(done.world.entries, key, prior.value.generation))
  {
    var pieces := Pieces(value, PART_UNITS);
    PiecesWhole(value, PART_UNITS);
    if InOnePiece(value) {
      OneWriteCommits(w, faults, key, value);
    } else if |pieces| > MAX_PARTS {
      NeverCommits(Run(w, false, []), key, Stored(w.entries, key), Some(value));
    } else {
      InPartsCommits(w, faults, key, NextGeneration(prior), pieces);
      assert prior.Some? ==> NextGeneration(prior) != prior.value.generation;
      assert NextGeneration(prior) < U32;
    }
  }

  lemma OneWriteCommits(w: World, faults: Faults, key: string, value: string)
    requires !(PARTS_TAG <= value)
    ensures var done := WriteOne(w, faults, key, value);
      && CommitsOnce(done, key, Stored(w.entries, key), Some(value))
      && (done.ok ==> HeadAt(done.world.entries, key).None?)
  {
    var done := WriteOne(w, faults, key, value);
    if done.ok { PlainStored(done.world.entries, key); }
    OneCommits(done, key, Stored(w.entries, key), Some(value));
  }

  /** Main theorem: `set` replaces the value in one step, whatever calls fail and wherever it
      stops, when it can read the old entry or that entry does not go on in parts of generation
      one. */
  lemma SetAtomic(w: World, faults: Faults, key: string, value: string)
    requires !faults(w.calls) || !Points(w.entries, key, 1)
    ensures CommitsOnce(SetRun(w, faults, key, value), key, Stored(w.entries, key), Some(value))
  {
    var prior, read := OldHead(w, faults, key), World(w.entries, w.calls + 1);
    SetWritesCommit(read, faults, key, value, prior);
    RemoveOldKeeps(SetWrites(read, faults, key, value, prior), faults, key, prior, Stored(w.entries, key), Some(value));
  }

  lemma PlainStored(entries: Entries, key: string)
    requires key in entries && !(PARTS_TAG <= entries[key])
    ensures Stored(entries, key) == Some(entries[key]) && HeadAt(entries, key).None?
  {
    assert PARTS_TAG <= PARTS_TAG + " ";
  }

  lemma DeleteAtomic(w: World, faults: Faults, key: string)
    ensures CommitsOnce(DeleteRun(w, faults, key), key, Stored(w.entries, key), None)
  {
    var done := RemoveOne(World(w.entries, w.calls + 1), faults, key);
    OneCommits(done, key, Stored(w.entries, key), None);
    RemoveOldKeeps(done, faults, key, OldHead(w, faults, key), Stored(w.entries, key), None);
  }

  // --- The guard is exact ------------------------------------------------------------------------

  function Repeat(c: char, n: nat): (s: string)
    ensures |s| == n
  {
    if n == 0 then [] else [c] + Repeat(c, n - 1)
  }

  lemma {:induction false} RepeatUnits(c: char, n: nat, y: string)
    requires UnitsOf(c) == 1
    ensures Units(Repeat(c, n) + y) == n + Units(y)
  {
    if n == 0 {
      assert Repeat(c, 0) + y == y;
    } else {
      RepeatUnits(c, n - 1, y);
      assert (Repeat(c, n) + y)[1..] == Repeat(c, n - 1) + y;
    }
  }

  lemma {:induction false} RepeatSum(c: char, m: nat, n: nat)
    ensures Repeat(c, m + n) == Repeat(c, m) + Repeat(c, n)
  {
    if m > 0 { RepeatSum(c, m - 1, n); }
  }

  function Times(n: nat, units: nat): nat { if n == 0 then 0 else units + Times(n - 1, units) }

  /** A value of `n` full pieces of one character and a last one of one character. */
  lemma {:induction false} RepeatPieces(c: char, n: nat, y: char, units: nat)
    requires UnitsOf(c) == 1 && UnitsOf(y) == 1 && units >= 2
    ensures |Pieces(Repeat(c, Times(n, units)) + [y], units)| == n + 1
  {
    if n == 0 {
      assert Repeat(c, 0) + [y] == [y] && [y][1..] == [];
      PiecesWhole([y], units);
    } else {
      FullPiece(c, units, Times(n - 1, units), y);
      RepeatPieces(c, n - 1, y, units);
    }
  }

  lemma RepeatRest(c: char, n: nat, y: char, units: nat)
    requires UnitsOf(c) == 1 && UnitsOf(y) == 1 && units >= 2
    ensures var pieces := Pieces(Repeat(c, Times(n + 1, units)) + [y], units);
      pieces[0] == Repeat(c, units) && Join(pieces[1..]) == Repeat(c, Times(n, units)) + [y]
  {
    var rest := Repeat(c, Times(n, units)) + [y];
    FullPiece(c, units, Times(n, units), y);
    PiecesWhole(rest, units);
    assert ([Repeat(c, units)] + Pieces(rest, units))[1..] == Pieces(rest, units);
  }

  lemma FullPiece(c: char, units: nat, m: nat, y: char)
    requires UnitsOf(c) == 1 && UnitsOf(y) == 1 && units >= 2
    ensures Pieces(Repeat(c, units + m) + [y], units) == [Repeat(c, units)] + Pieces(Repeat(c, m) + [y], units)
  {
    var value, rest := Repeat(c, units + m) + [y], Repeat(c, m) + [y];
    RepeatSum(c, units, m);
    assert value == Repeat(c, units) + rest;
    assert value[..units] == Repeat(c, units) && value[units..] == rest;
    RepeatUnits(c, units, []);
    assert Repeat(c, units) + [] == Repeat(c, units);
    RepeatHead(c, m, y);
    FitExact(value, units, units);
  }

  lemma RepeatHead(c: char, n: nat, y: char)
    requires UnitsOf(c) == 1 && UnitsOf(y) == 1
    ensures UnitsOf((Repeat(c, n) + [y])[0]) == 1
  {}

  /** No call fails from `from` on. */
  ghost predicate Works(faults: Faults, from: nat) {
    forall n: nat :: n >= from ==> !faults(n)
  }

  lemma {:induction false} WritePartsWorks(w: World, faults: Faults, key: string, g: nat, pieces: seq<string>,
      index: nat)
    requires Works(faults, w.calls)
    ensures var run := WriteParts(w, faults, key, g, pieces, index);
      && run.ok && run.world.calls >= w.calls
      && (index < |pieces| ==> run.seen != [] && run.seen[|run.seen| - 1] == run.world.entries)
    decreases |pieces| - index
  {
    if index < |pieces| {
      var one := WriteOne(w, faults, PartKey(key, g, index), pieces[index]);
      WritePartsWorks(one.world, faults, key, g, pieces, index + 1);
    }
  }

  /** What is read once new parts lie under the old header, whose generation was not readable. */
  lemma MixedStored(entries: Entries, was: Entries, key: string, pieces: seq<string>)
    requires Points(was, key, 1) && HeadAt(was, key).value.count == |pieces|
    requires SameBut(entries, was, key, 1) && PartsWritten(entries, key, 1, pieces, |pieces|)
    ensures Stored(entries, key) == Some(HeadAt(was, key).value.first + Join(pieces[1..]))
  {
    SameButKey(entries, was, key, 1);
    GatherWritten(entries, key, 1, pieces, 1);
    assert PARTS_TAG <= PARTS_TAG + " ";
  }

  lemma SeenOther(run: Run, at: nat, key: string, before: Option<string>, after: Option<string>)
    requires at < |run.seen|
    requires Stored(run.seen[at], key) != before && Stored(run.seen[at], key) != after
    ensures !CommitsOnce(run, key, before, after)
  {
    forall k: nat ensures !CommitsAt(run, key, before, after, k) {
      if k <= |run.seen| {
        if at < k { assert run.seen[..k][at] == run.seen[at]; } else { assert run.seen[k..][at - k] == run.seen[at]; }
      }
    }
  }

  /** When the read fails, a value in parts is written under generation one. */
  lemma UnreadRun(entries: Entries, faults: Faults, key: string, value: string)
    requires faults(0) && 1 < |Pieces(value, PART_UNITS)| <= MAX_PARTS
    ensures SetRun(World(entries, 0), faults, key, value) ==
            WriteInParts(World(entries, 1), faults, key, 1, Pieces(value, PART_UNITS))
  {
  }

  lemma PartsSeenFirst(w: World, faults: Faults, key: string, g: nat, pieces: seq<string>)
    requires pieces != [] && |pieces| <= MAX_PARTS
    ensures WriteParts(w, faults, key, g, pieces, 1).seen <= WriteInParts(w, faults, key, g, pieces).seen
  {
  }

  /** The last part is written under the old header. */
  lemma PartsUnderOldHead(entries: Entries, w: World, faults: Faults, key: string, pieces: seq<string>)
    requires w.entries == entries && Works(faults, w.calls) && Points(entries, key, 1)
    requires |pieces| == HeadAt(entries, key).value.count
    ensures var run := WriteParts(w, faults, key, 1, pieces, 1);
      && run.ok && run.seen != []
      && Stored(run.seen[|run.seen| - 1], key) == Some(HeadAt(entries, key).value.first + Join(pieces[1..]))
  {
    WritePartsWorks(w, faults, key, 1, pieces, 1);
    WritePartsFrame(w, faults, key, 1, pieces, 1, entries);
    WritePartsWritten(w, faults, key, 1, pieces, 1);
    MixedStored(WriteParts(w, faults, key, 1, pieces, 1).world.entries, entries, key, pieces);
  }

  /** When the read fails, the run passes a state with the new parts under the old header. */
  lemma FirstCallFails(entries: Entries, faults: Faults, key: string, value: string) returns (at: nat)
    requires Points(entries, key, 1) && faults(0) && Works(faults, 1)
    requires |Pieces(value, PART_UNITS)| == HeadAt(entries, key).value.count
    ensures var run := SetRun(World(entries, 0), faults, key, value);
      && at < |run.seen|
      && Stored(run.seen[at], key) ==
         Some(HeadAt(entries, key).value.first + Join(Pieces(value, PART_UNITS)[1..]))
  {
    var pieces := Pieces(value, PART_UNITS);
    PartsUnderOldHead(entries, World(entries, 1), faults, key, pieces);
    PartsSeenFirst(World(entries, 1), faults, key, 1, pieces);
    UnreadRun(entries, faults, key, value);
    at := |WriteParts(World(entries, 1), faults, key, 1, pieces, 1).seen| - 1;
  }

  lemma OtherStart(a: string, b: string, rest: string)
    requires a != b
    ensures a + rest != b + rest
  {
    if |a| == |b| { assert (a + rest)[..|a|] == a && (b + rest)[..|b|] == b; }
  }

  lemma OtherChar(first: string, units: nat) returns (x: char)
    requires units > 0
    ensures UnitsOf(x) == 1 && Repeat(x, units) != first
  {
    x := if first == Repeat('a', units) then 'b' else 'a';
    assert Repeat('a', units)[0] == 'a' && Repeat('b', units)[0] == 'b';
  }

  /** A value whose parts under the old header show neither the old value nor the new one. */
  lemma MixingValue(head: PartsHead, before: Option<string>, units: nat) returns (value: string)
    requires head.count > 1 && units >= 2
    ensures var pieces := Pieces(value, units);
      && |pieces| == head.count
      && before != Some(head.first + Join(pieces[1..]))
      && value != head.first + Join(pieces[1..])
  {
    var n: nat := head.count - 2;
    var x := OtherChar(head.first, units);
    var rest := Repeat(x, Times(n, units));
    var y := OtherEnd(head.first, rest, before);
    value := Repeat(x, Times(n + 1, units)) + [y];
    RepeatPieces(x, n + 1, y, units);
    RepeatRest(x, n, y, units);
    RepeatSum(x, units, Times(n, units));
    assert value == Repeat(x, units) + (rest + [y]);
    OtherStart(Repeat(x, units), head.first, rest + [y]);
  }

  lemma OtherEnd(first: string, middle: string, before: Option<string>) returns (y: char)
    ensures UnitsOf(y) == 1 && before != Some(first + (middle + [y]))
  {
    var n := |first + middle|;
    y := if before.Some? && |before.value| > n && before.value[n] == 'y' then 'z' else 'y';
    assert (first + (middle + [y]))[n] == y;
  }

  /** Which old entries `set` replaces in one step whatever fails, the read of the old entry
      included: exactly those that do not go on in parts of generation one. */
  lemma AtomicIff(entries: Entries, key: string)
    ensures (forall faults: Faults, value, calls: nat ::
        CommitsOnce(SetRun(World(entries, calls), faults, key, value), key, Stored(entries, key), Some(value)))
      <==> !Points(entries, key, 1)
  {
    if Points(entries, key, 1) {
      var value := MixingValue(HeadAt(entries, key).value, Stored(entries, key), PART_UNITS);
      var faults: Faults := n => n == 0;
      var at := FirstCallFails(entries, faults, key, value);
      var run := SetRun(World(entries, 0), faults, key, value);
      SeenOther(run, at, key, Stored(entries, key), Some(value));
    } else {
      forall faults: Faults, value, calls: nat
        ensures CommitsOnce(SetRun(World(entries, calls), faults, key, value), key, Stored(entries, key), Some(value))
      {
        SetAtomic(World(entries, calls), faults, key, value);
      }
    }
  }

  // --- Other entries, and entry sizes ------------------------------------------------------------

  /** Only `key` and its parts changed, and what was written fits a keychain entry. */
  ghost predicate Local(entries: Entries, was: Entries, key: string) {
    && (forall name :: name != key && (forall g, i :: name != PartKey(key, g, i)) ==>
          (name in entries <==> name in was) && (name in was ==> entries[name] == was[name]))
    && (forall name :: name in entries && !(name in was && was[name] == entries[name]) ==>
          Units(entries[name]) <= ENTRY_UNITS)
  }

  ghost predicate AllLocal(run: Run, was: Entries, key: string) {
    Local(run.world.entries, was, key) && forall i :: 0 <= i < |run.seen| ==> Local(run.seen[i], was, key)
  }

  lemma {:induction false} RemovePartsLocal(w: World, faults: Faults, key: string, g: nat, index: nat,
      count: nat, was: Entries)
    requires Local(w.entries, was, key)
    ensures AllLocal(RemoveParts(w, faults, key, g, index, count), was, key)
    decreases count - index
  {
    if index < count {
      var one := RemoveOne(w, faults, PartKey(key, g, index));
      assert Local(one.world.entries, was, key);
      RemovePartsLocal(one.world, faults, key, g, index + 1, count, was);
    }
  }

  lemma {:induction false} WritePartsLocal(w: World, faults: Faults, key: string, g: nat, pieces: seq<string>,
      index: nat, was: Entries)
    requires Local(w.entries, was, key)
    requires forall i :: 0 <= i < |pieces| ==> Units(pieces[i]) <= PART_UNITS
    ensures AllLocal(WriteParts(w, faults, key, g, pieces, index), was, key)
    decreases |pieces| - index
  {
    if index < |pieces| {
      var one := WriteOne(w, faults, PartKey(key, g, index), pieces[index]);
      assert Local(one.world.entries, was, key);
      if one.ok {
        WritePartsLocal(one.world, faults, key, g, pieces, index + 1, was);
      } else {
        RemovePartsLocal(one.world, faults, key, g, 1, index, was);
      }
    }
  }

  lemma RemoveOldLocal(done: Run, faults: Faults, key: string, head: Option<PartsHead>, was: Entries)
    requires AllLocal(done, was, key)
    ensures AllLocal(RemoveOld(done, faults, key, head), was, key)
  {
    if head.Some? && done.ok {
      RemovePartsLocal(done.world, faults, key, head.value.generation, 1, head.value.count, was);
    }
  }

  lemma InPartsLocal(w: World, faults: Faults, key: string, g: nat, pieces: seq<string>)
    requires pieces != [] && |pieces| <= MAX_PARTS && g < U32
    requires forall i :: 0 <= i < |pieces| ==> Units(pieces[i]) <= PART_UNITS
    ensures AllLocal(WriteInParts(w, faults, key, g, pieces), w.entries, key)
  {
    var parts := WriteParts(w, faults, key, g, pieces, 1);
    WritePartsLocal(w, faults, key, g, pieces, 1, w.entries);
    if parts.ok {
      HeadFits(g, |pieces|, pieces[0]);
      var head := WriteOne(parts.world, faults, key, WriteHead(g, |pieces|, pieces[0]));
      assert Local(head.world.entries, w.entries, key);
      if !head.ok { RemovePartsLocal(head.world, faults, key, g, 1, |pieces|, w.entries); }
    }
  }

  lemma OneLocal(w: World, faults: Faults, key: string, value: string)
    requires Units(value) <= ENTRY_UNITS
    ensures AllLocal(WriteOne(w, faults, key, value), w.entries, key)
  {
    assert Local(w.entries, w.entries, key);
    assert Local(w.entries[key := value], w.entries, key);
  }

  lemma SetWritesLocal(w: World, faults: Faults, key: string, value: string, prior: Option<PartsHead>)
    ensures AllLocal(SetWrites(w, faults, key, value, prior), w.entries, key)
  {
    var pieces := Pieces(value, PART_UNITS);
    PiecesWhole(value, PART_UNITS);
    if InOnePiece(value) {
      OneLocal(w, faults, key, value);
    } else if |pieces| <= MAX_PARTS {
      InPartsLocal(w, faults, key, NextGeneration(prior), pieces);
    }
  }

  /** Whatever fails, `set` writes nothing too long for an entry and touches nothing but `key` and
      its parts. */
  lemma SetLocal(w: World, faults: Faults, key: string, value: string)
    ensures AllLocal(SetRun(w, faults, key, value), w.entries, key)
  {
    var prior, read := OldHead(w, faults, key), World(w.entries, w.calls + 1);
    SetWritesLocal(read, faults, key, value, prior);
    RemoveOldLocal(SetWrites(read, faults, key, value, prior), faults, key, prior, w.entries);
  }

  lemma DeleteLocal(w: World, faults: Faults, key: string)
    ensures AllLocal(DeleteRun(w, faults, key), w.entries, key)
  {
    var done := RemoveOne(World(w.entries, w.calls + 1), faults, key);
    RemovalLocal(World(w.entries, w.calls + 1), faults, key);
    RemoveOldLocal(done, faults, key, OldHead(w, faults, key), w.entries);
  }

  lemma RemovalLocal(w: World, faults: Faults, key: string)
    ensures AllLocal(RemoveOne(w, faults, key), w.entries, key)
  {
    assert Local(w.entries, w.entries, key);
    assert Local(w.entries - {key}, w.entries, key);
  }

  /** Another account's value does not change. */
  lemma OthersKept(entries: Entries, was: Entries, key: string, other: string)
    requires Local(entries, was, key) && '#' !in key && '#' !in other && key != other
    ensures Stored(entries, other) == Stored(was, other)
    ensures CleanFor(entries, other) <==> CleanFor(was, other)
  {
    forall g: nat, i: nat ensures PartKey(key, g, i) != other { PartKeysApart(key, g, i, other); }
    forall h: nat, j: nat
      ensures PartKey(other, h, j) in entries <==> PartKey(other, h, j) in was
      ensures PartKey(other, h, j) in was ==> entries[PartKey(other, h, j)] == was[PartKey(other, h, j)]
    {
      PartKeysApart(other, h, j, key);
      forall g: nat, i: nat ensures PartKey(other, h, j) != PartKey(key, g, i) { PartKeysApart(other, h, j, key); }
    }
    if HeadAt(was, other).Some? {
      var head := HeadAt(was, other).value;
      GatherKept(entries, was, other, head.generation, 1, head.count);
    }
  }

  lemma {:induction false} GatherKept(entries: Entries, was: Entries, key: string, g: nat, index: nat, count: nat)
    requires forall i: nat ::
      (PartKey(key, g, i) in entries <==> PartKey(key, g, i) in was) &&
      (PartKey(key, g, i) in was ==> entries[PartKey(key, g, i)] == was[PartKey(key, g, i)])
    ensures Gather(entries, key, g, index, count) == Gather(was, key, g, index, count)
    decreases count - index
  {
    if index < count { GatherKept(entries, was, key, g, index + 1, count); }
  }

  // --- Nothing stale is left ---------------------------------------------------------------------

  /** Every part stored for `key` belongs to the value its entry points at. */
  ghost predicate CleanFor(entries: Entries, key: string) {
    forall g: nat, i: nat :: i >= 1 && PartKey(key, g, i) in entries ==> BelongsTo(HeadAt(entries, key), g, i)
  }

  /** Every part stored for `key` is one of the two heads'. */
  ghost predicate OnlyPartsOf(entries: Entries, key: string, prior: Option<PartsHead>, head: Option<PartsHead>) {
    forall g: nat, i: nat :: i >= 1 && PartKey(key, g, i) in entries ==> BelongsTo(prior, g, i) || BelongsTo(head, g, i)
  }

  /** Part `i` of generation `g` is one of that head's. */
  predicate BelongsTo(head: Option<PartsHead>, g: nat, i: nat) {
    head.Some? && head.value.generation == g && i < head.value.count
  }

  lemma {:induction false} RemovePartsGone(w: World, faults: Faults, key: string, g: nat, index: nat, count: nat)
    requires Works(faults, w.calls)
    ensures var last := RemoveParts(w, faults, key, g, index, count).world.entries;
      && last.Keys <= w.entries.Keys
      && (forall i: nat :: index <= i < count ==> PartKey(key, g, i) !in last)
    decreases count - index
  {
    if index < count {
      RemovePartsGone(RemoveOne(w, faults, PartKey(key, g, index)).world, faults, key, g, index + 1, count);
    }
  }

  lemma {:induction false} WritePartsOnly(w: World, faults: Faults, key: string, g: nat, pieces: seq<string>,
      index: nat, i: nat)
    requires i >= |pieces| && PartKey(key, g, i) !in w.entries
    requires Works(faults, w.calls)
    ensures PartKey(key, g, i) !in WriteParts(w, faults, key, g, pieces, index).world.entries
    decreases |pieces| - index
  {
    if index < |pieces| {
      if PartKey(key, g, i) == PartKey(key, g, index) { PartKeysDiffer(key, g, i, g, index); }
      var one := WriteOne(w, faults, PartKey(key, g, index), pieces[index]);
      WritePartsOnly(one.world, faults, key, g, pieces, index + 1, i);
    }
  }

  /** After the parts of the old generation went, only those of the new one are left. */
  lemma RemoveOldCleans(done: Run, faults: Faults, key: string, prior: Option<PartsHead>)
    requires done.ok && Works(faults, done.world.calls)
    requires prior.Some? && HeadAt(done.world.entries, key).Some? ==>
      prior.value.generation != HeadAt(done.world.entries, key).value.generation
    requires OnlyPartsOf(done.world.entries, key, prior, HeadAt(done.world.entries, key))
    ensures CleanFor(RemoveOld(done, faults, key, prior).world.entries, key)
  {
    if prior.Some? {
      var g, count := prior.value.generation, prior.value.count;
      RemovePartsGone(done.world, faults, key, g, 1, count);
      RemovePartsFrame(done.world, faults, key, g, 1, count, done.world.entries);
      SameButKey(RemoveOld(done, faults, key, prior).world.entries, done.world.entries, key, g);
    }
  }

  lemma WriteInPartsParts(w: World, faults: Faults, key: string, g: nat, pieces: seq<string>, h: nat, i: nat)
    requires pieces != [] && |pieces| <= MAX_PARTS && g < U32 && i >= 1
    requires Works(faults, w.calls)
    ensures var entries := WriteInParts(w, faults, key, g, pieces).world.entries;
      PartKey(key, h, i) in entries ==> PartKey(key, h, i) in w.entries || (h == g && i < |pieces|)
    ensures WriteInParts(w, faults, key, g, pieces).ok
    ensures WriteInParts(w, faults, key, g, pieces).world.calls >= w.calls
  {
    WritePartsWorks(w, faults, key, g, pieces, 1);
    WritePartsFrame(w, faults, key, g, pieces, 1, w.entries);
    assert |PartKey(key, h, i)| > |key|;
    if PartKey(key, h, i) !in w.entries {
      if h == g {
        if i >= |pieces| { WritePartsOnly(w, faults, key, g, pieces, 1, i); }
      } else {
        forall j: nat | j >= 1 ensures PartKey(key, h, i) != PartKey(key, g, j) {
          if PartKey(key, h, i) == PartKey(key, g, j) { PartKeysDiffer(key, h, i, g, j); }
        }
      }
    }
  }

  lemma InPartsClean(w: World, faults: Faults, key: string, g: nat, pieces: seq<string>, prior: Option<PartsHead>)
    requires pieces != [] && |pieces| <= MAX_PARTS && g == NextGeneration(prior)
    requires Works(faults, w.calls) && CleanFor(w.entries, key) && prior == HeadAt(w.entries, key)
    ensures var run := RemoveOld(WriteInParts(w, faults, key, g, pieces), faults, key, prior);
      run.ok && CleanFor(run.world.entries, key) && run.world.calls >= w.calls
  {
    InPartsHead(w, faults, key, g, pieces);
    InPartsOnly(w, faults, key, g, pieces, prior);
    Finish(w, WriteInParts(w, faults, key, g, pieces), faults, key, prior, PartsHead(g, |pieces|, pieces[0]));
  }

  lemma Finish(w: World, done: Run, faults: Faults, key: string, prior: Option<PartsHead>, head: PartsHead)
    requires done.ok && Works(faults, w.calls) && done.world.calls >= w.calls
    requires HeadAt(done.world.entries, key) == Some(head) && OnlyPartsOf(done.world.entries, key, prior, Some(head))
    requires head.generation == NextGeneration(prior)
    ensures var run := RemoveOld(done, faults, key, prior);
      run.ok && CleanFor(run.world.entries, key) && run.world.calls >= w.calls
  {
    RemoveOldCleans(done, faults, key, prior);
    RemoveOldCalls(done, faults, key, prior);
  }

  lemma InPartsOnly(w: World, faults: Faults, key: string, g: nat, pieces: seq<string>, prior: Option<PartsHead>)
    requires pieces != [] && |pieces| <= MAX_PARTS && g < U32
    requires Works(faults, w.calls) && CleanFor(w.entries, key) && prior == HeadAt(w.entries, key)
    ensures OnlyPartsOf(WriteInParts(w, faults, key, g, pieces).world.entries, key, prior,
                        Some(PartsHead(g, |pieces|, pieces[0])))
  {
    var entries := WriteInParts(w, faults, key, g, pieces).world.entries;
    forall h: nat, i: nat | i >= 1 ensures PartKey(key, h, i) in entries ==>
      BelongsTo(prior, h, i) || (h == g && i < |pieces|)
    {
      WriteInPartsParts(w, faults, key, g, pieces, h, i);
    }
  }

  lemma InPartsHead(w: World, faults: Faults, key: string, g: nat, pieces: seq<string>)
    requires pieces != [] && |pieces| <= MAX_PARTS && g < U32 && Works(faults, w.calls)
    ensures var done := WriteInParts(w, faults, key, g, pieces);
      && done.ok && done.world.calls >= w.calls
      && HeadAt(done.world.entries, key) == Some(PartsHead(g, |pieces|, pieces[0]))
  {
    WriteInPartsParts(w, faults, key, g, pieces, 0, 1);
    WritePartsWorks(w, faults, key, g, pieces, 1);
    HeadWritten(w, faults, key, g, pieces);
  }

  lemma OneClean(w: World, faults: Faults, key: string, value: string, prior: Option<PartsHead>)
    requires !(PARTS_TAG <= value) && Works(faults, w.calls)
    requires CleanFor(w.entries, key) && prior == HeadAt(w.entries, key)
    ensures var run := RemoveOld(WriteOne(w, faults, key, value), faults, key, prior);
      run.ok && CleanFor(run.world.entries, key) && run.world.calls >= w.calls
  {
    var done := WriteOne(w, faults, key, value);
    PlainStored(done.world.entries, key);
    forall g: nat, i: nat ensures PartKey(key, g, i) != key { assert |PartKey(key, g, i)| > |key|; }
    RemoveOldCleans(done, faults, key, prior);
    RemoveOldCalls(done, faults, key, prior);
  }

  /** Where no call fails, `set` of a value that is not too long succeeds, and a clean key stays
      clean. */
  lemma SetClean(w: World, faults: Faults, key: string, value: string)
    requires Works(faults, w.calls) && CleanFor(w.entries, key)
    ensures var run := SetRun(w, faults, key, value);
      && CleanFor(run.world.entries, key)
      && (run.ok <==> InOnePiece(value) || |Pieces(value, PART_UNITS)| <= MAX_PARTS)
      && run.world.calls >= w.calls
  {
    var prior := OldHead(w, faults, key);
    var read := World(w.entries, w.calls + 1);
    var pieces := Pieces(value, PART_UNITS);
    if InOnePiece(value) {
      OneClean(read, faults, key, value, prior);
    } else if |pieces| <= MAX_PARTS {
      InPartsClean(read, faults, key, NextGeneration(prior), pieces, prior);
    }
  }

  lemma {:induction false} RemovePartsCalls(w: World, faults: Faults, key: string, g: nat, index: nat, count: nat)
    ensures RemoveParts(w, faults, key, g, index, count).world.calls >= w.calls
    decreases count - index
  {
    if index < count {
      RemovePartsCalls(RemoveOne(w, faults, PartKey(key, g, index)).world, faults, key, g, index + 1, count);
    }
  }

  lemma RemoveOldCalls(done: Run, faults: Faults, key: string, prior: Option<PartsHead>)
    ensures RemoveOld(done, faults, key, prior).world.calls >= done.world.calls
    ensures RemoveOld(done, faults, key, prior).ok == done.ok
  {
    if prior.Some? && done.ok {
      RemovePartsCalls(done.world, faults, key, prior.value.generation, 1, prior.value.count);
      RemovePartsOk(done.world, faults, key, prior.value.generation, 1, prior.value.count);
    }
  }

  lemma DeleteClean(w: World, faults: Faults, key: string)
    requires Works(faults, w.calls) && CleanFor(w.entries, key)
    ensures var run := DeleteRun(w, faults, key);
      run.ok && CleanFor(run.world.entries, key) && run.world.calls >= w.calls
  {
    var prior := OldHead(w, faults, key);
    var done := RemoveOne(World(w.entries, w.calls + 1), faults, key);
    RemoveOldCleans(done, faults, key, prior);
    RemoveOldCalls(done, faults, key, prior);
  }

  // --- A value is read whole or not at all -------------------------------------------------------

  /** `pieces` are the first piece of the header and every part it counts. */
  ghost predicate Whole(entries: Entries, key: string, head: PartsHead, pieces: seq<string>) {
    && |pieces| == head.count >= 1 && pieces[0] == head.first
    && forall i: nat :: 1 <= i < |pieces| ==>
      PartKey(key, head.generation, i) in entries && entries[PartKey(key, head.generation, i)] == pieces[i]
  }

  /** What a reader of `key` finds is `value`: the entry itself, or all the pieces its header counts,
      joined. */
  ghost predicate Holds(entries: Entries, key: string, value: string) {
    && key in entries
    && (if PARTS_TAG <= entries[key] then
          exists head, pieces :: ParseHead(entries[key]) == Some(head) && Whole(entries, key, head, pieces)
            && value == Join(pieces)
        else value == entries[key])
  }

  lemma {:induction false} GatherPieces(entries: Entries, key: string, head: PartsHead, index: nat)
      returns (rest: seq<string>)
    requires Gather(entries, key, head.generation, index, head.count).Some? && index <= head.count
    ensures |rest| == head.count - index
    ensures Join(rest) == Gather(entries, key, head.generation, index, head.count).value
    ensures forall i: nat :: index <= i < head.count ==>
      PartKey(key, head.generation, i) in entries && entries[PartKey(key, head.generation, i)] == rest[i - index]
    decreases head.count - index
  {
    rest := [];
    if index < head.count {
      var more := GatherPieces(entries, key, head, index + 1);
      rest := [entries[PartKey(key, head.generation, index)]] + more;
      assert rest[1..] == more;
    }
  }

  lemma GatheredWhole(entries: Entries, key: string, head: PartsHead, value: string)
    requires head.count >= 1 && WithRest(head, Gather(entries, key, head.generation, 1, head.count)) == Some(value)
    ensures exists pieces :: Whole(entries, key, head, pieces) && value == Join(pieces)
  {
    var rest := GatherPieces(entries, key, head, 1);
    var pieces := [head.first] + rest;
    assert pieces[1..] == rest;
    forall i: nat | 1 <= i < |pieces| ensures pieces[i] == rest[i - 1] {}
    assert Whole(entries, key, head, pieces);
  }

  lemma WholeGathers(entries: Entries, key: string, head: PartsHead, pieces: seq<string>)
    requires Whole(entries, key, head, pieces)
    ensures WithRest(head, Gather(entries, key, head.generation, 1, head.count)) == Some(Join(pieces))
  {
    GatherWritten(entries, key, head.generation, pieces, 1);
  }

  /** Main theorem: a value is read exactly if it is there whole; an entry of which a part is missing,
      or with a header that does not parse, is none. */
  lemma StoredIff(entries: Entries, key: string, value: string)
    ensures Stored(entries, key) == Some(value) <==> Holds(entries, key, value)
  {
    if key in entries && PARTS_TAG <= entries[key] && ParseHead(entries[key]).Some? {
      var head := ParseHead(entries[key]).value;
      if Stored(entries, key) == Some(value) { GatheredWhole(entries, key, head, value); }
      if Holds(entries, key, value) {
        var pieces :| Whole(entries, key, head, pieces) && value == Join(pieces);
        WholeGathers(entries, key, head, pieces);
      }
    }
  }

  // --- A set that fails is undone ----------------------------------------------------------------

  /** One call fails at most. */
  ghost predicate OneFault(faults: Faults, call: nat) { forall n: nat :: faults(n) ==> n == call }

  /** Of the generation's parts only those from `from` up to `upto` are there, beside what was. */
  ghost predicate OnlyParts(entries: Entries, was: Entries, key: string, g: nat, from: nat, upto: nat) {
    && SameBut(entries, was, key, g)
    && (forall i: nat :: i >= 1 ==> PartKey(key, g, i) !in was)
    && (forall i: nat :: i >= 1 && PartKey(key, g, i) in entries ==> from <= i < upto)
  }

  lemma NothingLeft(entries: Entries, was: Entries, key: string, g: nat, from: nat)
    requires OnlyParts(entries, was, key, g, from, from)
    ensures entries == was
  {
    forall name ensures name in entries <==> name in was
      ensures name in was ==> name in entries && entries[name] == was[name]
    {
      if i: nat :| i >= 1 && name == PartKey(key, g, i) {
        assert PartKey(key, g, i) !in entries && PartKey(key, g, i) !in was;
      }
    }
  }

  lemma OneRemoved(entries: Entries, was: Entries, key: string, g: nat, from: nat, upto: nat)
    requires OnlyParts(entries, was, key, g, from, upto) && 1 <= from < upto
    ensures OnlyParts(entries - {PartKey(key, g, from)}, was, key, g, from + 1, upto)
  {
  }

  lemma {:induction false} PartsUndone(w: World, faults: Faults, key: string, g: nat, from: nat, upto: nat,
      was: Entries)
    requires Works(faults, w.calls) && 1 <= from <= upto && OnlyParts(w.entries, was, key, g, from, upto)
    ensures RemoveParts(w, faults, key, g, from, upto).world.entries == was
    decreases upto - from
  {
    if from < upto {
      OneRemoved(w.entries, was, key, g, from, upto);
      PartsUndone(RemoveOne(w, faults, PartKey(key, g, from)).world, faults, key, g, from + 1, upto, was);
    } else {
      NothingLeft(w.entries, was, key, g, from);
    }
  }

  lemma OneAdded(entries: Entries, was: Entries, key: string, g: nat, index: nat, piece: string)
    requires OnlyParts(entries, was, key, g, 1, index) && index >= 1
    ensures OnlyParts(entries[PartKey(key, g, index) := piece], was, key, g, 1, index + 1)
  {
    var now := entries[PartKey(key, g, index) := piece];
    forall i: nat | i >= 1 && PartKey(key, g, i) in now ensures 1 <= i < index + 1 {
      if PartKey(key, g, i) == PartKey(key, g, index) { PartKeysDiffer(key, g, i, g, index); }
    }
  }

  lemma {:induction false} WritePartsUndone(w: World, faults: Faults, call: nat, key: string, g: nat,
      pieces: seq<string>, index: nat, was: Entries)
    requires OneFault(faults, call) && 1 <= index <= |pieces| && OnlyParts(w.entries, was, key, g, 1, index)
    ensures var run := WriteParts(w, faults, key, g, pieces, index);
      && run.world.calls >= w.calls
      && (run.ok ==> OnlyParts(run.world.entries, was, key, g, 1, |pieces|))
      && (!run.ok ==> run.world.entries == was)
    decreases |pieces| - index
  {
    if index < |pieces| {
      var one := WriteOne(w, faults, PartKey(key, g, index), pieces[index]);
      if one.ok {
        OneAdded(w.entries, was, key, g, index, pieces[index]);
        WritePartsUndone(one.world, faults, call, key, g, pieces, index + 1, was);
      } else {
        PartsUndone(one.world, faults, key, g, 1, index, was);
        RemovePartsCalls(one.world, faults, key, g, 1, index);
      }
    }
  }

  lemma InPartsUndone(w: World, faults: Faults, call: nat, key: string, g: nat, pieces: seq<string>)
    requires OneFault(faults, call) && pieces != [] && |pieces| <= MAX_PARTS
    requires forall i: nat :: i >= 1 ==> PartKey(key, g, i) !in w.entries
    ensures var run := WriteInParts(w, faults, key, g, pieces);
      !run.ok ==> run.world.entries == w.entries
  {
    var was := w.entries;
    var parts := WriteParts(w, faults, key, g, pieces, 1);
    assert OnlyParts(was, was, key, g, 1, 1);
    WritePartsUndone(w, faults, call, key, g, pieces, 1, was);
    if parts.ok {
      var head := WriteOne(parts.world, faults, key, WriteHead(g, |pieces|, pieces[0]));
      if !head.ok { PartsUndone(head.world, faults, key, g, 1, |pieces|, was); }
    }
  }

  lemma NextUnused(entries: Entries, key: string, prior: Option<PartsHead>)
    requires CleanFor(entries, key) && prior == HeadAt(entries, key)
    ensures forall i: nat :: i >= 1 ==> PartKey(key, NextGeneration(prior), i) !in entries
  {
    assert forall i: nat :: !BelongsTo(prior, NextGeneration(prior), i);
  }

  /** With nothing else failing, what cannot be read is replaced. */
  lemma UnreadSucceeds(w: World, faults: Faults, key: string, value: string, prior: Option<PartsHead>)
    requires Works(faults, w.calls) && |Pieces(value, PART_UNITS)| <= MAX_PARTS
    ensures SetWrites(w, faults, key, value, prior).ok
  {
    PiecesWhole(value, PART_UNITS);
    WritePartsWorks(w, faults, key, NextGeneration(prior), Pieces(value, PART_UNITS), 1);
  }

  lemma WritesUndone(w: World, faults: Faults, call: nat, key: string, value: string, prior: Option<PartsHead>)
    requires OneFault(faults, call) && CleanFor(w.entries, key) && prior == HeadAt(w.entries, key)
    ensures var done := SetWrites(w, faults, key, value, prior);
      !done.ok ==> done.world.entries == w.entries
  {
    var pieces := Pieces(value, PART_UNITS);
    PiecesWhole(value, PART_UNITS);
    if !InOnePiece(value) && |pieces| <= MAX_PARTS {
      NextUnused(w.entries, key, prior);
      InPartsUndone(w, faults, call, key, NextGeneration(prior), pieces);
    }
  }

  lemma NotRemoved(done: Run, faults: Faults, key: string, prior: Option<PartsHead>)
    requires !RemoveOld(done, faults, key, prior).ok
    ensures !done.ok && RemoveOld(done, faults, key, prior) == done
  {
    RemoveOldCalls(done, faults, key, prior);
  }

  /** Main theorem: when one call of a `set` fails, and so the `set` fails, every entry is as it was. */
  lemma FailedSetUndone(w: World, faults: Faults, call: nat, key: string, value: string)
    requires OneFault(faults, call) && CleanFor(w.entries, key)
    ensures var run := SetRun(w, faults, key, value);
      !run.ok ==> run.world.entries == w.entries
  {
    var prior, read := OldHead(w, faults, key), World(w.entries, w.calls + 1);
    if !SetRun(w, faults, key, value).ok {
      NotRemoved(SetWrites(read, faults, key, value, prior), faults, key, prior);
      if !faults(w.calls) {
        WritesUndone(read, faults, call, key, value, prior);
      } else if |Pieces(value, PART_UNITS)| <= MAX_PARTS {
        UnreadSucceeds(read, faults, key, value, prior);
      }
    }
  }

  // --- Removing goes on --------------------------------------------------------------------------

  lemma {:induction false} OnlyRemoved(w: World, faults: Faults, key: string, g: nat, index: nat, count: nat,
      name: string)
    requires name !in w.entries
    ensures name !in RemoveParts(w, faults, key, g, index, count).world.entries
    decreases count - index
  {
    if index < count {
      OnlyRemoved(RemoveOne(w, faults, PartKey(key, g, index)).world, faults, key, g, index + 1, count, name);
    }
  }

  /** Whatever other calls fail, a part whose own removal works is gone. */
  lemma {:induction false} RemovalGoesOn(w: World, faults: Faults, key: string, g: nat, index: nat, count: nat, i: nat)
    requires index <= i < count && !faults(w.calls + (i - index))
    ensures PartKey(key, g, i) !in RemoveParts(w, faults, key, g, index, count).world.entries
    decreases count - index
  {
    var one := RemoveOne(w, faults, PartKey(key, g, index));
    if i == index {
      OnlyRemoved(one.world, faults, key, g, index + 1, count, PartKey(key, g, i));
    } else {
      RemovalGoesOn(one.world, faults, key, g, index + 1, count, i);
    }
  }

  // --- Any run of operations ---------------------------------------------------------------------

  datatype Op = Put(key: string, value: string) | Drop(key: string)

  function RunAll(w: World, faults: Faults, ops: seq<Op>): World
    decreases |ops|
  {
    if ops == [] then w
    else match ops[0]
      case Put(key, value) => RunAll(SetRun(w, faults, key, value).world, faults, ops[1..])
      case Drop(key) => RunAll(DeleteRun(w, faults, key).world, faults, ops[1..])
  }

  /** The same operations on a plain map, which refuses what is too long. */
  function Plain(stored: Entries, ops: seq<Op>): Entries
    decreases |ops|
  {
    if ops == [] then stored
    else match ops[0]
      case Put(key, value) =>
        Plain(if |Pieces(value, PART_UNITS)| <= MAX_PARTS then stored[key := value] else stored, ops[1..])
      case Drop(key) => Plain(stored - {key}, ops[1..])
  }

  /** Names without a `#` read as in a plain map, and nothing stale is stored for them. */
  ghost predicate ReadsAs(entries: Entries, stored: Entries) {
    forall key :: '#' !in key ==>
      && Stored(entries, key) == (if key in stored then Some(stored[key]) else None)
      && CleanFor(entries, key)
  }

  lemma OneStep(run: Run, was: Entries, key: string, stored: Entries, next: Entries)
    requires ReadsAs(was, stored) && Local(run.world.entries, was, key) && '#' !in key
    requires Stored(run.world.entries, key) == (if key in next then Some(next[key]) else None)
    requires CleanFor(run.world.entries, key)
    requires forall other :: other != key ==>
      (other in next <==> other in stored) && (other in next ==> next[other] == stored[other])
    ensures ReadsAs(run.world.entries, next)
  {
    forall other | '#' !in other
      ensures Stored(run.world.entries, other) == (if other in next then Some(next[other]) else None)
      ensures CleanFor(run.world.entries, other)
    {
      if other != key { OthersKept(run.world.entries, was, key, other); }
    }
  }

  /** While no call fails, the store is a plain map: every run of operations reads back what was
      stored last, for every name, and leaves no stale part. */
  lemma {:induction false} StoreIsAMap(w: World, faults: Faults, ops: seq<Op>, stored: Entries)
    requires Works(faults, w.calls) && ReadsAs(w.entries, stored)
    requires forall i :: 0 <= i < |ops| ==> '#' !in ops[i].key
    ensures ReadsAs(RunAll(w, faults, ops).entries, Plain(stored, ops))
    decreases |ops|
  {
    if ops != [] {
      match ops[0]
      case Put(key, value) =>
        var run := SetRun(w, faults, key, value);
        SetClean(w, faults, key, value);
        SetLocal(w, faults, key, value);
        SetAtomic(w, faults, key, value);
        var next := if |Pieces(value, PART_UNITS)| <= MAX_PARTS then stored[key := value] else stored;
        CommitShows(run, key, Stored(w.entries, key), Some(value));
        OneStep(run, w.entries, key, stored, next);
        StoreIsAMap(run.world, faults, ops[1..], next);
      case Drop(key) =>
        var run := DeleteRun(w, faults, key);
        DeleteClean(w, faults, key);
        DeleteLocal(w, faults, key);
        DeleteAtomic(w, faults, key);
        CommitShows(run, key, Stored(w.entries, key), None);
        OneStep(run, w.entries, key, stored, stored - {key});
        StoreIsAMap(run.world, faults, ops[1..], stored - {key});
    }
  }

  lemma CommitShows(run: Run, key: string, before: Option<string>, after: Option<string>)
    requires CommitsOnce(run, key, before, after)
    ensures Stored(run.world.entries, key) == (if run.ok then after else before)
  {
    var k: nat :| CommitsAt(run, key, before, after, k);
  }

  lemma WritePartFails(w: World, faults: Faults, key: string, g: nat, pieces: seq<string>, index: nat,
      had: seq<Entries>)
    requires index < |pieces| && faults(w.calls)
    ensures var one := WriteOne(w, faults, PartKey(key, g, index), pieces[index]);
      var whole := WriteParts(w, faults, key, g, pieces, index);
      var undo := RemoveParts(one.world, faults, key, g, 1, index);
      && undo.world == whole.world && !whole.ok
      && (had + one.seen) + undo.seen == had + whole.seen
  {
    var one := WriteOne(w, faults, PartKey(key, g, index), pieces[index]);
    Regroup(had, one.seen, RemoveParts(one.world, faults, key, g, 1, index).seen);
  }

  lemma Regroup(a: seq<Entries>, b: seq<Entries>, c: seq<Entries>)
    ensures (a + b) + c == a + (b + c)
  {}

  lemma WritePartWorks(w: World, faults: Faults, key: string, g: nat, pieces: seq<string>, index: nat,
      had: seq<Entries>)
    requires index < |pieces| && !faults(w.calls)
    ensures var one := WriteOne(w, faults, PartKey(key, g, index), pieces[index]);
      var whole := WriteParts(w, faults, key, g, pieces, index);
      var rest := WriteParts(one.world, faults, key, g, pieces, index + 1);
      && rest.world == whole.world && rest.ok == whole.ok
      && (had + one.seen) + rest.seen == had + whole.seen
  {
    var one := WriteOne(w, faults, PartKey(key, g, index), pieces[index]);
    Regroup(had, one.seen, WriteParts(one.world, faults, key, g, pieces, index + 1).seen);
  }

  lemma JoinRest(had: seq<Entries>, first: seq<Entries>, whole: seq<Entries>)
    requires first <= whole
    ensures (had + first) + whole[|first|..] == had + whole
  {
    assert whole == first + whole[|first|..];
  }

  // --- The store itself --------------------------------------------------------------------------

  class KeyringSecretStore {
    const faults: Faults
    var entries: Entries
    /** Primitive calls so far. */
    var calls: nat
    /** The entries after each of them that may have changed some. */
    ghost var seen: seq<Entries>

    constructor (faults: Faults, entries: Entries)
      ensures this.faults == faults && this.entries == entries && calls == 0 && seen == []
    {
      this.faults, this.entries, calls, seen := faults, entries, 0, [];
    }

    function Here(): World
      reads this
    {
      World(entries, calls)
    }

    method Read(key: string) returns (r: Result<Option<string>>)
      modifies this`calls
      ensures calls == old(calls) + 1
      ensures r == if faults(old(calls)) then Failure
        else Success(if key in entries then Some(entries[key]) else None)
    {
      calls := calls + 1;
      if faults(calls - 1) {
        return Failure;
      }
      return Success(if key in entries then Some(entries[key]) else None);
    }

    method Write(key: string, value: string) returns (ok: bool)
      modifies this
      ensures var run := WriteOne(old(Here()), faults, key, value);
        Here() == run.world && ok == run.ok && seen == old(seen) + run.seen
    {
      ok := !faults(calls);
      calls := calls + 1;
      if ok {
        entries := entries[key := value];
      }
      seen := seen + [entries];
    }

    method Remove(key: string) returns (ok: bool)
      modifies this
      ensures var run := RemoveOne(old(Here()), faults, key);
        Here() == run.world && ok == run.ok && seen == old(seen) + run.seen
    {
      ok := !faults(calls);
      calls := calls + 1;
      if ok {
        entries := entries - {key};
      }
      seen := seen + [entries];
    }

    method RemovePartsOf(key: string, generation: nat, count: nat)
      modifies this
      ensures var run := RemoveParts(old(Here()), faults, key, generation, 1, count);
        Here() == run.world && seen == old(seen) + run.seen
    {
      var index := 1;
      ghost var whole := RemoveParts(Here(), faults, key, generation, 1, count);
      while index < count
        invariant 1 <= index
        invariant var rest := RemoveParts(Here(), faults, key, generation, index, count);
          rest.world == whole.world && seen + rest.seen == old(seen) + whole.seen
      {
        var _ := Remove(PartKey(key, generation, index));
        index := index + 1;
      }
    }

    method Get(key: string) returns (r: Result<Option<string>>)
      modifies this`calls
      ensures r.Success? ==> r.value == Stored(entries, key)
      ensures r.Failure? ==> exists n: nat :: old(calls) <= n < calls && faults(n)
    {
      var found := Read(key);
      if found.Failure? {
        assert faults(old(calls));
        return Failure;
      }
      if found.value.None? || !(PARTS_TAG <= found.value.value) {
        return found;
      }
      var parsed := ParseHead(found.value.value);
      if parsed.None? {
        return Success(None);
      }
      r := ReadParts(key, parsed.value);
    }

    /** The parts behind the entry, until one is missing. */
    method ReadParts(key: string, head: PartsHead) returns (r: Result<Option<string>>)
      modifies this`calls
      ensures calls >= old(calls)
      ensures r.Success? ==> r.value == WithRest(head, Gather(entries, key, head.generation, 1, head.count))
      ensures r.Failure? ==> exists n: nat :: old(calls) <= n < calls && faults(n)
    {
      var value := head.first;
      var index := 1;
      ghost var rest := Gather(entries, key, head.generation, 1, head.count);
      while index < head.count
        invariant 1 <= index && calls >= old(calls)
        invariant var more := Gather(entries, key, head.generation, index, head.count);
          if rest.Some? then more.Some? && value + more.value == head.first + rest.value else more.None?
      {
        ghost var from := calls;
        var part := Read(PartKey(key, head.generation, index));
        if part.Failure? {
          assert faults(from);
          return Failure;
        }
        if part.value.None? {
          return Success(None);
        }
        value := value + part.value.value;
        index := index + 1;
      }
      assert value + [] == value;
      return Success(Some(value));
    }

    method OldHeadOf(key: string) returns (head: Option<PartsHead>)
      modifies this`calls
      ensures calls == old(calls) + 1 && head == OldHead(old(Here()), faults, key)
    {
      var found := Read(key);
      head := if found.Success? && found.value.Some? then ParseHead(found.value.value) else None;
    }

    method WritePartsOf(key: string, generation: nat, pieces: seq<string>) returns (ok: bool)
      modifies this
      ensures var run := WriteParts(old(Here()), faults, key, generation, pieces, 1);
        Here() == run.world && ok == run.ok && seen == old(seen) + run.seen
    {
      var index := 1;
      ghost var whole := WriteParts(Here(), faults, key, generation, pieces, 1);
      while index < |pieces|
        invariant 1 <= index
        invariant var rest := WriteParts(Here(), faults, key, generation, pieces, index);
          rest.world == whole.world && rest.ok == whole.ok && seen + rest.seen == old(seen) + whole.seen
      {
        ghost var w, had := Here(), seen;
        ok := Write(PartKey(key, generation, index), pieces[index]);
        if !ok {
          WritePartFails(w, faults, key, generation, pieces, index, had);
          RemovePartsOf(key, generation, index);
          return;
        }
        WritePartWorks(w, faults, key, generation, pieces, index, had);
        index := index + 1;
      }
      assert seen + [] == seen;
      ok := true;
    }

    method WriteInPartsOf(key: string, generation: nat, pieces: seq<string>) returns (ok: bool)
      requires pieces != []
      modifies this
      ensures var run := WriteInParts(old(Here()), faults, key, generation, pieces);
        Here() == run.world && ok == run.ok && seen == old(seen) + run.seen
    {
      ok := WritePartsOf(key, generation, pieces);
      if !ok {
        return;
      }
      ok := Write(key, WriteHead(generation, |pieces|, pieces[0]));
      if !ok {
        RemovePartsOf(key, generation, |pieces|);
      }
    }

    method Set(key: string, value: string) returns (ok: bool)
      modifies this
      ensures var run := SetRun(old(Here()), faults, key, value);
        Here() == run.world && ok == run.ok && seen == old(seen) + run.seen
    {
      var prior := OldHeadOf(key);
      ok := Replace(key, value, prior);
    }

    /** The rest of `set`, once the old entry is read. */
    method Replace(key: string, value: string, prior: Option<PartsHead>) returns (ok: bool)
      modifies this
      ensures var run := RemoveOld(SetWrites(old(Here()), faults, key, value, prior), faults, key, prior);
        Here() == run.world && ok == run.ok && seen == old(seen) + run.seen
    {
      ghost var done := SetWrites(Here(), faults, key, value, prior);
      ok := WriteValue(key, value, prior);
      DropOld(key, prior, ok, done);
      JoinRest(old(seen), done.seen, RemoveOld(done, faults, key, prior).seen);
    }

    method WriteValue(key: string, value: string, prior: Option<PartsHead>) returns (ok: bool)
      modifies this
      ensures var run := SetWrites(old(Here()), faults, key, value, prior);
        Here() == run.world && ok == run.ok && seen == old(seen) + run.seen
    {
      var pieces := SplitUnits(value, PART_UNITS);
      if |pieces| == 1 && !(PARTS_TAG <= value) {
        ok := Write(key, value);
      } else if |pieces| > MAX_PARTS {
        ok := false;
      } else {
        ok := WriteInPartsOf(key, if prior.Some? then (prior.value.generation + 1) % U32 else 1, pieces);
      }
    }

    method DropOld(key: string, prior: Option<PartsHead>, ok: bool, ghost done: Run)
      requires Here() == done.world && ok == done.ok
      modifies this
      ensures var run := RemoveOld(done, faults, key, prior);
        && Here() == run.world && ok == run.ok
        && done.seen <= run.seen && seen == old(seen) + run.seen[|done.seen|..]
    {
      if ok && prior.Some? {
        RemovePartsOf(key, prior.value.generation, prior.value.count);
        RemovePartsOk(done.world, faults, key, prior.value.generation, 1, prior.value.count);
      }
    }

    method Delete(key: string) returns (ok: bool)
      modifies this
      ensures var run := DeleteRun(old(Here()), faults, key);
        Here() == run.world && ok == run.ok && seen == old(seen) + run.seen
    {
      var prior := OldHeadOf(key);
      ghost var done := RemoveOne(Here(), faults, key);
      ok := Remove(key);
      DropOld(key, prior, ok, done);
      JoinRest(old(seen), done.seen, RemoveOld(done, faults, key, prior).seen);
    }
  }
}
