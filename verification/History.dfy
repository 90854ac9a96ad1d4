/** The skin histories of the profiles (`history.rs`): what is recorded, what is pruned, and undo.

    Times are whole nanoseconds. A file reads and is written, or fails to; its JSON, the textures
    and the pictures are not part of this. */
module History {
  import opened Numerals
  import opened Ordering
  import opened Wrappers

  const MAX_KEPT: nat := 60
  const MAX_READ_ENTRIES: nat := 500
  const LAST_WORN_STEP: int := 3600 * 1_000_000_000
  const HISTORY_UNDO_WINDOW: int := 300 * 1_000_000_000

  datatype Variant = Classic | Slim

  datatype Source = Launcher | Profile

  datatype Entry = Entry(id: string, variant: Variant, firstSeen: int, lastWorn: int, source: Source, favorite: bool)

  // --- Lists of entries --------------------------------------------------------------------------

  ghost predicate Distinct(entries: seq<Entry>) {
    forall i, j :: 0 <= i < j < |entries| ==> entries[i].id != entries[j].id
  }

  function Ids(entries: seq<Entry>): set<string> { set i | 0 <= i < |entries| :: entries[i].id }

  function Filter(entries: seq<Entry>, p: Entry -> bool): seq<Entry> {
    if entries == [] then [] else (if p(entries[0]) then [entries[0]] else []) + Filter(entries[1..], p)
  }

  lemma {:induction false} FilterIn(entries: seq<Entry>, p: Entry -> bool)
    ensures forall e :: e in Filter(entries, p) <==> e in entries && p(e)
  {
    if entries != [] {
      FilterIn(entries[1..], p);
      assert entries == [entries[0]] + entries[1..];
    }
  }

  lemma DistinctJoins(e: Entry, entries: seq<Entry>)
    requires Distinct(entries) && forall x :: x in entries ==> x.id != e.id
    ensures Distinct([e] + entries)
  {
    forall i, j | 0 <= i < j < |[e] + entries| ensures ([e] + entries)[i].id != ([e] + entries)[j].id {
      assert ([e] + entries)[j] == entries[j - 1];
      assert entries[j - 1] in entries;
    }
  }

  lemma {:induction false} FilterDistinct(entries: seq<Entry>, p: Entry -> bool)
    requires Distinct(entries)
    ensures Distinct(Filter(entries, p))
  {
    if entries != [] {
      var rest := Filter(entries[1..], p);
      FilterDistinct(entries[1..], p);
      FilterIn(entries[1..], p);
      forall x | x in rest ensures x.id != entries[0].id {
        var i :| 0 <= i < |entries[1..]| && entries[1..][i] == x;
        assert entries[i + 1] == x;
      }
      if p(entries[0]) { DistinctJoins(entries[0], rest); }
    }
  }

  lemma {:induction false} IdsCount(entries: seq<Entry>)
    requires Distinct(entries)
    ensures |Ids(entries)| == |entries|
  {
    if entries != [] {
      var rest := entries[1..];
      IdsCount(rest);
      assert entries[0].id !in Ids(rest) by {
        forall i | 0 <= i < |rest| ensures rest[i].id != entries[0].id { assert rest[i] == entries[i + 1]; }
      }
      assert Ids(entries) == {entries[0].id} + Ids(rest) by {
        forall id | id in Ids(entries) ensures id in {entries[0].id} + Ids(rest) {
          var i :| 0 <= i < |entries| && entries[i].id == id;
          if i > 0 { assert rest[i - 1].id == id; }
        }
        forall id | id in Ids(rest) ensures id in Ids(entries) {
          var i :| 0 <= i < |rest| && rest[i].id == id;
          assert entries[i + 1].id == id;
        }
      }
    }
  }

  /** Two entries of a history with the same id are the same. */
  lemma SameEntry(entries: seq<Entry>, a: Entry, b: Entry)
    requires Distinct(entries) && a in entries && b in entries && a.id == b.id
    ensures a == b
  {
    var i :| 0 <= i < |entries| && entries[i] == a;
    var j :| 0 <= j < |entries| && entries[j] == b;
    assert i == j;
  }

  // --- Pruning -----------------------------------------------------------------------------------

  function Other(): Entry -> bool { (e: Entry) => !e.favorite }

  function Candidate(keep: string): Entry -> bool { (e: Entry) => !e.favorite && e.id != keep }

  function NotOf(gone: set<string>): Entry -> bool { (e: Entry) => e.id !in gone }

  function CompareAge(a: Entry, b: Entry): Order {
    Then(CompareInt(a.lastWorn, b.lastWorn), Then(CompareInt(a.firstSeen, b.firstSeen), CompareText(a.id, b.id)))
  }

  function OldestFirst(): (Entry, Entry) -> bool { (a, b) => CompareAge(a, b) != Greater }

  lemma AgeIsOrder()
    ensures Total(OldestFirst()) && Transitive(OldestFirst())
  {
    forall a, b ensures OldestFirst()(a, b) || OldestFirst()(b, a) { TextFlips(a.id, b.id); }
    forall a, b, c | OldestFirst()(a, b) && OldestFirst()(b, c) ensures OldestFirst()(a, c) {
      if CompareText(a.id, b.id) != Greater && CompareText(b.id, c.id) != Greater { TextTransitive(a.id, b.id, c.id); }
    }
  }

  function Take<T>(s: seq<T>, n: nat): seq<T> { if n <= |s| then s[..n] else s }

  function Count(entries: seq<Entry>): nat { |Filter(entries, Other())| }

  /** What may go, oldest first. */
  function Candidates(entries: seq<Entry>, keep: string): seq<Entry> {
    Sort(Filter(entries, Candidate(keep)), OldestFirst())
  }

  function Gone(entries: seq<Entry>, keep: string): set<string>
    requires Count(entries) > MAX_KEPT
  {
    Ids(Take(Candidates(entries, keep), Count(entries) - MAX_KEPT))
  }

  function Pruned(entries: seq<Entry>, keep: string): seq<Entry> {
    if Count(entries) <= MAX_KEPT then entries else Filter(entries, NotOf(Gone(entries, keep)))
  }

  lemma FilterNext(entries: seq<Entry>, p: Entry -> bool, i: nat)
    requires i < |entries|
    ensures Filter(entries[..i + 1], p) == Filter(entries[..i], p) + (if p(entries[i]) then [entries[i]] else [])
  {
    FilterJoin(entries[..i], [entries[i]], p);
    assert entries[..i + 1] == entries[..i] + [entries[i]];
  }

  lemma {:induction false} FilterJoin(a: seq<Entry>, b: seq<Entry>, p: Entry -> bool)
    ensures Filter(a + b, p) == Filter(a, p) + Filter(b, p)
  {
    if a == [] {
      assert a + b == b;
    } else {
      FilterJoin(a[1..], b, p);
      assert (a + b)[1..] == a[1..] + b && (a + b)[0] == a[0];
      Regroup(if p(a[0]) then [a[0]] else [], Filter(a[1..], p), Filter(b, p));
    }
  }

  lemma Regroup(a: seq<Entry>, b: seq<Entry>, c: seq<Entry>)
    ensures a + (b + c) == a + b + c
  {
  }

  method Collect(entries: seq<Entry>, p: Entry -> bool) returns (found: seq<Entry>)
    ensures found == Filter(entries, p)
  {
    found := [];
    for i := 0 to |entries|
      invariant found == Filter(entries[..i], p)
    {
      FilterNext(entries, p, i);
      if p(entries[i]) {
        found := found + [entries[i]];
      }
    }
    assert entries[..|entries|] == entries;
  }

  /** Whom `prune` lets go. */
  method PickGone(entries: seq<Entry>, keep: string, count: nat) returns (gone: set<string>)
    requires Count(entries) == count > MAX_KEPT
    ensures gone == Gone(entries, keep)
  {
    var candidates := Collect(entries, Candidate(keep));
    var oldest := Sort(candidates, OldestFirst());
    gone := Ids(Take(oldest, count - MAX_KEPT));
  }

  /** `prune`. */
  method Prune(entries: seq<Entry>, keep: string) returns (left: seq<Entry>)
    ensures left == Pruned(entries, keep)
  {
    var others := Collect(entries, Other());
    if |others| <= MAX_KEPT {
      return entries;
    }
    var gone := PickGone(entries, keep, |others|);
    left := Collect(entries, NotOf(gone));
  }

  lemma CandidatesIn(entries: seq<Entry>, keep: string)
    ensures forall e :: e in Candidates(entries, keep) <==> e in entries && !e.favorite && e.id != keep
  {
    var found := Filter(entries, Candidate(keep));
    FilterIn(entries, Candidate(keep));
    SortHolds(found, OldestFirst());
    forall e ensures e in Candidates(entries, keep) <==> e in found {
      assert e in multiset(Candidates(entries, keep)) <==> e in multiset(found);
    }
  }

  /** Neither a favourite nor the skin worn now goes, and what stays keeps its place. */
  lemma PruneKeeps(entries: seq<Entry>, keep: string)
    requires Distinct(entries)
    ensures Distinct(Pruned(entries, keep))
    ensures forall e :: e in Pruned(entries, keep) ==> e in entries
    ensures forall e :: e in entries && (e.favorite || e.id == keep) ==> e in Pruned(entries, keep)
  {
    if Count(entries) > MAX_KEPT {
      var gone := Gone(entries, keep);
      FilterIn(entries, NotOf(gone));
      FilterDistinct(entries, NotOf(gone));
      forall e | e in entries && (e.favorite || e.id == keep) ensures e.id !in gone {
        if e.id in gone {
          var g := GoneEntry(entries, keep, e.id);
          SameEntry(entries, e, g);
        }
      }
    }
  }

  lemma GoneEntry(entries: seq<Entry>, keep: string, id: string) returns (g: Entry)
    requires Count(entries) > MAX_KEPT && id in Gone(entries, keep)
    ensures g.id == id && g in entries && !g.favorite && g.id != keep
    ensures g in Take(Candidates(entries, keep), Count(entries) - MAX_KEPT)
  {
    var first := Take(Candidates(entries, keep), Count(entries) - MAX_KEPT);
    var i :| 0 <= i < |first| && first[i].id == id;
    g := first[i];
    assert g in Candidates(entries, keep);
    CandidatesIn(entries, keep);
  }

  lemma CandidatesSorted(entries: seq<Entry>, keep: string)
    ensures Sorted(Candidates(entries, keep), OldestFirst())
  {
    AgeIsOrder();
    SortSorts(Filter(entries, Candidate(keep)), OldestFirst());
  }

  lemma OlderMeans(a: Entry, b: Entry)
    requires OldestFirst()(a, b)
    ensures CompareAge(a, b) != Greater && a.lastWorn <= b.lastWorn
  {
  }

  lemma WhoGoes(entries: seq<Entry>, keep: string, gone: Entry)
    requires Distinct(entries) && gone in entries && gone !in Pruned(entries, keep)
    ensures Count(entries) > MAX_KEPT && gone in Take(Candidates(entries, keep), Count(entries) - MAX_KEPT)
  {
    FilterIn(entries, NotOf(Gone(entries, keep)));
    var g := GoneEntry(entries, keep, gone.id);
    SameEntry(entries, g, gone);
  }

  lemma WhoStays(entries: seq<Entry>, keep: string, stays: Entry)
    requires Count(entries) > MAX_KEPT && stays in Pruned(entries, keep) && !stays.favorite && stays.id != keep
    ensures stays in Candidates(entries, keep)
    ensures stays.id !in Ids(Take(Candidates(entries, keep), Count(entries) - MAX_KEPT))
  {
    FilterIn(entries, NotOf(Gone(entries, keep)));
    CandidatesIn(entries, keep);
  }

  lemma FirstOnes(all: seq<Entry>, n: nat, first: Entry, other: Entry)
    requires Sorted(all, OldestFirst()) && first in Take(all, n)
    requires other in all && other.id !in Ids(Take(all, n))
    ensures CompareAge(first, other) != Greater && first.lastWorn <= other.lastWorn
  {
    var i :| 0 <= i < |Take(all, n)| && Take(all, n)[i] == first;
    var j :| 0 <= j < |all| && all[j] == other;
    assert j >= |Take(all, n)|;
    assert OldestFirst()(all[i], all[j]);
    OlderMeans(first, other);
  }

  /** What goes is older than every other entry that could have gone and stays. */
  lemma OldestGo(entries: seq<Entry>, keep: string, gone: Entry, stays: Entry)
    requires Distinct(entries) && gone in entries && gone !in Pruned(entries, keep)
    requires stays in Pruned(entries, keep) && !stays.favorite && stays.id != keep
    ensures CompareAge(gone, stays) != Greater && gone.lastWorn <= stays.lastWorn
  {
    WhoGoes(entries, keep, gone);
    WhoStays(entries, keep, stays);
    CandidatesSorted(entries, keep);
    var all, n: nat := Candidates(entries, keep), Count(entries) - MAX_KEPT;
    FirstOnes(all, n, gone, stays);
  }

  lemma {:induction false} FilterIds(entries: seq<Entry>, p: Entry -> bool)
    ensures forall id :: id in Ids(Filter(entries, p)) <==> exists e :: e in entries && p(e) && e.id == id
  {
    FilterIn(entries, p);
    var found := Filter(entries, p);
    forall id ensures id in Ids(found) <==> exists e :: e in entries && p(e) && e.id == id {
      if id in Ids(found) {
        var i :| 0 <= i < |found| && found[i].id == id;
        assert found[i] in found;
      }
      if e :| e in entries && p(e) && e.id == id {
        assert e in found;
        var i :| 0 <= i < |found| && found[i] == e;
      }
    }
  }

  lemma SameIds(a: seq<Entry>, b: seq<Entry>)
    requires Distinct(a) && multiset(a) == multiset(b)
    ensures Distinct(b) && Ids(a) == Ids(b)
  {
    forall i, j | 0 <= i < j < |b| ensures b[i].id != b[j].id {
      if b[i].id == b[j].id {
        assert b[i] in multiset(a) && b[j] in multiset(a);
        SameEntry(a, b[i], b[j]);
        Twice(b, i, j);
        OnceEach(a, b[i]);
      }
    }
    forall id ensures id in Ids(a) <==> id in Ids(b) {
      if id in Ids(a) {
        var i :| 0 <= i < |a| && a[i].id == id;
        assert a[i] in multiset(b);
        var j :| 0 <= j < |b| && b[j] == a[i];
      }
      if id in Ids(b) {
        var i :| 0 <= i < |b| && b[i].id == id;
        assert b[i] in multiset(a);
        var j :| 0 <= j < |a| && a[j] == b[i];
      }
    }
  }

  lemma Twice(b: seq<Entry>, i: nat, j: nat)
    requires i < j < |b| && b[i] == b[j]
    ensures multiset(b)[b[i]] >= 2
  {
    assert b == b[..j] + [b[j]] + b[j + 1..];
    assert b[i] in b[..j];
  }

  lemma {:induction false} OnceEach(a: seq<Entry>, e: Entry)
    requires Distinct(a)
    ensures multiset(a)[e] <= 1
  {
    if a != [] {
      OnceEach(a[1..], e);
      assert a == [a[0]] + a[1..];
      if e == a[0] {
        forall i | 0 <= i < |a[1..]| ensures a[1..][i] != e { assert a[1..][i] == a[i + 1]; }
      }
    }
  }

  /** Exactly as many are left as may be. */
  lemma PruneCounts(entries: seq<Entry>, keep: string)
    requires Distinct(entries)
    ensures Count(Pruned(entries, keep)) == if Count(entries) <= MAX_KEPT then Count(entries) else MAX_KEPT
  {
    if Count(entries) > MAX_KEPT {
      var others, left := Filter(entries, Other()), Pruned(entries, keep);
      var gone := Gone(entries, keep);
      GoneCount(entries, keep);
      FilterDistinct(entries, Other());
      PruneKeeps(entries, keep);
      FilterDistinct(left, Other());
      IdsCount(others);
      IdsCount(Filter(left, Other()));
      LeftIds(entries, keep);
      GoneAreOthers(entries, keep);
      assert |Ids(others) - gone| == |Ids(others)| - |gone|;
    }
  }

  lemma GoneAreOthers(entries: seq<Entry>, keep: string)
    requires Count(entries) > MAX_KEPT
    ensures Gone(entries, keep) <= Ids(Filter(entries, Other()))
  {
    FilterIds(entries, Other());
    forall id | id in Gone(entries, keep) ensures id in Ids(Filter(entries, Other())) {
      var g := GoneEntry(entries, keep, id);
    }
  }

  lemma LeftIds(entries: seq<Entry>, keep: string)
    requires Distinct(entries) && Count(entries) > MAX_KEPT
    ensures Ids(Filter(Pruned(entries, keep), Other())) == Ids(Filter(entries, Other())) - Gone(entries, keep)
  {
    var left, gone := Pruned(entries, keep), Gone(entries, keep);
    FilterIn(entries, NotOf(gone));
    FilterIds(entries, Other());
    FilterIds(left, Other());
  }

  lemma GoneCount(entries: seq<Entry>, keep: string)
    requires Distinct(entries) && Count(entries) > MAX_KEPT
    ensures |Gone(entries, keep)| == Count(entries) - MAX_KEPT
  {
    var found := Filter(entries, Candidate(keep));
    var all := Candidates(entries, keep);
    var n := Count(entries) - MAX_KEPT;
    FilterDistinct(entries, Candidate(keep));
    SortHolds(found, OldestFirst());
    SameIds(found, all);
    IdsCount(found);
    IdsCount(all);
    AllButOne(entries, keep);
    assert n <= |all|;
    assert Distinct(Take(all, n));
    IdsCount(Take(all, n));
  }

  lemma AllButOne(entries: seq<Entry>, keep: string)
    requires Distinct(entries)
    ensures |Filter(entries, Candidate(keep))| >= Count(entries) - 1
  {
    var others, found := Filter(entries, Other()), Filter(entries, Candidate(keep));
    FilterDistinct(entries, Other());
    FilterDistinct(entries, Candidate(keep));
    IdsCount(others);
    IdsCount(found);
    FilterIds(entries, Other());
    FilterIds(entries, Candidate(keep));
    assert Ids(found) == Ids(others) - {keep};
  }

  // --- The operations on a profile's entries -----------------------------------------------------

  function Position(entries: seq<Entry>, id: string): (at: Option<nat>)
    ensures at.Some? ==> at.value < |entries| && entries[at.value].id == id
  {
    if entries == [] then None
    else if entries[0].id == id then Some(0)
    else match Position(entries[1..], id) case Some(i) => Some(i + 1) case None => None
  }

  lemma {:induction false} PositionNone(entries: seq<Entry>, id: string)
    ensures Position(entries, id).None? <==> forall i :: 0 <= i < |entries| ==> entries[i].id != id
  {
    if entries != [] {
      PositionNone(entries[1..], id);
      if Position(entries, id).None? {
        forall i | 0 <= i < |entries| ensures entries[i].id != id {
          if i > 0 { assert entries[1..][i - 1] == entries[i]; }
        }
      }
      if forall i :: 0 <= i < |entries| ==> entries[i].id != id {
        forall i | 0 <= i < |entries[1..]| ensures entries[1..][i].id != id {
          assert entries[1..][i] == entries[i + 1];
        }
      }
    }
  }

  /** The entry worn last; of several the one that stands last. */
  function Latest(entries: seq<Entry>): (at: Option<nat>)
    ensures at.Some? <==> entries != []
    ensures at.Some? ==> at.value < |entries|
  {
    if entries == [] then None
    else
      var n := |entries| - 1;
      match Latest(entries[..n])
      case Some(m) => if entries[m].lastWorn <= entries[n].lastWorn then Some(n) else Some(m)
      case None => Some(n)
  }

  lemma {:induction false} LatestIs(entries: seq<Entry>)
    ensures entries != [] ==>
      forall i :: 0 <= i < |entries| ==> entries[i].lastWorn <= entries[Latest(entries).value].lastWorn
  {
    if |entries| > 1 { LatestIs(entries[..|entries| - 1]); }
  }

  method FindLatest(entries: seq<Entry>) returns (at: Option<nat>)
    ensures at == Latest(entries)
  {
    at := None;
    for i := 0 to |entries|
      invariant at == Latest(entries[..i])
    {
      assert entries[..i + 1][..i] == entries[..i];
      if at.None? || entries[at.value].lastWorn <= entries[i].lastWorn {
        at := Some(i);
      }
    }
    assert entries[..|entries|] == entries;
  }

  method FindPosition(entries: seq<Entry>, id: string) returns (at: Option<nat>)
    ensures at == Position(entries, id)
  {
    var i := 0;
    while i < |entries|
      invariant 0 <= i <= |entries|
      invariant Position(entries, id) == match Position(entries[i..], id) case Some(j) => Some(i + j) case None => None
    {
      if entries[i].id == id {
        return Some(i);
      }
      i := i + 1;
    }
    return None;
  }

  datatype Recording = Recording(entries: seq<Entry>, changed: bool)

  predicate WornLast(entries: seq<Entry>, id: string) {
    Latest(entries).Some? && entries[Latest(entries).value].id == id
  }

  function Max(a: int, b: int): int { if a < b then b else a }

  function Min(a: int, b: int): int { if a < b then a else b }

  /** The entries with the skin recorded, before pruning, and whether that changed anything. */
  function Recorded(entries: seq<Entry>, id: string, variant: Variant, source: Source, now: int): Recording {
    match Position(entries, id)
    case Some(i) =>
      var e := entries[i];
      var move := !WornLast(entries, id) || now - e.lastWorn >= LAST_WORN_STEP;
      Recording(entries[i := e.(variant := variant, lastWorn := if move then Max(e.lastWorn, now) else e.lastWorn)],
                e.variant != variant || move)
    case None => Recording(entries + [Entry(id, variant, now, now, source, false)], true)
  }

  /** What the file holds after the recording. */
  function AfterRecord(entries: seq<Entry>, id: string, variant: Variant, source: Source, now: int): seq<Entry> {
    var r := Recorded(entries, id, variant, source, now);
    if r.changed then Pruned(r.entries, id) else entries
  }

  /** The middle of `record`: the skin's entry changed, or a new one. */
  method Note(entries: seq<Entry>, id: string, variant: Variant, source: Source, now: int)
    returns (noted: seq<Entry>, changed: bool)
    ensures Recording(noted, changed) == Recorded(entries, id, variant, source, now)
  {
    var latest := FindLatest(entries);
    var at := FindPosition(entries, id);
    if at.None? {
      return entries + [Entry(id, variant, now, now, source, false)], true;
    }
    var e := entries[at.value];
    var wornLast := latest.Some? && entries[latest.value].id == id;
    var due := now - e.lastWorn >= LAST_WORN_STEP;
    changed := e.variant != variant || !wornLast || due;
    e := e.(variant := variant);
    if !wornLast || due {
      e := e.(lastWorn := Max(e.lastWorn, now));
    }
    noted := entries[at.value := e];
  }

  function Favored(entries: seq<Entry>, i: nat, favorite: bool): seq<Entry>
    requires i < |entries|
  {
    entries[i := entries[i].(favorite := favorite)]
  }

  function Without(entries: seq<Entry>, i: nat): seq<Entry>
    requires i < |entries|
  {
    entries[..i] + entries[i + 1..]
  }

  /** An entry recorded again takes over what an old one of its skin knew. */
  function Merged(entry: Entry, prior: Entry): Entry {
    entry.(favorite := entry.favorite || prior.favorite, firstSeen := Min(entry.firstSeen, prior.firstSeen),
           source := prior.source)
  }

  function PutBack(entries: seq<Entry>, entry: Entry): seq<Entry> {
    match Position(entries, entry.id)
    case Some(i) => entries[i := Merged(entries[i], entry)]
    case None => entries + [entry]
  }

  function Retargeted(entries: seq<Entry>, i: nat, to: string): seq<Entry>
    requires i < |entries|
  {
    PutBack(Without(entries, i), entries[i].(id := to))
  }

  /** The one entry of that id is `e`. */
  ghost predicate IsEntry(entries: seq<Entry>, id: string, e: Entry) {
    e in entries && forall x :: x in entries && x.id == id ==> x == e
  }

  /** Apart from this id, the entries are the same. */
  ghost predicate SameApart(now: seq<Entry>, was: seq<Entry>, id: string) {
    forall x: Entry :: x.id != id ==> (x in now <==> x in was)
  }

  /** An entry put back: if its skin was recorded again since, that entry takes over the mark, the
      older first sighting and the source, and keeps what is newer; else it is there as it was. */
  lemma PutBackMeans(entries: seq<Entry>, entry: Entry)
    requires Distinct(entries)
    ensures SameApart(PutBack(entries, entry), entries, entry.id)
    ensures match Position(entries, entry.id)
      case Some(i) =>
        var e := entries[i];
        IsEntry(PutBack(entries, entry), entry.id,
                Entry(entry.id, e.variant, if e.firstSeen < entry.firstSeen then e.firstSeen else entry.firstSeen,
                      e.lastWorn, entry.source, e.favorite || entry.favorite))
      case None => IsEntry(PutBack(entries, entry), entry.id, entry)
  {
    var after := PutBack(entries, entry);
    var at := match Position(entries, entry.id) case Some(i) => i case None => |entries|;
    PositionNone(entries, entry.id);
    assert after[at] in after && after[at].id == entry.id;
    forall x | x in after && x.id == entry.id ensures x == after[at] {
      var k :| 0 <= k < |after| && after[k] == x;
    }
    forall x: Entry | x.id != entry.id ensures x in after <==> x in entries {
      if x in entries {
        var k :| 0 <= k < |entries| && entries[k] == x;
        assert after[k] == x;
      }
      if x in after {
        var k :| 0 <= k < |after| && after[k] == x;
        assert k < |entries| && entries[k] == x;
      }
    }
  }

  lemma ChangedDistinct(entries: seq<Entry>, i: nat, e: Entry)
    requires Distinct(entries) && i < |entries| && e.id == entries[i].id
    ensures Distinct(entries[i := e])
  {
  }

  lemma WithoutDistinct(entries: seq<Entry>, i: nat)
    requires Distinct(entries) && i < |entries|
    ensures Distinct(Without(entries, i)) && Position(Without(entries, i), entries[i].id).None?
  {
    var left := Without(entries, i);
    forall j | 0 <= j < |left| ensures left[j] == if j < i then entries[j] else entries[j + 1] {}
    PositionNone(left, entries[i].id);
  }

  lemma PutBackDistinct(entries: seq<Entry>, entry: Entry)
    requires Distinct(entries)
    ensures Distinct(PutBack(entries, entry))
  {
    PositionNone(entries, entry.id);
  }

  lemma RecordedDistinct(entries: seq<Entry>, id: string, variant: Variant, source: Source, now: int)
    requires Distinct(entries)
    ensures Distinct(Recorded(entries, id, variant, source, now).entries)
    ensures Distinct(AfterRecord(entries, id, variant, source, now))
  {
    PositionNone(entries, id);
    PruneKeeps(Recorded(entries, id, variant, source, now).entries, id);
  }

  /** The entry of the recorded skin. */
  function RecordedEntry(entries: seq<Entry>, id: string, variant: Variant, source: Source, now: int): (e: Entry)
    ensures e.id == id && e in Recorded(entries, id, variant, source, now).entries
  {
    var r := Recorded(entries, id, variant, source, now).entries;
    match Position(entries, id)
    case Some(i) => assert r[i] in r; r[i]
    case None => assert r[|entries|] in r; r[|entries|]
  }

  lemma RecordedHere(entries: seq<Entry>, id: string, variant: Variant, source: Source, now: int)
    requires Distinct(entries)
    ensures var e := RecordedEntry(entries, id, variant, source, now);
      e in AfterRecord(entries, id, variant, source, now) && e.variant == variant && e.lastWorn > now - LAST_WORN_STEP
  {
    var r := Recorded(entries, id, variant, source, now);
    RecordedDistinct(entries, id, variant, source, now);
    PruneKeeps(r.entries, id);
    if !r.changed { assert r.entries == entries; }
  }

  /** What a recording does to the skin's own entry: nothing that was known of it is lost. */
  lemma RecordedEntryIs(entries: seq<Entry>, id: string, variant: Variant, source: Source, now: int)
    requires Distinct(entries)
    ensures var e := RecordedEntry(entries, id, variant, source, now);
      match Position(entries, id)
      case Some(i) =>
        && e == entries[i].(variant := variant, lastWorn := e.lastWorn)
        && (e.lastWorn == entries[i].lastWorn || e.lastWorn == now > entries[i].lastWorn)
        && (e.lastWorn < now ==> forall x :: x in entries ==> x.lastWorn <= e.lastWorn)
      case None => e == Entry(id, variant, now, now, source, false)
  {
    LatestIs(entries);
    forall x | x in entries && WornLast(entries, id)
      ensures x.lastWorn <= entries[Latest(entries).value].lastWorn
    {
      var k :| 0 <= k < |entries| && entries[k] == x;
    }
    if Position(entries, id).Some? && WornLast(entries, id) {
      SameEntry(entries, entries[Latest(entries).value], entries[Position(entries, id).value]);
    }
  }

  lemma RecordKeepsRest(entries: seq<Entry>, id: string, variant: Variant, source: Source, now: int)
    requires Distinct(entries)
    ensures forall x :: x in AfterRecord(entries, id, variant, source, now) && x.id != id ==> x in entries
    ensures forall x :: x in entries && x.favorite && x.id != id ==>
      x in AfterRecord(entries, id, variant, source, now)
  {
    RecordedDistinct(entries, id, variant, source, now);
    RecordedOthers(entries, id, variant, source, now);
    PruneKeeps(Recorded(entries, id, variant, source, now).entries, id);
  }

  lemma RecordedIsLast(entries: seq<Entry>, id: string, variant: Variant, source: Source, now: int, x: Entry)
    requires Distinct(entries) && x in AfterRecord(entries, id, variant, source, now)
    requires forall x :: x in entries ==> x.lastWorn <= now
    ensures x.lastWorn <= RecordedEntry(entries, id, variant, source, now).lastWorn
  {
    var r := Recorded(entries, id, variant, source, now);
    RecordedDistinct(entries, id, variant, source, now);
    PruneKeeps(r.entries, id);
    if !r.changed { NotChanged(entries, id, variant, source, now); }
    RecordedLast(entries, id, variant, source, now, x);
  }

  lemma NotChanged(entries: seq<Entry>, id: string, variant: Variant, source: Source, now: int)
    requires !Recorded(entries, id, variant, source, now).changed
    ensures Recorded(entries, id, variant, source, now).entries == entries
  {
  }

  /** Main theorem: after a recording the skin is there with its arm model, worn less than an hour
      ago, and worn last if the clock has not gone back; every other entry that is left is as it
      was, and no favourite went. */
  lemma RecordMeans(entries: seq<Entry>, id: string, variant: Variant, source: Source, now: int)
    requires Distinct(entries)
    ensures
      var after := AfterRecord(entries, id, variant, source, now);
      var e := RecordedEntry(entries, id, variant, source, now);
      && e in after && e.id == id && e.variant == variant && e.lastWorn > now - LAST_WORN_STEP
      && (forall x :: x in after && x.id != id ==> x in entries)
      && (forall x :: x in entries && x.favorite && x.id != id ==> x in after)
      && ((forall x :: x in entries ==> x.lastWorn <= now) ==>
            forall x :: x in after ==> x.lastWorn <= e.lastWorn)
    ensures
      var after := AfterRecord(entries, id, variant, source, now);
      Count(after) <= MAX_KEPT || after == entries
  {
    RecordedHere(entries, id, variant, source, now);
    RecordKeepsRest(entries, id, variant, source, now);
    RecordedDistinct(entries, id, variant, source, now);
    PruneCounts(Recorded(entries, id, variant, source, now).entries, id);
    if forall x :: x in entries ==> x.lastWorn <= now {
      forall x | x in AfterRecord(entries, id, variant, source, now)
        ensures x.lastWorn <= RecordedEntry(entries, id, variant, source, now).lastWorn
      {
        RecordedIsLast(entries, id, variant, source, now, x);
      }
    }
  }

  lemma RecordedOthers(entries: seq<Entry>, id: string, variant: Variant, source: Source, now: int)
    requires Distinct(entries)
    ensures forall x: Entry :: x.id != id ==>
      (x in entries <==> x in Recorded(entries, id, variant, source, now).entries)
  {
    var r := Recorded(entries, id, variant, source, now).entries;
    PositionNone(entries, id);
    forall x: Entry | x.id != id ensures x in entries <==> x in r {
      if x in entries {
        var i :| 0 <= i < |entries| && entries[i] == x;
        assert r[i] == x;
      }
      if x in r {
        var i :| 0 <= i < |r| && r[i] == x;
        assert i < |entries| && entries[i] == x;
      }
    }
  }

  lemma RecordedLast(entries: seq<Entry>, id: string, variant: Variant, source: Source, now: int, x: Entry)
    requires Distinct(entries) && x in Recorded(entries, id, variant, source, now).entries
    requires forall x :: x in entries ==> x.lastWorn <= now
    ensures x.lastWorn <= RecordedEntry(entries, id, variant, source, now).lastWorn
  {
    var r := Recorded(entries, id, variant, source, now).entries;
    LatestIs(entries);
    var i :| 0 <= i < |r| && r[i] == x;
    if i < |entries| { assert entries[i] in entries; }
    if Position(entries, id).Some? && WornLast(entries, id) {
      SameEntry(entries, entries[Latest(entries).value], entries[Position(entries, id).value]);
    }
  }

  // --- The list in the panel ---------------------------------------------------------------------

  function CompareShown(a: Entry, b: Entry): Order {
    Then(if a.favorite == b.favorite then Equal else if a.favorite then Less else Greater,
         Then(CompareInt(b.lastWorn, a.lastWorn), Then(CompareInt(b.firstSeen, a.firstSeen), CompareText(a.id, b.id))))
  }

  function ShownFirst(): (Entry, Entry) -> bool { (a, b) => CompareShown(a, b) != Greater }

  /** `sort_for_display`. */
  function Shown(entries: seq<Entry>): seq<Entry> { Sort(entries, ShownFirst()) }

  lemma ShownIsOrder()
    ensures Total(ShownFirst()) && Transitive(ShownFirst())
  {
    forall a, b ensures ShownFirst()(a, b) || ShownFirst()(b, a) { TextFlips(a.id, b.id); }
    forall a, b, c | ShownFirst()(a, b) && ShownFirst()(b, c) ensures ShownFirst()(a, c) {
      if CompareText(a.id, b.id) != Greater && CompareText(b.id, c.id) != Greater { TextTransitive(a.id, b.id, c.id); }
    }
  }

  /** No two entries of the panel are level. */
  lemma ShownTie(entries: seq<Entry>, x: Entry, y: Entry)
    requires Distinct(entries) && x in entries && y in entries && ShownFirst()(x, y) && ShownFirst()(y, x)
    ensures x == y
  {
    TextFlips(x.id, y.id);
    TextEqual(x.id, y.id);
    SameEntry(entries, x, y);
  }

  /** The panel shows the same for the same entries in any order. */
  lemma ShownOnce(a: seq<Entry>, b: seq<Entry>)
    requires Distinct(a) && multiset(a) == multiset(b)
    ensures Shown(a) == Shown(b)
  {
    ShownIsOrder();
    SortSorts(a, ShownFirst());
    SortSorts(b, ShownFirst());
    SortHolds(a, ShownFirst());
    SortHolds(b, ShownFirst());
    SameIds(a, Shown(a));
    var shown := Shown(a);
    forall i, j | 0 <= i < |shown| && 0 <= j < |shown| && ShownFirst()(shown[i], shown[j])
      && ShownFirst()(shown[j], shown[i])
      ensures shown[i] == shown[j]
    {
      ShownTie(shown, shown[i], shown[j]);
    }
    SortedOnce(Shown(a), Shown(b), ShownFirst());
  }

  /** Main theorem: the panel has every entry once, favourites before the others, and of these and of
      those the one worn last before the others. */
  lemma ShownOrder(entries: seq<Entry>, i: nat, j: nat)
    requires i < j < |Shown(entries)|
    ensures multiset(Shown(entries)) == multiset(entries)
    ensures Shown(entries)[j].favorite ==> Shown(entries)[i].favorite
    ensures Shown(entries)[i].favorite == Shown(entries)[j].favorite ==>
      Shown(entries)[i].lastWorn >= Shown(entries)[j].lastWorn
  {
    ShownIsOrder();
    SortSorts(entries, ShownFirst());
    SortHolds(entries, ShownFirst());
    assert ShownFirst()(Shown(entries)[i], Shown(entries)[j]);
  }

  /** Putting back a removed entry leaves the panel as it was. */
  lemma PutBackUndoes(entries: seq<Entry>, i: nat)
    requires Distinct(entries) && i < |entries|
    ensures multiset(PutBack(Without(entries, i), entries[i])) == multiset(entries)
    ensures Shown(PutBack(Without(entries, i), entries[i])) == Shown(entries)
  {
    WithoutDistinct(entries, i);
    assert entries == entries[..i] + [entries[i]] + entries[i + 1..];
    assert multiset(PutBack(Without(entries, i), entries[i])) == multiset(entries);
    ShownOnce(entries, PutBack(Without(entries, i), entries[i]));
  }

  // --- The store ---------------------------------------------------------------------------------

  /** How the file of a profile behaves: it reads and is written, or one of them fails. */
  datatype Io = Works | LoadFails | SaveFails

  type Files = map<string, seq<Entry>>

  type Removals = map<(string, string), (Entry, int)>

  datatype Store = Store(files: Files, removed: Removals)

  /** `load`: no more than so many entries of a file are read. */
  function Load(files: Files, profile: string): seq<Entry> {
    if profile in files then Take(files[profile], MAX_READ_ENTRIES) else []
  }

  /** `is_texture_id`. */
  predicate IsTextureId(id: string) {
    0 < |id| <= 128 && forall i :: 0 <= i < |id| ==> '0' <= id[i] <= '9' || 'a' <= id[i] <= 'f'
  }

  /** A call; `id` is missing for default skins and for textures elsewhere. */
  datatype Op =
    | Record(profile: string, skin: Option<string>, variant: Variant, source: Source, now: int)
    | SetFavorite(profile: string, id: string, favorite: bool)
    | Remove(profile: string, id: string, at: int)
    | Restore(profile: string, id: string, at: int)
    | Retarget(profile: string, from: string, to: string)

  /** What a call writes to the file, if it writes. */
  function Written(s: Store, op: Op): Option<seq<Entry>> {
    var entries := Load(s.files, op.profile);
    match op
    case Record(_, skin, variant, source, now) =>
      if skin.Some? && Recorded(entries, skin.value, variant, source, now).changed
      then Some(AfterRecord(entries, skin.value, variant, source, now)) else None
    case SetFavorite(_, id, favorite) =>
      (match Position(entries, id)
       case Some(i) => if entries[i].favorite != favorite then Some(Favored(entries, i, favorite)) else None
       case None => None)
    case Remove(_, id, _) =>
      (match Position(entries, id) case Some(i) => Some(Without(entries, i)) case None => None)
    case Restore(profile, id, at) =>
      if CanRestore(s.removed, profile, id, at) then Some(PutBack(entries, s.removed[(profile, id)].0)) else None
    case Retarget(_, from, to) =>
      if from == to || !IsTextureId(to) then None
      else match Position(entries, from) case Some(i) => Some(Retargeted(entries, i, to)) case None => None
  }

  predicate CanRestore(removed: Removals, profile: string, id: string, at: int) {
    (profile, id) in removed && at - removed[(profile, id)].1 < HISTORY_UNDO_WINDOW
  }

  /** The entries waiting for undo after a call. */
  function RemovedAfter(s: Store, op: Op, io: Io): Removals {
    match op
    case Remove(profile, id, at) =>
      var entries := Load(s.files, profile);
      if io == Works && Position(entries, id).Some? then
        Fresh(s.removed, at)[(profile, id) := (entries[Position(entries, id).value], at)]
      else s.removed
    case Restore(profile, id, at) =>
      if CanRestore(s.removed, profile, id, at) && io != Works then s.removed else s.removed - {(profile, id)}
    case _ => s.removed
  }

  function Fresh(removed: Removals, now: int): Removals {
    map key | key in removed && now - removed[key].1 < HISTORY_UNDO_WINDOW :: removed[key]
  }

  function Step(s: Store, op: Op, io: Io): Store {
    Store(if io == Works && Written(s, op).Some? then s.files[op.profile := Written(s, op).value] else s.files,
          RemovedAfter(s, op, io))
  }

  // --- What a call means to its caller -----------------------------------------------------------

  lemma StepValid(s: Store, op: Op, io: Io)
    ensures Valid(s) ==> Valid(Step(s, op, io))
  {
    if Valid(s) { StepKeepsValid(s, op, io); }
  }

  /** A recorded skin is in the file. */
  lemma RecordMade(s: Store, profile: string, skin: string, variant: Variant, source: Source, now: int)
    requires Valid(s)
    ensures InFile(Step(s, Record(profile, Some(skin), variant, source, now), Works).files, profile, skin)
  {
    var entries := Load(s.files, profile);
    LoadedDistinct(s, profile);
    RecordedHere(entries, skin, variant, source, now);
    var e := RecordedEntry(entries, skin, variant, source, now);
    InIds(AfterRecord(entries, skin, variant, source, now), e);
    if !Recorded(entries, skin, variant, source, now).changed { LoadedInFile(s.files, profile, e); }
  }

  ghost predicate InFile(files: Files, profile: string, id: string) { profile in files && id in Ids(files[profile]) }

  lemma LoadedInFile(files: Files, profile: string, e: Entry)
    requires e in Load(files, profile)
    ensures InFile(files, profile, e.id)
  {
    var i :| 0 <= i < |Load(files, profile)| && Load(files, profile)[i] == e;
    assert files[profile][i] == e;
  }

  /** A mark that was set or taken is what is read afterwards. */
  lemma FavoriteMade(s: Store, profile: string, id: string, favorite: bool)
    requires Valid(s) && Position(Load(s.files, profile), id).Some?
    ensures HasFavorite(Load(Step(s, SetFavorite(profile, id, favorite), Works).files, profile), id) <==> favorite
  {
    var entries := Load(s.files, profile);
    var i := Position(entries, id).value;
    LoadedDistinct(s, profile);
    if entries[i].favorite != favorite {
      LoadSaved(s.files, profile, Favored(entries, i, favorite));
      FavoriteAt(Favored(entries, i, favorite), i);
    } else {
      FavoriteAt(entries, i);
    }
  }

  lemma FavoriteAt(entries: seq<Entry>, i: nat)
    requires Distinct(entries) && i < |entries|
    ensures HasFavorite(entries, entries[i].id) <==> entries[i].favorite
  {
  }

  /** A removed entry is not read again. */
  lemma RemoveMade(s: Store, profile: string, id: string, at: int)
    requires Valid(s) && Position(Load(s.files, profile), id).Some?
    ensures Position(Load(Step(s, Remove(profile, id, at), Works).files, profile), id).None?
  {
    var entries := Load(s.files, profile);
    LoadedDistinct(s, profile);
    WithoutDistinct(entries, Position(entries, id).value);
    AfterRemove(s, profile, id, at, Position(entries, id).value);
  }

  /** A restored entry is in the file. */
  lemma RestoreMade(s: Store, profile: string, id: string, at: int)
    requires CanRestore(s.removed, profile, id, at) && s.removed[(profile, id)].0.id == id
    ensures InFile(Step(s, Restore(profile, id, at), Works).files, profile, id)
  {
    var entries, entry := Load(s.files, profile), s.removed[(profile, id)].0;
    var after := PutBack(entries, entry);
    assert after[match Position(entries, id) case Some(i) => i case None => |entries|].id == id;
  }

  lemma RetargetSaves(s: Store, profile: string, from: string, to: string, i: nat)
    requires from != to && IsTextureId(to) && Position(Load(s.files, profile), from) == Some(i)
    ensures Step(s, Retarget(profile, from, to), Works).files ==
            s.files[profile := Retargeted(Load(s.files, profile), i, to)]
  {
  }

  /** A mark changes nothing else. */
  lemma FavoredMeans(entries: seq<Entry>, i: nat, favorite: bool)
    requires Distinct(entries) && i < |entries|
    ensures SameApart(Favored(entries, i, favorite), entries, entries[i].id)
    ensures IsEntry(Favored(entries, i, favorite), entries[i].id, entries[i].(favorite := favorite))
  {
    var after := Favored(entries, i, favorite);
    assert after[i] in after;
    forall x: Entry | x.id != entries[i].id ensures x in after <==> x in entries {
      if x in entries {
        var k :| 0 <= k < |entries| && entries[k] == x;
        assert after[k] == x;
      }
      if x in after {
        var k :| 0 <= k < |after| && after[k] == x;
        assert entries[k] == x;
      }
    }
  }

  lemma WithoutRest(entries: seq<Entry>, i: nat)
    requires Distinct(entries) && i < |entries|
    ensures forall x: Entry :: x in Without(entries, i) <==> x in entries && x != entries[i]
  {
    var left := Without(entries, i);
    forall x: Entry ensures x in left <==> x in entries && x != entries[i] {
      if x in left {
        var k :| 0 <= k < |left| && left[k] == x;
        assert entries[if k < i then k else k + 1] == x;
      }
      if x in entries && x != entries[i] {
        var k :| 0 <= k < |entries| && entries[k] == x;
        assert left[if k < i then k else k - 1] == x;
      }
    }
  }

  /** Main theorem: an entry moved to another id keeps its mark, its first sighting and its source. If
      there is an entry of that id, that one takes them over and stays worn when and as it was. */
  lemma RetargetMeans(entries: seq<Entry>, i: nat, to: string)
    requires Distinct(entries) && i < |entries| && entries[i].id != to
    ensures var after, moved := Retargeted(entries, i, to), entries[i];
      && Position(after, moved.id).None?
      && (forall x: Entry :: x.id != to && x.id != moved.id ==> (x in after <==> x in entries))
      && match Position(entries, to)
         case Some(k) =>
           var e := entries[k];
           IsEntry(after, to,
                   Entry(to, e.variant, if e.firstSeen < moved.firstSeen then e.firstSeen else moved.firstSeen,
                         e.lastWorn, moved.source, e.favorite || moved.favorite))
         case None => IsEntry(after, to, moved.(id := to))
  {
    var left := Without(entries, i);
    RetargetLacks(entries, i, to);
    WithoutDistinct(entries, i);
    WithoutRest(entries, i);
    PutBackMeans(left, entries[i].(id := to));
    StillThere(entries, i, to);
  }

  lemma WithoutAt(entries: seq<Entry>, i: nat, k: nat)
    requires i < |entries| && k < |entries| && k != i
    ensures entries[k] in Without(entries, i)
  {
    assert Without(entries, i)[if k < i then k else k - 1] == entries[k];
  }

  lemma StillThere(entries: seq<Entry>, i: nat, id: string)
    requires Distinct(entries) && i < |entries| && entries[i].id != id
    ensures match Position(entries, id)
      case Some(k) => Position(Without(entries, i), id).Some?
        && Without(entries, i)[Position(Without(entries, i), id).value] == entries[k]
      case None => Position(Without(entries, i), id).None?
  {
    var left := Without(entries, i);
    WithoutRest(entries, i);
    match Position(entries, id) {
      case Some(k) =>
        WithoutAt(entries, i, k);
        InPosition(left, entries[k]);
        SameEntry(entries, left[Position(left, id).value], entries[k]);
      case None =>
        PositionNone(entries, id);
        if Position(left, id).Some? { InPosition(entries, left[Position(left, id).value]); }
    }
  }

  lemma InPosition(entries: seq<Entry>, e: Entry)
    requires e in entries
    ensures Position(entries, e.id).Some? && entries[Position(entries, e.id).value] in entries
  {
    PositionNone(entries, e.id);
    var k :| 0 <= k < |entries| && entries[k] == e;
  }

  lemma RetargetLacks(entries: seq<Entry>, i: nat, to: string)
    requires Distinct(entries) && i < |entries| && entries[i].id != to
    ensures |Retargeted(entries, i, to)| <= |entries| && Position(Retargeted(entries, i, to), entries[i].id).None?
  {
    WithoutDistinct(entries, i);
    PutBackLacks(Without(entries, i), entries[i].(id := to), entries[i].id);
  }

  /** The old id is not read again. */
  lemma RetargetMade(s: Store, profile: string, from: string, to: string)
    requires Valid(s) && from != to && IsTextureId(to)
    ensures Position(Load(Step(s, Retarget(profile, from, to), Works).files, profile), from).None?
  {
    var entries := Load(s.files, profile);
    if Position(entries, from).Some? {
      var i := Position(entries, from).value;
      LoadedDistinct(s, profile);
      RetargetLacks(entries, i, to);
      RetargetSaves(s, profile, from, to, i);
      LoadSaved(s.files, profile, Retargeted(entries, i, to));
    }
  }

  lemma PutBackLacks(entries: seq<Entry>, entry: Entry, id: string)
    requires Position(entries, id).None? && entry.id != id
    ensures Position(PutBack(entries, entry), id).None?
  {
    PositionNone(entries, id);
    PositionNone(PutBack(entries, entry), id);
  }

  class SkinHistory {
    var files: Files
    var removed: Removals

    function State(): Store
      reads this
    {
      Store(files, removed)
    }

    constructor ()
      ensures State() == Store(map[], map[])
    {
      files, removed := map[], map[];
    }

    /** `save`, when it works. */
    method Save(profile: string, entries: seq<Entry>)
      modifies this
      ensures files == old(files)[profile := entries] && removed == old(removed)
    {
      files := files[profile := entries];
    }

    /** `record`. */
    method DoRecord(profile: string, skin: Option<string>, variant: Variant, source: Source, now: int, io: Io)
      returns (recorded: Result<bool>)
      modifies this
      ensures State() == Step(old(State()), Record(profile, skin, variant, source, now), io)
      ensures recorded == if skin.None? then Success(false)
        else if io == LoadFails then Failure
        else if io == SaveFails && Written(old(State()), Record(profile, skin, variant, source, now)).Some? then Failure
        else Success(true)
      ensures Valid(old(State())) ==> Valid(State())
      ensures Valid(old(State())) && recorded == Success(true) ==> InFile(files, profile, skin.value)
    {
      StepValid(State(), Record(profile, skin, variant, source, now), io);
      if Valid(State()) && skin.Some? { RecordMade(State(), profile, skin.value, variant, source, now); }
      if skin.None? {
        return Success(false);
      }
      if io == LoadFails {
        return Failure;
      }
      var id := skin.value;
      var entries := Load(files, profile);
      var changed: bool;
      entries, changed := Note(entries, id, variant, source, now);
      if changed {
        entries := Prune(entries, id);
        if io == SaveFails {
          return Failure;
        }
        Save(profile, entries);
      }
      return Success(true);
    }

    /** `set_favorite`. */
    method DoSetFavorite(profile: string, id: string, favorite: bool, io: Io) returns (found: Result<bool>)
      modifies this
      ensures State() == Step(old(State()), SetFavorite(profile, id, favorite), io)
      ensures found.Success? ==> (found.value <==> Position(Load(old(files), profile), id).Some?)
      ensures Valid(old(State())) ==> Valid(State())
      ensures Valid(old(State())) && found == Success(true) ==> (HasFavorite(Load(files, profile), id) <==> favorite)
    {
      StepValid(State(), SetFavorite(profile, id, favorite), io);
      if Valid(State()) && Position(Load(files, profile), id).Some? { FavoriteMade(State(), profile, id, favorite); }
      if io == LoadFails {
        return Failure;
      }
      var entries := Load(files, profile);
      var at := FindPosition(entries, id);
      if at.None? {
        return Success(false);
      }
      if entries[at.value].favorite != favorite {
        entries := entries[at.value := entries[at.value].(favorite := favorite)];
        if io == SaveFails {
          return Failure;
        }
        Save(profile, entries);
      }
      return Success(true);
    }

    /** `remove`. */
    method DoRemove(profile: string, id: string, at: int, io: Io) returns (found: Result<bool>)
      modifies this
      ensures State() == Step(old(State()), Remove(profile, id, at), io)
      ensures found.Success? ==> (found.value <==> Position(Load(old(files), profile), id).Some?)
      ensures found == Success(true) ==> (profile, id) in removed
      ensures Valid(old(State())) ==> Valid(State())
      ensures Valid(old(State())) && found == Success(true) ==> Position(Load(files, profile), id).None?
    {
      StepValid(State(), Remove(profile, id, at), io);
      if Valid(State()) && Position(Load(files, profile), id).Some? { RemoveMade(State(), profile, id, at); }
      if io == LoadFails {
        return Failure;
      }
      var entries := Load(files, profile);
      var i := FindPosition(entries, id);
      if i.None? {
        return Success(false);
      }
      var entry := entries[i.value];
      entries := entries[..i.value] + entries[i.value + 1..];
      if io == SaveFails {
        return Failure;
      }
      Save(profile, entries);
      removed := map key | key in removed && at - removed[key].1 < HISTORY_UNDO_WINDOW :: removed[key];
      removed := removed[(profile, entry.id) := (entry, at)];
      return Success(true);
    }

    /** `restore`: an entry that could not be put back stays for another try. */
    method DoRestore(profile: string, id: string, at: int, io: Io) returns (back: Result<bool>)
      requires (profile, id) in removed ==> removed[(profile, id)].0.id == id
      modifies this
      ensures State() == Step(old(State()), Restore(profile, id, at), io)
      ensures back == if !CanRestore(old(removed), profile, id, at) then Success(false)
        else if io == Works then Success(true) else Failure
      ensures Valid(old(State())) ==> Valid(State())
      ensures back == Success(true) ==> InFile(files, profile, id)
    {
      StepValid(State(), Restore(profile, id, at), io);
      if CanRestore(removed, profile, id, at) { RestoreMade(State(), profile, id, at); }
      var key := (profile, id);
      if key !in removed {
        return Success(false);
      }
      var (entry, when) := removed[key];
      ghost var was := removed;
      removed := removed - {key};
      if at - when >= HISTORY_UNDO_WINDOW {
        return Success(false);
      }
      if io != Works {
        removed := removed[key := (entry, when)];
        assert removed == was;
        return Failure;
      }
      var entries := Load(files, profile);
      var i := FindPosition(entries, entry.id);
      if i.Some? {
        var existing := entries[i.value];
        existing := existing.(favorite := existing.favorite || entry.favorite);
        existing := existing.(firstSeen := Min(existing.firstSeen, entry.firstSeen));
        existing := existing.(source := entry.source);
        entries := entries[i.value := existing];
      } else {
        entries := entries + [entry];
      }
      Save(profile, entries);
      return Success(true);
    }

    /** `retarget`. */
    method DoRetarget(profile: string, from: string, to: string, io: Io) returns (done: Result<bool>)
      modifies this
      ensures State() == Step(old(State()), Retarget(profile, from, to), io)
      ensures Valid(old(State())) ==> Valid(State())
      ensures Valid(old(State())) && done == Success(true) && from != to && IsTextureId(to) ==>
        Position(Load(files, profile), from).None?
    {
      StepValid(State(), Retarget(profile, from, to), io);
      if Valid(State()) && from != to && IsTextureId(to) { RetargetMade(State(), profile, from, to); }
      if from == to || !IsTextureId(to) {
        return Success(true);
      }
      if io == LoadFails {
        return Failure;
      }
      var entries := Load(files, profile);
      var at := FindPosition(entries, from);
      if at.None? {
        return Success(true);
      }
      var moved := entries[at.value];
      entries := entries[..at.value] + entries[at.value + 1..];
      var i := FindPosition(entries, to);
      if i.Some? {
        entries := entries[i.value := Merged(entries[i.value], moved)];
      } else {
        entries := entries + [moved.(id := to)];
      }
      if io == SaveFails {
        return Failure;
      }
      Save(profile, entries);
      return Success(true);
    }

    /** `entries`: what the panel shows. */
    method Entries(profile: string, io: Io) returns (shown: seq<Entry>)
      ensures shown == if io == LoadFails then [] else Shown(Load(files, profile))
    {
      return if io == LoadFails then [] else Sort(Load(files, profile), ShownFirst());
    }
  }

  // --- Runs --------------------------------------------------------------------------------------

  /** Every history has distinct ids and at most one entry more than is read; what waits for undo
      is filed under its own id. */
  ghost predicate Valid(s: Store) {
    && (forall p :: p in s.files ==> Distinct(s.files[p]) && |s.files[p]| <= MAX_READ_ENTRIES + 1)
    && (forall key :: key in s.removed ==> s.removed[key].0.id == key.1)
  }

  lemma LoadedDistinct(s: Store, profile: string)
    requires Valid(s)
    ensures Distinct(Load(s.files, profile)) && |Load(s.files, profile)| <= MAX_READ_ENTRIES
  {
  }

  lemma {:induction false} FilterShorter(entries: seq<Entry>, p: Entry -> bool)
    ensures |Filter(entries, p)| <= |entries|
  {
    if entries != [] { FilterShorter(entries[1..], p); }
  }

  lemma WrittenOk(s: Store, op: Op)
    requires Valid(s) && Written(s, op).Some?
    ensures Distinct(Written(s, op).value) && |Written(s, op).value| <= |Load(s.files, op.profile)| + 1
  {
    var entries := Load(s.files, op.profile);
    LoadedDistinct(s, op.profile);
    match op {
      case Record(_, skin, variant, source, now) =>
        var r := Recorded(entries, skin.value, variant, source, now).entries;
        RecordedDistinct(entries, skin.value, variant, source, now);
        if Count(r) > MAX_KEPT { FilterShorter(r, NotOf(Gone(r, skin.value))); }
      case SetFavorite(_, id, favorite) =>
        var i := Position(entries, id).value;
        ChangedDistinct(entries, i, entries[i].(favorite := favorite));
      case Remove(_, id, _) =>
        WithoutDistinct(entries, Position(entries, id).value);
      case Restore(profile, id, at) =>
        PutBackDistinct(entries, s.removed[(profile, id)].0);
      case Retarget(_, from, to) =>
        var i := Position(entries, from).value;
        WithoutDistinct(entries, i);
        PutBackDistinct(Without(entries, i), entries[i].(id := to));
    }
  }

  lemma StepKeepsValid(s: Store, op: Op, io: Io)
    requires Valid(s)
    ensures Valid(Step(s, op, io))
  {
    if Written(s, op).Some? {
      WrittenOk(s, op);
      LoadedDistinct(s, op.profile);
    }
  }

  datatype Call = Call(op: Op, io: Io)

  function Run(s: Store, calls: seq<Call>): Store {
    if calls == [] then s
    else Step(Run(s, calls[..|calls| - 1]), calls[|calls| - 1].op, calls[|calls| - 1].io)
  }

  /** Main theorem: whatever is called and whatever fails, every history's ids stay distinct. */
  lemma {:induction false} RunKeepsValid(s: Store, calls: seq<Call>)
    requires Valid(s)
    ensures Valid(Run(s, calls))
    decreases |calls|
  {
    if calls != [] {
      RunKeepsValid(s, calls[..|calls| - 1]);
      StepKeepsValid(Run(s, calls[..|calls| - 1]), calls[|calls| - 1].op, calls[|calls| - 1].io);
    }
  }

  /** What may end or renew the waiting of a removed entry: a call about it, or a removal after its
      time. */
  predicate Waits(op: Op, profile: string, id: string, since: int) {
    match op
    case Remove(p, which, at) => (p != profile || which != id) && at - since < HISTORY_UNDO_WINDOW
    case Restore(p, which, _) => p != profile || which != id
    case _ => true
  }

  /** Main theorem: a removed entry waits for its undo over every run of other calls within its time,
      whatever they do and whatever fails. */
  lemma {:induction false} RemovalWaits(s: Store, calls: seq<Call>, profile: string, id: string, entry: Entry,
      since: int)
    requires (profile, id) in s.removed && s.removed[(profile, id)] == (entry, since)
    requires forall k :: 0 <= k < |calls| ==> Waits(calls[k].op, profile, id, since)
    ensures var r := Run(s, calls);
      (profile, id) in r.removed && r.removed[(profile, id)] == (entry, since)
    decreases |calls|
  {
    if calls != [] {
      var before, last := calls[..|calls| - 1], calls[|calls| - 1];
      forall k | 0 <= k < |before| ensures Waits(before[k].op, profile, id, since) { assert before[k] == calls[k]; }
      RemovalWaits(s, before, profile, id, entry, since);
      StepWaits(Run(s, before), last.op, last.io, profile, id, entry, since);
    }
  }

  lemma StepWaits(s: Store, op: Op, io: Io, profile: string, id: string, entry: Entry, since: int)
    requires (profile, id) in s.removed && s.removed[(profile, id)] == (entry, since) && Waits(op, profile, id, since)
    ensures var r := Step(s, op, io);
      (profile, id) in r.removed && r.removed[(profile, id)] == (entry, since)
  {
  }

  /** After its time an undo changes no file. */
  lemma TooLate(s: Store, profile: string, id: string, at: int, io: Io)
    requires (profile, id) in s.removed && at - s.removed[(profile, id)].1 >= HISTORY_UNDO_WINDOW
    ensures var r := Step(s, Restore(profile, id, at), io);
      r.files == s.files && (profile, id) !in r.removed
  {
  }

  lemma AfterRemove(s: Store, profile: string, id: string, at: int, i: nat)
    requires Valid(s) && Position(Load(s.files, profile), id) == Some(i)
    ensures var entries, r := Load(s.files, profile), Step(s, Remove(profile, id, at), Works);
      && r.files == s.files[profile := Without(entries, i)] && Load(r.files, profile) == Without(entries, i)
      && (profile, id) in r.removed && r.removed[(profile, id)] == (entries[i], at)
  {
    LoadedDistinct(s, profile);
  }

  lemma AfterRestore(s: Store, profile: string, id: string, at: int)
    requires CanRestore(s.removed, profile, id, at) && |Load(s.files, profile)| < MAX_READ_ENTRIES
    ensures var after := PutBack(Load(s.files, profile), s.removed[(profile, id)].0);
      var r := Step(s, Restore(profile, id, at), Works);
      && r.files == s.files[profile := after] && Load(r.files, profile) == after && (profile, id) !in r.removed
  {
  }

  /** Main theorem: an entry removed and restored in time leaves the panel as it was. */
  lemma RestoreUndoesRemove(s: Store, profile: string, id: string, at: int, later: int)
    requires Valid(s) && Position(Load(s.files, profile), id).Some?
    requires later < at + HISTORY_UNDO_WINDOW
    ensures var s' := Step(Step(s, Remove(profile, id, at), Works), Restore(profile, id, later), Works);
      && Shown(Load(s'.files, profile)) == Shown(Load(s.files, profile))
      && multiset(Load(s'.files, profile)) == multiset(Load(s.files, profile))
      && (forall p :: p != profile && p in s.files ==> p in s'.files && s'.files[p] == s.files[p])
      && (profile, id) !in s'.removed
  {
    var entries := Load(s.files, profile);
    var i := Position(entries, id).value;
    LoadedDistinct(s, profile);
    AfterRemove(s, profile, id, at, i);
    AfterRestore(Step(s, Remove(profile, id, at), Works), profile, id, later);
    PutBackUndoes(entries, i);
  }

  ghost predicate HasFavorite(entries: seq<Entry>, id: string) {
    exists i :: 0 <= i < |entries| && entries[i].id == id && entries[i].favorite
  }

  /** The calls that may take an entry or its mark away. */
  predicate Touches(op: Op, profile: string, id: string) {
    op.profile == profile &&
    match op
    case Remove(_, gone, _) => gone == id
    case SetFavorite(_, which, favorite) => which == id && !favorite
    case Retarget(_, from, _) => from == id
    case _ => false
  }

  /** The calls that may bring an entry of that id. */
  predicate Brings(op: Op, id: string) {
    match op
    case Record(_, skin, _, _, _) => skin == Some(id)
    case Restore(_, which, _) => which == id
    case Retarget(_, _, to) => to == id
    case _ => false
  }

  lemma PutBackFavorite(entries: seq<Entry>, entry: Entry, id: string)
    requires HasFavorite(entries, id)
    ensures HasFavorite(PutBack(entries, entry), id)
  {
    var i :| 0 <= i < |entries| && entries[i].id == id && entries[i].favorite;
    assert PutBack(entries, entry)[i].id == id && PutBack(entries, entry)[i].favorite;
  }

  lemma WithoutFavorite(entries: seq<Entry>, k: nat, id: string)
    requires HasFavorite(entries, id) && k < |entries| && entries[k].id != id
    ensures HasFavorite(Without(entries, k), id)
  {
    var i :| 0 <= i < |entries| && entries[i].id == id && entries[i].favorite;
    var j := if i < k then i else i - 1;
    assert Without(entries, k)[j] == entries[i];
  }

  lemma FavoriteIn(entries: seq<Entry>, e: Entry)
    requires e in entries && e.favorite
    ensures HasFavorite(entries, e.id)
  {
    var i :| 0 <= i < |entries| && entries[i] == e;
  }

  lemma FavoriteRecorded(entries: seq<Entry>, skin: string, variant: Variant, source: Source, now: int, i: nat)
      returns (e: Entry)
    requires i < |entries| && entries[i].favorite
    ensures e in Recorded(entries, skin, variant, source, now).entries && e.id == entries[i].id && e.favorite
  {
    e := Recorded(entries, skin, variant, source, now).entries[i];
  }

  lemma RecordFavorite(entries: seq<Entry>, skin: string, variant: Variant, source: Source, now: int, id: string)
    requires Distinct(entries) && HasFavorite(entries, id)
    ensures HasFavorite(AfterRecord(entries, skin, variant, source, now), id)
  {
    var i :| 0 <= i < |entries| && entries[i].id == id && entries[i].favorite;
    var r := Recorded(entries, skin, variant, source, now);
    if r.changed {
      var e := FavoriteRecorded(entries, skin, variant, source, now, i);
      RecordedDistinct(entries, skin, variant, source, now);
      PruneKeeps(r.entries, skin);
      FavoriteIn(Pruned(r.entries, skin), e);
    }
  }

  /** What a call writes still has the favourite it read. */
  lemma WrittenFavorite(s: Store, op: Op, id: string)
    requires Valid(s) && Written(s, op).Some? && !Touches(op, op.profile, id)
    requires HasFavorite(Load(s.files, op.profile), id)
    ensures HasFavorite(Written(s, op).value, id)
  {
    var entries := Load(s.files, op.profile);
    LoadedDistinct(s, op.profile);
    match op {
      case Record(_, skin, variant, source, now) =>
        RecordFavorite(entries, skin.value, variant, source, now, id);
      case SetFavorite(_, which, favorite) =>
        var k := Position(entries, which).value;
        var i :| 0 <= i < |entries| && entries[i].id == id && entries[i].favorite;
        assert Favored(entries, k, favorite)[i].id == id && Favored(entries, k, favorite)[i].favorite;
      case Remove(_, which, _) =>
        WithoutFavorite(entries, Position(entries, which).value, id);
      case Restore(profile, which, at) =>
        PutBackFavorite(entries, s.removed[(profile, which)].0, id);
      case Retarget(_, from, to) =>
        var k := Position(entries, from).value;
        WithoutFavorite(entries, k, id);
        PutBackFavorite(Without(entries, k), entries[k].(id := to), id);
    }
  }

  /** What a call writes has only ids it read or brings. */
  lemma WrittenIds(s: Store, op: Op, e: Entry)
    requires Valid(s) && Written(s, op).Some? && e in Written(s, op).value
    ensures e.id in Ids(Load(s.files, op.profile)) || Brings(op, e.id)
  {
    var entries, w := Load(s.files, op.profile), Written(s, op).value;
    LoadedDistinct(s, op.profile);
    match op {
      case Record(_, skin, variant, source, now) =>
        var r := Recorded(entries, skin.value, variant, source, now).entries;
        RecordedDistinct(entries, skin.value, variant, source, now);
        PruneKeeps(r, skin.value);
        RecordedOthers(entries, skin.value, variant, source, now);
        assert e in r;
        if e.id != skin.value { InIds(entries, e); }
      case SetFavorite(_, which, favorite) =>
        var j :| 0 <= j < |w| && w[j] == e;
        assert entries[j].id == e.id;
      case Remove(_, which, _) =>
        WithoutIn(entries, Position(entries, which).value, e);
      case Restore(profile, which, at) =>
        PutBackIn(entries, s.removed[(profile, which)].0, e);
      case Retarget(_, from, to) =>
        var k := Position(entries, from).value;
        PutBackIn(Without(entries, k), entries[k].(id := to), e);
        if e.id != to {
          var j :| 0 <= j < |Without(entries, k)| && Without(entries, k)[j].id == e.id;
          WithoutIn(entries, k, Without(entries, k)[j]);
        }
    }
  }

  lemma InIds(entries: seq<Entry>, e: Entry)
    requires e in entries
    ensures e.id in Ids(entries)
  {
    var i :| 0 <= i < |entries| && entries[i] == e;
  }

  lemma WithoutIn(entries: seq<Entry>, k: nat, e: Entry)
    requires k < |entries| && e in Without(entries, k)
    ensures e.id in Ids(entries)
  {
    var j :| 0 <= j < |Without(entries, k)| && Without(entries, k)[j] == e;
    assert entries[if j < k then j else j + 1] == e;
  }

  lemma PutBackIn(entries: seq<Entry>, entry: Entry, e: Entry)
    requires e in PutBack(entries, entry)
    ensures e.id in Ids(entries) || e.id == entry.id
  {
    var j :| 0 <= j < |PutBack(entries, entry)| && PutBack(entries, entry)[j] == e;
    if j < |entries| { assert entries[j].id == e.id; }
  }

  /** A call that writes, and neither takes nor brings a favourite, keeps it exactly if it is among
      the entries that are read. */
  lemma FavoriteStaysIff(s: Store, op: Op, i: nat)
    requires Valid(s) && op.profile in s.files && i < |s.files[op.profile]| && s.files[op.profile][i].favorite
    requires Written(s, op).Some? && !Touches(op, op.profile, s.files[op.profile][i].id)
    requires !Brings(op, s.files[op.profile][i].id)
    ensures HasFavorite(Written(s, op).value, s.files[op.profile][i].id) <==> i < MAX_READ_ENTRIES
  {
    var entries, id := Load(s.files, op.profile), s.files[op.profile][i].id;
    if i < MAX_READ_ENTRIES {
      assert entries[i] == s.files[op.profile][i];
      WrittenFavorite(s, op, id);
    } else {
      assert id !in Ids(entries);
      forall j | 0 <= j < |Written(s, op).value| ensures Written(s, op).value[j].id != id {
        WrittenIds(s, op, Written(s, op).value[j]);
      }
    }
  }

  /** Main theorem: over any run that does not take it away, a favourite stays, while no history
      outgrows what is read of it. */
  lemma {:induction false} FavoriteStays(s: Store, calls: seq<Call>, profile: string, id: string)
    requires Valid(s) && profile in s.files && HasFavorite(s.files[profile], id)
    requires forall k :: 0 <= k < |calls| ==> !Touches(calls[k].op, profile, id)
    requires forall k :: 0 <= k < |calls| ==> Fits(Run(s, calls[..k]), profile)
    ensures profile in Run(s, calls).files && HasFavorite(Run(s, calls).files[profile], id)
    decreases |calls|
  {
    if calls != [] {
      var before, last := calls[..|calls| - 1], calls[|calls| - 1];
      forall k | 0 <= k < |before| ensures Fits(Run(s, before[..k]), profile) && !Touches(before[k].op, profile, id) {
        assert before[..k] == calls[..k] && before[k] == calls[k];
      }
      FavoriteStays(s, before, profile, id);
      RunKeepsValid(s, before);
      var at := Run(s, before);
      assert Fits(at, profile) && !Touches(last.op, profile, id);
      assert Load(at.files, profile) == at.files[profile];
      if last.op.profile == profile && Written(at, last.op).Some? { WrittenFavorite(at, last.op, id); }
    }
  }

  predicate Fits(s: Store, profile: string) { profile in s.files ==> |s.files[profile]| <= MAX_READ_ENTRIES }

  // --- A history that outgrows what is read of it ------------------------------------------------

  lemma RunNext(s: Store, calls: seq<Call>, next: Call)
    ensures Run(s, calls + [next]) == Step(Run(s, calls), next.op, next.io)
  {
    assert (calls + [next])[..|calls|] == calls;
  }

  /** The marked entry of the skin recorded as number `k`. */
  function MarkedSkin(k: nat): Entry { Entry(Decimal(k), Classic, k, k, Launcher, true) }

  function MarkedSkins(n: nat): (entries: seq<Entry>)
    ensures |entries| == n && forall k :: 0 <= k < n ==> entries[k] == MarkedSkin(k)
  {
    if n == 0 then [] else MarkedSkins(n - 1) + [MarkedSkin(n - 1)]
  }

  lemma MarkedSkinsLack(n: nat, k: nat)
    requires n <= k
    ensures Position(MarkedSkins(n), Decimal(k)).None?
  {
    PositionNone(MarkedSkins(n), Decimal(k));
    forall i | 0 <= i < n ensures MarkedSkins(n)[i].id != Decimal(k) {
      if Decimal(i) == Decimal(k) { DecimalInjective(i, k); }
    }
  }

  lemma {:induction false} AllMarked(entries: seq<Entry>)
    requires forall i :: 0 <= i < |entries| ==> entries[i].favorite
    ensures Count(entries) == 0
  {
    if entries != [] { AllMarked(entries[1..]); }
  }

  /** A skin recorded beside marked ones only is put at the end. */
  lemma RecordBesideMarked(entries: seq<Entry>, id: string, variant: Variant, source: Source, now: int)
    requires Position(entries, id).None? && forall i :: 0 <= i < |entries| ==> entries[i].favorite
    ensures Recorded(entries, id, variant, source, now).changed
    ensures AfterRecord(entries, id, variant, source, now) == entries + [Entry(id, variant, now, now, source, false)]
  {
    AllMarked(entries);
    FilterJoin(entries, [Entry(id, variant, now, now, source, false)], Other());
  }

  lemma {:induction false} PositionJoin(a: seq<Entry>, b: seq<Entry>, id: string)
    requires Position(a, id).None?
    ensures Position(a + b, id) == match Position(b, id) case Some(i) => Some(|a| + i) case None => None
  {
    if a == [] {
      assert a + b == b;
    } else {
      PositionJoin(a[1..], b, id);
      assert (a + b)[1..] == a[1..] + b && (a + b)[0] == a[0];
    }
  }

  function RecordCall(profile: string, k: nat): Call {
    Call(Record(profile, Some(Decimal(k)), Classic, Launcher, k), Works)
  }

  function MarkCall(profile: string, k: nat): Call { Call(SetFavorite(profile, Decimal(k), true), Works) }

  /** So many skins, each recorded and then marked. */
  function MarkingCalls(profile: string, n: nat): seq<Call> {
    if n == 0 then [] else MarkingCalls(profile, n - 1) + [RecordCall(profile, n - 1)] + [MarkCall(profile, n - 1)]
  }

  lemma LoadSaved(files: Files, profile: string, entries: seq<Entry>)
    requires |entries| <= MAX_READ_ENTRIES
    ensures Load(files[profile := entries], profile) == entries
  {
  }

  lemma StepRecord(s: Store, profile: string, k: nat, entries: seq<Entry>)
    requires Load(s.files, profile) == entries && Position(entries, Decimal(k)).None?
    requires forall i :: 0 <= i < |entries| ==> entries[i].favorite
    ensures Step(s, RecordCall(profile, k).op, Works) ==
            Store(s.files[profile := entries + [MarkedSkin(k).(favorite := false)]], s.removed)
  {
    RecordBesideMarked(entries, Decimal(k), Classic, Launcher, k);
  }

  lemma StepMark(s: Store, profile: string, entries: seq<Entry>, e: Entry)
    requires Load(s.files, profile) == entries + [e] && Position(entries, e.id).None? && !e.favorite
    ensures Step(s, SetFavorite(profile, e.id, true), Works) ==
            Store(s.files[profile := entries + [e.(favorite := true)]], s.removed)
  {
    PositionJoin(entries, [e], e.id);
    assert Favored(entries + [e], |entries|, true) == entries + [e.(favorite := true)];
  }

  lemma StepBoth(s: Store, profile: string, k: nat, entries: seq<Entry>)
    requires Load(s.files, profile) == entries && Position(entries, Decimal(k)).None? && |entries| < MAX_READ_ENTRIES
    requires forall i :: 0 <= i < |entries| ==> entries[i].favorite
    ensures Step(Step(s, RecordCall(profile, k).op, Works), MarkCall(profile, k).op, Works) ==
            Store(s.files[profile := entries + [MarkedSkin(k)]], s.removed)
  {
    var e := MarkedSkin(k).(favorite := false);
    StepRecord(s, profile, k, entries);
    LoadSaved(s.files, profile, entries + [e]);
    StepMark(Store(s.files[profile := entries + [e]], s.removed), profile, entries, e);
  }

  lemma {:induction false} MarkingRun(profile: string, n: nat)
    requires n <= MAX_READ_ENTRIES
    ensures Load(Run(Store(map[], map[]), MarkingCalls(profile, n)).files, profile) == MarkedSkins(n)
    ensures Run(Store(map[], map[]), MarkingCalls(profile, n)).removed == map[]
  {
    if n > 0 {
      MarkingRun(profile, n - 1);
      MarkingNext(Store(map[], map[]), profile, n - 1, MarkingCalls(profile, n - 1));
    }
  }

  lemma MarkingNext(empty: Store, profile: string, n: nat, before: seq<Call>)
    requires n < MAX_READ_ENTRIES && Load(Run(empty, before).files, profile) == MarkedSkins(n)
    ensures var s := Run(empty, before + [RecordCall(profile, n)] + [MarkCall(profile, n)]);
      Load(s.files, profile) == MarkedSkins(n) + [MarkedSkin(n)] && s.removed == Run(empty, before).removed
  {
    MarkedSkinsLack(n, n);
    RunNext(empty, before, RecordCall(profile, n));
    RunNext(empty, before + [RecordCall(profile, n)], MarkCall(profile, n));
    StepBoth(Run(empty, before), profile, n, MarkedSkins(n));
    LoadSaved(Run(empty, before).files, profile, MarkedSkins(n) + [MarkedSkin(n)]);
  }

  lemma StepRemoveFirst(s: Store, profile: string, entries: seq<Entry>, at: int)
    requires Load(s.files, profile) == entries && entries != [] && s.removed == map[]
    ensures Step(s, Remove(profile, entries[0].id, at), Works) ==
            Store(s.files[profile := entries[1..]], map[(profile, entries[0].id) := (entries[0], at)])
  {
    assert Without(entries, 0) == entries[1..];
  }

  lemma StepPutLast(s: Store, profile: string, entries: seq<Entry>, e: Entry, at: int)
    requires Load(s.files, profile) == entries && Position(entries, e.id).None?
    requires s.removed == map[(profile, e.id) := (e, at)]
    ensures Step(s, Restore(profile, e.id, at), Works).files == s.files[profile := entries + [e]]
  {
  }

  /** The marked skins but the first, another one, and the first again. */
  function Overfull(n: nat): seq<Entry>
    requires n > 0
  {
    MarkedSkins(n)[1..] + [MarkedSkin(n).(favorite := false)] + [MarkedSkin(0)]
  }

  /** Skins numbered from one on lack every other number. */
  lemma NumberedLack(entries: seq<Entry>, k: nat)
    requires forall i :: 0 <= i < |entries| ==> entries[i].id == Decimal(i + 1)
    requires k == 0 || k > |entries|
    ensures Position(entries, Decimal(k)).None?
  {
    forall i | 0 <= i < |entries| ensures entries[i].id != Decimal(k) { DecimalsDiffer(i + 1, k); }
    PositionNone(entries, Decimal(k));
  }

  lemma DecimalsDiffer(m: nat, n: nat)
    requires m != n
    ensures Decimal(m) != Decimal(n)
  {
    DecimalValue(m);
    DecimalValue(n);
  }

  lemma SavedTwice(files: Files, profile: string, a: seq<Entry>, b: seq<Entry>)
    ensures files[profile := a][profile := b] == files[profile := b]
  {
  }

  lemma StepsRemoveRecord(s: Store, profile: string, n: nat, first: Entry, rest: seq<Entry>)
    requires Load(s.files, profile) == [first] + rest && s.removed == map[] && |rest| <= MAX_READ_ENTRIES
    requires Position(rest, Decimal(n)).None? && forall i :: 0 <= i < |rest| ==> rest[i].favorite
    ensures Step(Step(s, Remove(profile, first.id, n), Works), RecordCall(profile, n).op, Works) ==
            Store(s.files[profile := rest + [MarkedSkin(n).(favorite := false)]],
                  map[(profile, first.id) := (first, n as int)])
  {
    assert ([first] + rest)[1..] == rest && ([first] + rest)[0] == first;
    StepRemoveFirst(s, profile, [first] + rest, n);
    var removed := Step(s, Remove(profile, first.id, n), Works);
    LoadSaved(s.files, profile, rest);
    StepRecord(removed, profile, n, rest);
    SavedTwice(s.files, profile, rest, rest + [MarkedSkin(n).(favorite := false)]);
  }

  /** A marked skin removed, another recorded, and the removed one put back: it comes to stand behind
      all the others. */
  lemma StepsPast(s: Store, profile: string, n: nat, first: Entry, rest: seq<Entry>)
    requires Load(s.files, profile) == [first] + rest && s.removed == map[] && |rest| < MAX_READ_ENTRIES
    requires Position(rest, Decimal(n)).None? && forall i :: 0 <= i < |rest| ==> rest[i].favorite
    requires Position(rest + [MarkedSkin(n).(favorite := false)], first.id).None?
    ensures Step(Step(Step(s, Remove(profile, first.id, n), Works), RecordCall(profile, n).op, Works),
                 Restore(profile, first.id, n), Works).files ==
            s.files[profile := rest + [MarkedSkin(n).(favorite := false)] + [first]]
  {
    var more := rest + [MarkedSkin(n).(favorite := false)];
    StepsRemoveRecord(s, profile, n, first, rest);
    var recorded := Store(s.files[profile := more], map[(profile, first.id) := (first, n as int)]);
    LoadSaved(s.files, profile, more);
    StepPutLast(recorded, profile, more, first, n);
    SavedTwice(s.files, profile, more, more + [first]);
  }

  lemma MarkedHead(n: nat)
    requires n > 0
    ensures MarkedSkins(n) == [MarkedSkin(0)] + MarkedSkins(n)[1..]
    ensures forall i :: 0 <= i < n - 1 ==> MarkedSkins(n)[1..][i].favorite
    ensures forall i :: 0 <= i < n - 1 ==> MarkedSkins(n)[1..][i].id == Decimal(i + 1)
  {
    assert MarkedSkins(n)[0] == MarkedSkin(0);
  }

  lemma OverfullSteps(s: Store, profile: string, n: nat, id: string)
    requires 0 < n <= MAX_READ_ENTRIES && id == MarkedSkin(0).id
    requires Load(s.files, profile) == MarkedSkins(n) && s.removed == map[]
    ensures Step(Step(Step(s, Remove(profile, id, n), Works), RecordCall(profile, n).op, Works),
                 Restore(profile, id, n), Works).files == s.files[profile := Overfull(n)]
  {
    var rest := MarkedSkins(n)[1..];
    MarkedHead(n);
    NumberedLack(rest, n);
    NumberedLack(rest + [MarkedSkin(n).(favorite := false)], 0);
    StepsPast(s, profile, n, MarkedSkin(0), rest);
  }

  function OverfullCalls(profile: string, n: nat): seq<Call> {
    MarkingCalls(profile, n) + [Call(Remove(profile, MarkedSkin(0).id, n), Works)] + [RecordCall(profile, n)]
    + [Call(Restore(profile, MarkedSkin(0).id, n), Works)]
  }

  lemma OverfullRun(profile: string, n: nat)
    requires 0 < n <= MAX_READ_ENTRIES
    ensures var s := Run(Store(map[], map[]), OverfullCalls(profile, n));
      Valid(s) && profile in s.files && s.files[profile] == Overfull(n)
  {
    var empty, calls, id := Store(map[], map[]), MarkingCalls(profile, n), MarkedSkin(0).id;
    var remove, restore := Call(Remove(profile, id, n), Works), Call(Restore(profile, id, n), Works);
    MarkingRun(profile, n);
    RunNext(empty, calls, remove);
    RunNext(empty, calls + [remove], RecordCall(profile, n));
    RunNext(empty, calls + [remove] + [RecordCall(profile, n)], restore);
    OverfullSteps(Run(empty, calls), profile, n, id);
    RunKeepsValid(empty, OverfullCalls(profile, n));
  }

  lemma OverfullLoses(profile: string, n: nat, s: Store)
    requires n == MAX_READ_ENTRIES && Valid(s) && profile in s.files && s.files[profile] == Overfull(n)
    ensures HasFavorite(s.files[profile], MarkedSkin(0).id)
    ensures Written(s, RecordCall(profile, n + 1).op).Some?
    ensures !HasFavorite(Written(s, RecordCall(profile, n + 1).op).value, MarkedSkin(0).id)
  {
    assert s.files[profile][n] == MarkedSkin(0);
    NumberedLack(Overfull(n)[..n], n + 1);
    DecimalsDiffer(n + 1, 0);
    FavoriteStaysIff(s, RecordCall(profile, n + 1).op, n);
  }

  /** The promise that marked skins stay is not kept for every run: 500 skins recorded and marked,
      one of them removed, another recorded and the removed one put back in time leave a history of
      501 entries with the marked one last, and recording the next skin loses it. */
  lemma FavoriteIsLost(profile: string) returns (calls: seq<Call>, next: Op, id: string)
    ensures next.Record? && next.profile == profile && !Touches(next, profile, id)
    ensures forall k :: 0 <= k < |calls| ==> calls[k].io == Works
    ensures var s := Run(Store(map[], map[]), calls);
      && Valid(s) && profile in s.files && HasFavorite(s.files[profile], id)
      && profile in Step(s, next, Works).files && !HasFavorite(Step(s, next, Works).files[profile], id)
  {
    var n: nat := MAX_READ_ENTRIES;
    calls, next, id := OverfullCalls(profile, n), RecordCall(profile, n + 1).op, MarkedSkin(0).id;
    OverfullRun(profile, n);
    OverfullLoses(profile, n, Run(Store(map[], map[]), calls));
    AllWork(profile, n);
  }

  lemma {:induction false} AllWork(profile: string, n: nat)
    ensures forall k :: 0 <= k < |MarkingCalls(profile, n)| ==> MarkingCalls(profile, n)[k].io == Works
    ensures forall k :: 0 <= k < |OverfullCalls(profile, n)| ==> OverfullCalls(profile, n)[k].io == Works
  {
    if n > 0 { AllWork(profile, n - 1); }
  }
}
