/** The natural order of version names (`runtime.rs`). */
module Versions {
  import opened Wrappers
  import opened Numerals
  import opened Ordering

  const U64_END: nat := 0x1_0000_0000_0000_0000

  // --- Runs --------------------------------------------------------------------------------------

  function Concat(chunks: seq<string>): string {
    if chunks == [] then "" else chunks[0] + Concat(chunks[1..])
  }

  /** Only digits, or none. */
  predicate Uniform(chunk: string) {
    chunk != [] && forall i :: 0 <= i < |chunk| ==> IsDigit(chunk[i]) == IsDigit(chunk[0])
  }

  /** The runs of digits and of other characters, each as long as can be. */
  predicate Runs(chunks: seq<string>) {
    && (forall i :: 0 <= i < |chunks| ==> Uniform(chunks[i]))
    && (forall i :: 0 <= i < |chunks| - 1 ==> IsDigit(chunks[i][0]) != IsDigit(chunks[i + 1][0]))
  }

  function RunEnd(s: string, from: nat): (e: nat)
    requires 0 < from <= |s|
    ensures from <= e <= |s|
    decreases |s| - from
  {
    if from == |s| || IsDigit(s[from]) != IsDigit(s[0]) then from else RunEnd(s, from + 1)
  }

  lemma {:induction false} RunEndIs(s: string, from: nat)
    requires 0 < from <= |s|
    ensures forall i :: from <= i < RunEnd(s, from) ==> IsDigit(s[i]) == IsDigit(s[0])
    ensures RunEnd(s, from) < |s| ==> IsDigit(s[RunEnd(s, from)]) != IsDigit(s[0])
    decreases |s| - from
  {
    if from < |s| && IsDigit(s[from]) == IsDigit(s[0]) { RunEndIs(s, from + 1); }
  }

  function ChunksOf(s: string): seq<string> {
    if s == [] then [] else [s[..RunEnd(s, 1)]] + ChunksOf(s[RunEnd(s, 1)..])
  }

  /** A name falls into its runs. */
  lemma {:induction false} ChunksAreRuns(s: string)
    ensures Runs(ChunksOf(s)) && Concat(ChunksOf(s)) == s
    ensures s != [] ==> ChunksOf(s) != [] && ChunksOf(s)[0][0] == s[0]
  {
    if s != [] {
      var n := RunEnd(s, 1);
      RunEndIs(s, 1);
      ChunksAreRuns(s[n..]);
      assert Uniform(s[..n]);
      assert ChunksOf(s)[1..] == ChunksOf(s[n..]);
      assert s == s[..n] + s[n..];
    }
  }

  lemma RunsRest(chunks: seq<string>)
    requires Runs(chunks) && chunks != []
    ensures Runs(chunks[1..]) && Uniform(chunks[0])
    ensures chunks[1..] != [] ==> IsDigit(chunks[1][0]) != IsDigit(chunks[0][0])
  {
    forall i | 0 <= i < |chunks[1..]| ensures Uniform(chunks[1..][i]) { assert chunks[1..][i] == chunks[i + 1]; }
    forall i | 0 <= i < |chunks[1..]| - 1 ensures IsDigit(chunks[1..][i][0]) != IsDigit(chunks[1..][i + 1][0]) {
      assert chunks[1..][i] == chunks[i + 1] && chunks[1..][i + 1] == chunks[i + 2];
    }
  }

  lemma FirstRun(first: string, rest: string)
    requires Uniform(first) && (rest != [] ==> IsDigit(rest[0]) != IsDigit(first[0]))
    ensures RunEnd(first + rest, 1) == |first|
  {
    var s := first + rest;
    RunEndIs(s, 1);
    var e := RunEnd(s, 1);
    assert forall i :: 0 <= i < |first| ==> s[i] == first[i];
    assert rest != [] ==> s[|first|] == rest[0];
  }

  lemma ConcatStarts(chunks: seq<string>)
    requires Runs(chunks)
    ensures chunks == [] <==> Concat(chunks) == []
    ensures chunks != [] ==> Concat(chunks)[0] == chunks[0][0]
  {
    if chunks != [] { RunsRest(chunks); }
  }

  /** Main theorem: there is one way to cut a name into runs, and this is it. */
  lemma {:induction false} RunsOnce(chunks: seq<string>)
    requires Runs(chunks)
    ensures ChunksOf(Concat(chunks)) == chunks
    decreases |chunks|
  {
    if chunks != [] {
      var rest := chunks[1..];
      RunsRest(chunks);
      RunsOnce(rest);
      ConcatStarts(rest);
      FirstRun(chunks[0], Concat(rest));
      assert (chunks[0] + Concat(rest))[..|chunks[0]|] == chunks[0];
      assert (chunks[0] + Concat(rest))[|chunks[0]|..] == Concat(rest);
      assert chunks == [chunks[0]] + rest;
    }
  }

  lemma {:induction false} ConcatSnoc(chunks: seq<string>, last: string)
    ensures Concat(chunks + [last]) == Concat(chunks) + last
  {
    if chunks == [] {
      assert Concat([last]) == last + Concat([]);
    } else {
      ConcatSnoc(chunks[1..], last);
      assert (chunks + [last])[1..] == chunks[1..] + [last];
    }
  }

  lemma RunsSnoc(chunks: seq<string>, last: string)
    requires Runs(chunks) && Uniform(last)
    requires chunks != [] ==> IsDigit(chunks[|chunks| - 1][0]) != IsDigit(last[0])
    ensures Runs(chunks + [last])
  {
    var all := chunks + [last];
    forall i | 0 <= i < |all| - 1 ensures IsDigit(all[i][0]) != IsDigit(all[i + 1][0]) {
      if i < |chunks| - 1 { assert all[i] == chunks[i] && all[i + 1] == chunks[i + 1]; }
    }
  }

  /** `chunks`. */
  method Chunks(text: string) returns (out: seq<string>)
    ensures out == ChunksOf(text)
  {
    out := [];
    var start := 0;
    for i := 1 to |text| + 1
      invariant 0 <= start <= |text| && (if i <= |text| then start < i else start == |text|)
      invariant Runs(out) && Concat(out) == text[..start]
      invariant start < |text| && out != [] ==> IsDigit(out[|out| - 1][0]) != IsDigit(text[start])
      invariant forall k :: start <= k < i && k < |text| ==> IsDigit(text[k]) == IsDigit(text[start])
    {
      if i == |text| || IsDigit(text[i]) != IsDigit(text[i - 1]) {
        var chunk := text[start..i];
        assert Uniform(chunk) && chunk[0] == text[start] && text[..i] == text[..start] + chunk;
        RunsSnoc(out, chunk);
        ConcatSnoc(out, chunk);
        out := out + [chunk];
        start := i;
      }
    }
    assert text[..start] == text;
    RunsOnce(out);
  }

  // --- Comparing ---------------------------------------------------------------------------------

  function WithoutV(version: string): string {
    if |version| > 1 && (version[0] == 'v' || version[0] == 'V') && IsDigit(version[1]) then version[1..] else version
  }

  function CompareChunk(x: string, y: string): Order {
    match (ParseUnsigned(x, U64_END), ParseUnsigned(y, U64_END))
    case (Some(m), Some(n)) => CompareInt(m, n)
    case (_, _) => CompareText(x, y)
  }

  predicate Dashed(chunk: string) { chunk != [] && chunk[0] == '-' }

  function CompareChunks(a: seq<string>, b: seq<string>): Order {
    if a == [] then (if b == [] then Equal else if Dashed(b[0]) then Greater else Less)
    else if b == [] then (if Dashed(a[0]) then Less else Greater)
    else Then(CompareChunk(a[0], b[0]), CompareChunks(a[1..], b[1..]))
  }

  function Compare(a: string, b: string): Order {
    CompareChunks(ChunksOf(WithoutV(a)), ChunksOf(WithoutV(b)))
  }

  /** `compare_versions`. */
  method CompareVersions(a: string, b: string) returns (order: Order)
    ensures order == Compare(a, b)
  {
    var xs := Chunks(WithoutV(a));
    var ys := Chunks(WithoutV(b));
    var i := 0;
    while true
      invariant 0 <= i <= |xs| && i <= |ys|
      invariant CompareChunks(xs, ys) == CompareChunks(xs[i..], ys[i..])
      decreases |xs| - i
    {
      if i == |xs| && i == |ys| {
        return Equal;
      }
      if i == |xs| {
        return if Dashed(ys[i]) then Greater else Less;
      }
      if i == |ys| {
        return if Dashed(xs[i]) then Less else Greater;
      }
      order := CompareChunk(xs[i], ys[i]);
      if order != Equal {
        return order;
      }
      assert xs[i..][1..] == xs[i + 1..] && ys[i..][1..] == ys[i + 1..];
      i := i + 1;
    }
  }

  // --- The order ---------------------------------------------------------------------------------

  lemma {:induction false} ChunksFlip(a: seq<string>, b: seq<string>)
    ensures CompareChunks(b, a) == Flip(CompareChunks(a, b))
  {
    if a != [] && b != [] {
      TextFlips(a[0], b[0]);
      ChunksFlip(a[1..], b[1..]);
    }
  }

  /** Two names compare the same way in either order: the order is total. */
  lemma Flips(a: string, b: string)
    ensures Compare(b, a) == Flip(Compare(a, b))
  {
    ChunksFlip(ChunksOf(WithoutV(a)), ChunksOf(WithoutV(b)));
  }

  /** The run is a number that fits, or begins with no character below the dash. */
  predicate GoodChunk(chunk: string) {
    && Uniform(chunk)
    && (AllDigits(chunk) ==> Value(chunk) < U64_END)
    && chunk[0] >= '-'
  }

  predicate AllGood(chunks: seq<string>) { forall i :: 0 <= i < |chunks| ==> GoodChunk(chunks[i]) }

  predicate Good(version: string) { AllGood(ChunksOf(WithoutV(version))) }

  /** What a good run parses as. */
  lemma GoodParses(chunk: string)
    requires GoodChunk(chunk)
    ensures ParseUnsigned(chunk, U64_END) == if IsDigit(chunk[0]) then Some(Value(chunk)) else None
    ensures IsDigit(chunk[0]) <==> AllDigits(chunk)
  {
    assert AllDigits(chunk) ==> IsDigit(chunk[0]);
    if !IsDigit(chunk[0]) && |chunk| > 1 { assert !IsDigit(chunk[1..][0]) by { assert chunk[1..][0] == chunk[1]; } }
  }

  lemma TextByFirst(x: string, y: string)
    requires x != [] && y != [] && x[0] != y[0]
    ensures CompareText(x, y) == if x[0] < y[0] then Less else Greater
  {
  }

  lemma TextOrdersFirst(x: string, y: string)
    requires x != [] && y != [] && CompareText(x, y) != Greater
    ensures x[0] <= y[0]
  {
  }

  /** A number of twenty digits or more that begins with nineteen nines: too big, but above every
      number that fits as a text as well. */
  predicate Nines(chunk: string) {
    AllDigits(chunk) && |chunk| >= 20 && forall i :: 0 <= i < 19 ==> chunk[i] == '9'
  }

  predicate FineChunk(chunk: string) { GoodChunk(chunk) || Nines(chunk) }

  predicate AllFine(chunks: seq<string>) { forall i :: 0 <= i < |chunks| ==> FineChunk(chunks[i]) }

  lemma {:induction false} ValueBelow(s: string)
    requires AllDigits(s)
    ensures Value(s) < Power10(|s|)
  {
    if s != [] { ValueBelow(s[..|s| - 1]); }
  }

  lemma {:induction false} ValueOfNines(s: string)
    requires AllDigits(s) && forall i :: 0 <= i < |s| ==> s[i] == '9'
    ensures Value(s) == Power10(|s|) - 1
  {
    if s != [] { ValueOfNines(s[..|s| - 1]); }
  }

  lemma {:induction false} ValueGrows(s: string, n: nat)
    requires AllDigits(s) && n <= |s|
    ensures AllDigits(s[..n]) && Value(s[..n]) <= Value(s)
    ensures n < |s| ==> 10 * Value(s[..n]) <= Value(s)
  {
    if n < |s| {
      ValueGrows(s[..|s| - 1], n);
      assert s[..|s| - 1][..n] == s[..n];
    } else {
      assert s[..n] == s;
    }
  }

  lemma PowersOfTen()
    ensures Power10(19) == 10 * Power10(18) == 10_000_000_000_000_000_000 < U64_END
  {
    assert Power10(5) == 100_000;
    assert Power10(10) == 10_000_000_000;
    assert Power10(15) == 1_000_000_000_000_000;
  }

  lemma NinesDoNotFit(w: string)
    requires Nines(w)
    ensures Value(w) >= U64_END
  {
    ValueGrows(w, 19);
    ValueOfNines(w[..19]);
    PowersOfTen();
  }

  /** A text that begins with `n` nines and goes on is above every number that does not. */
  lemma {:induction false} NinesAbove(w: string, c: string, n: nat)
    requires AllDigits(w) && AllDigits(c) && |w| > n && forall i :: 0 <= i < n ==> w[i] == '9'
    requires |c| <= n || exists i :: 0 <= i < n && c[i] != '9'
    ensures CompareText(w, c) == Greater && CompareText(c, w) == Less
    decreases n
  {
    if c != [] && c[0] == '9' {
      forall i | 0 <= i < n - 1 ensures w[1..][i] == '9' { assert w[1..][i] == w[i + 1]; }
      if |c| > n {
        var i :| 0 <= i < n && c[i] != '9';
        assert c[1..][i - 1] == c[i];
      }
      NinesAbove(w[1..], c[1..], n - 1);
    }
  }

  /** How fine runs compare: numbers that fit as numbers, everything else as a text; a number that
      does not fit is above those that do, and a number and another run differ in front. */
  lemma FineCompares(x: string, y: string)
    requires FineChunk(x) && FineChunk(y)
    ensures x != [] && y != []
    ensures Fits(x) && Fits(y) ==> CompareChunk(x, y) == CompareInt(Value(x), Value(y))
    ensures !Fits(x) || !Fits(y) ==> CompareChunk(x, y) == CompareText(x, y)
    ensures Nines(x) && Fits(y) ==> CompareChunk(x, y) == Greater
    ensures Fits(x) && Nines(y) ==> CompareChunk(x, y) == Less
    ensures IsDigit(x[0]) != IsDigit(y[0]) ==> CompareChunk(x, y) == if x[0] < y[0] then Less else Greater
    ensures (IsDigit(x[0]) ==> Fits(x) || Nines(x)) && (Fits(x) || Nines(x) ==> IsDigit(x[0]))
    ensures (IsDigit(y[0]) ==> Fits(y) || Nines(y)) && (Fits(y) || Nines(y) ==> IsDigit(y[0]))
  {
    FineParses(x);
    FineParses(y);
    if IsDigit(x[0]) != IsDigit(y[0]) { TextByFirst(x, y); }
    if Nines(x) && Fits(y) { FitsBelowNines(x, y); }
    if Fits(x) && Nines(y) { FitsBelowNines(y, x); }
  }

  predicate Fits(chunk: string) { chunk != [] && AllDigits(chunk) && Value(chunk) < U64_END }

  lemma FineParses(chunk: string)
    requires FineChunk(chunk)
    ensures chunk != [] && ParseUnsigned(chunk, U64_END) == if Fits(chunk) then Some(Value(chunk)) else None
    ensures IsDigit(chunk[0]) <==> Fits(chunk) || Nines(chunk)
    ensures !(Fits(chunk) && Nines(chunk))
  {
    if Nines(chunk) { NinesDoNotFit(chunk); } else { GoodParses(chunk); }
  }

  lemma FitsBelowNines(w: string, c: string)
    requires Nines(w) && Fits(c)
    ensures CompareText(w, c) == Greater && CompareText(c, w) == Less
  {
    if |c| > 19 && forall i :: 0 <= i < 19 ==> c[i] == '9' { NinesDoNotFit(c); }
    NinesAbove(w, c, 19);
  }

  lemma ChunkTransitive(x: string, y: string, z: string)
    requires FineChunk(x) && FineChunk(y) && FineChunk(z)
    requires CompareChunk(x, y) != Greater && CompareChunk(y, z) != Greater
    ensures CompareChunk(x, z) != Greater
    ensures CompareChunk(x, z) == Equal ==> CompareChunk(x, y) == Equal && CompareChunk(y, z) == Equal
  {
    FineCompares(x, y);
    FineCompares(y, z);
    FineCompares(x, z);
    if CompareText(x, y) != Greater && CompareText(y, z) != Greater { TextTransitive(x, y, z); }
    if CompareText(x, y) != Greater { TextOrdersFirst(x, y); }
    if CompareText(y, z) != Greater { TextOrdersFirst(y, z); }
  }

  /** The dash comes first. */
  lemma DashFirst(x: string, y: string)
    requires FineChunk(x) && FineChunk(y)
    ensures CompareChunk(x, y) != Greater && Dashed(y) ==> Dashed(x)
    ensures Dashed(x) && !Dashed(y) ==> CompareChunk(x, y) == Less
  {
    FineCompares(x, y);
    if CompareText(x, y) != Greater { TextOrdersFirst(x, y); }
    if x[0] != y[0] { TextByFirst(x, y); }
  }

  lemma FineRest(chunks: seq<string>)
    requires AllFine(chunks) && chunks != []
    ensures FineChunk(chunks[0]) && AllFine(chunks[1..])
  {
    forall i | 0 <= i < |chunks[1..]| ensures FineChunk(chunks[1..][i]) { assert chunks[1..][i] == chunks[i + 1]; }
  }

  lemma GoodRest(chunks: seq<string>)
    requires AllGood(chunks) && chunks != []
    ensures GoodChunk(chunks[0]) && AllGood(chunks[1..])
  {
    forall i | 0 <= i < |chunks[1..]| ensures GoodChunk(chunks[1..][i]) { assert chunks[1..][i] == chunks[i + 1]; }
  }

  predicate AtMost(a: seq<string>, b: seq<string>) { CompareChunks(a, b) != Greater }

  lemma {:induction false} ChunksTransitive(a: seq<string>, b: seq<string>, c: seq<string>)
    requires AllFine(a) && AllFine(b) && AllFine(c) && AtMost(a, b) && AtMost(b, c)
    ensures AtMost(a, c)
    ensures CompareChunks(a, c) == Equal ==> CompareChunks(a, b) == Equal && CompareChunks(b, c) == Equal
  {
    if a == [] || b == [] || c == [] {
      if a != [] && c != [] { DashFirst(a[0], c[0]); }
      if a != [] && b != [] { DashFirst(a[0], b[0]); }
      if b != [] && c != [] { DashFirst(b[0], c[0]); }
    } else {
      ChunkTransitive(a[0], b[0], c[0]);
      if CompareChunk(a[0], c[0]) == Equal {
        FineRest(a);
        FineRest(b);
        FineRest(c);
        ChunksTransitive(a[1..], b[1..], c[1..]);
      }
    }
  }

  /** Every run is good, or a number above all that fit. */
  predicate Fine(version: string) { AllFine(ChunksOf(WithoutV(version))) }

  /** Main theorem: on names of fine runs the comparison is transitive, and level names are so
      throughout. */
  lemma FineTransitive(a: string, b: string, c: string)
    requires Fine(a) && Fine(b) && Fine(c) && Compare(a, b) != Greater && Compare(b, c) != Greater
    ensures Compare(a, c) != Greater
    ensures Compare(a, c) == Equal ==> Compare(a, b) == Equal && Compare(b, c) == Equal
  {
    ChunksTransitive(ChunksOf(WithoutV(a)), ChunksOf(WithoutV(b)), ChunksOf(WithoutV(c)));
  }

  /** Good names are level exactly if they have the same runs, up to zeros in front of numbers. */
  lemma {:induction false} LevelChunks(a: seq<string>, b: seq<string>)
    requires AllGood(a) && AllGood(b)
    ensures CompareChunks(a, b) == Equal <==> |a| == |b| && forall i :: 0 <= i < |a| ==> SameRun(a[i], b[i])
  {
    if a != [] && b != [] {
      GoodRest(a);
      GoodRest(b);
      LevelChunks(a[1..], b[1..]);
      FineCompares(a[0], b[0]);
      GoodParses(a[0]);
      GoodParses(b[0]);
      TextEqual(a[0], b[0]);
      if |a| == |b| {
        assert (forall i :: 0 <= i < |a| ==> SameRun(a[i], b[i])) <==>
          SameRun(a[0], b[0]) && forall i :: 0 <= i < |a[1..]| ==> SameRun(a[1..][i], b[1..][i]) by {
          if SameRun(a[0], b[0]) && forall i :: 0 <= i < |a[1..]| ==> SameRun(a[1..][i], b[1..][i]) {
            forall i | 0 <= i < |a| ensures SameRun(a[i], b[i]) {
              if i > 0 { assert SameRun(a[1..][i - 1], b[1..][i - 1]); }
            }
          }
        }
      }
    }
  }

  predicate SameRun(x: string, y: string) {
    x == y || (AllDigits(x) && AllDigits(y) && Value(x) == Value(y))
  }

  // --- What a suffix does --------------------------------------------------------------------------

  predicate EndsInDigit(s: string) { s != [] && IsDigit(s[|s| - 1]) }

  lemma {:induction false} ConcatJoin(a: seq<string>, b: seq<string>)
    ensures Concat(a + b) == Concat(a) + Concat(b)
  {
    if a == [] {
      assert a + b == b;
    } else {
      ConcatJoin(a[1..], b);
      assert (a + b)[1..] == a[1..] + b && (a + b)[0] == a[0];
      Regroup(a[0], Concat(a[1..]), Concat(b));
    }
  }

  lemma Regroup(a: string, b: string, c: string)
    ensures a + (b + c) == a + b + c
  {
  }

  lemma JoinRuns(a: seq<string>, b: seq<string>)
    requires Runs(a) && Runs(b) && (a != [] && b != [] ==> IsDigit(a[|a| - 1][0]) != IsDigit(b[0][0]))
    ensures Runs(a + b)
  {
    var all := a + b;
    forall i | 0 <= i < |all| ensures Uniform(all[i]) {
      if i < |a| { assert all[i] == a[i]; } else { assert all[i] == b[i - |a|]; }
    }
    forall i | 0 <= i < |all| - 1 ensures IsDigit(all[i][0]) != IsDigit(all[i + 1][0]) {
      if i < |a| - 1 {
        assert all[i] == a[i] && all[i + 1] == a[i + 1];
      } else if i >= |a| {
        assert all[i] == b[i - |a|] && all[i + 1] == b[i - |a| + 1];
      }
    }
  }

  lemma LastRun(s: string)
    requires s != []
    ensures Runs(ChunksOf(s)) && ChunksOf(s) != []
    ensures IsDigit(ChunksOf(s)[|ChunksOf(s)| - 1][0]) == IsDigit(s[|s| - 1])
  {
    var chunks := ChunksOf(s);
    ChunksAreRuns(s);
    var n := |chunks| - 1;
    assert chunks == chunks[..n] + [chunks[n]];
    ConcatSnoc(chunks[..n], chunks[n]);
    assert s[|s| - 1] == chunks[n][|chunks[n]| - 1];
    assert Uniform(chunks[n]);
  }

  /** A suffix that begins where a number ends is cut into runs for itself. */
  lemma ChunksOfSuffix(p: string, s: string)
    requires (p == [] || EndsInDigit(p)) && s != [] && !IsDigit(s[0])
    ensures ChunksOf(p + s) == ChunksOf(p) + ChunksOf(s)
  {
    ChunksAreRuns(p);
    ChunksAreRuns(s);
    if p != [] { LastRun(p); }
    JoinRuns(ChunksOf(p), ChunksOf(s));
    ConcatJoin(ChunksOf(p), ChunksOf(s));
    RunsOnce(ChunksOf(p) + ChunksOf(s));
  }

  lemma {:induction false} CompareSelf(chunks: seq<string>, a: seq<string>, b: seq<string>)
    ensures CompareChunks(chunks + a, chunks + b) == CompareChunks(a, b)
  {
    if chunks == [] {
      assert chunks + a == a && chunks + b == b;
    } else {
      CompareSelf(chunks[1..], a, b);
      assert (chunks + a)[1..] == chunks[1..] + a && (chunks + b)[1..] == chunks[1..] + b;
      TextEqual(chunks[0], chunks[0]);
    }
  }

  /** The suffix may follow `p`: a number ends there, or nothing stands before it. */
  predicate Follows(p: string, s: string) {
    s != [] && !IsDigit(s[0]) && (EndsInDigit(p) || (p == [] && s[0] != 'v' && s[0] != 'V'))
  }

  lemma WithoutVSuffix(p: string, s: string)
    requires Follows(p, s)
    ensures WithoutV(p + s) == WithoutV(p) + s && (WithoutV(p) == [] || EndsInDigit(WithoutV(p)))
  {
    if p == [] {
      assert p + s == s;
    } else {
      assert (p + s)[0] == p[0];
      if |p| > 1 {
        assert (p + s)[1] == p[1];
        assert (p + s)[1..] == p[1..] + s;
      }
    }
  }

  /** Main theorem: behind a number, a suffix with a dash is a version before it, any other suffix
      one after it. */
  lemma SuffixOrder(p: string, s: string)
    requires Follows(p, s)
    ensures Compare(p + s, p) == if s[0] == '-' then Less else Greater
  {
    var q := WithoutV(p);
    WithoutVSuffix(p, s);
    ChunksOfSuffix(q, s);
    ChunksAreRuns(s);
    CompareSelf(ChunksOf(q), ChunksOf(s), []);
    assert ChunksOf(q) + [] == ChunksOf(q);
  }

  // --- What the first different run does -----------------------------------------------------------

  /** `x` stands between `p` and `s` as a run of its own. */
  predicate Between(p: string, x: string, s: string) {
    Uniform(x) && (p != [] ==> IsDigit(p[|p| - 1]) != IsDigit(x[0])) && (s != [] ==> IsDigit(s[0]) != IsDigit(x[0]))
  }

  lemma RestRuns(x: string, s: string)
    requires Between([], x, s)
    ensures Runs([x] + ChunksOf(s)) && Concat([x] + ChunksOf(s)) == x + s
  {
    ChunksAreRuns(s);
    assert Runs([x]);
    if s != [] { FirstRunOf(s); }
    JoinRuns([x], ChunksOf(s));
    assert ([x] + ChunksOf(s))[1..] == ChunksOf(s);
  }

  lemma FirstRunOf(s: string)
    requires s != []
    ensures ChunksOf(s) != [] && IsDigit(ChunksOf(s)[0][0]) == IsDigit(s[0])
  {
    ChunksAreRuns(s);
    assert Uniform(ChunksOf(s)[0]);
    assert s[0] == ChunksOf(s)[0][0];
  }

  lemma RunsAround(p: string, x: string, s: string)
    requires Between(p, x, s)
    ensures Runs(ChunksOf(p) + ([x] + ChunksOf(s)))
  {
    RestRuns(x, s);
    ChunksAreRuns(p);
    if p != [] { LastRun(p); }
    JoinRuns(ChunksOf(p), [x] + ChunksOf(s));
  }

  lemma ConcatAround(p: string, x: string, s: string)
    requires Between(p, x, s)
    ensures Concat(ChunksOf(p) + ([x] + ChunksOf(s))) == p + x + s
  {
    RestRuns(x, s);
    ChunksAreRuns(p);
    ConcatJoin(ChunksOf(p), [x] + ChunksOf(s));
    Regroup(p, x, s);
  }

  lemma CutAround(p: string, x: string, s: string)
    requires Between(p, x, s)
    ensures ChunksOf(p + x + s) == ChunksOf(p) + ([x] + ChunksOf(s))
  {
    RunsAround(p, x, s);
    ConcatAround(p, x, s);
    RunsOnce(ChunksOf(p) + ([x] + ChunksOf(s)));
  }

  /** Behind the same start a run each decides, and if they are level what follows. */
  lemma RunDecides(p: string, x: string, s: string, y: string, t: string)
    requires Between(p, x, s) && Between(p, y, t)
    ensures CompareChunks(ChunksOf(p + x + s), ChunksOf(p + y + t)) ==
            Then(CompareChunk(x, y), CompareChunks(ChunksOf(s), ChunksOf(t)))
  {
    CutAround(p, x, s);
    CutAround(p, y, t);
    CompareSelf(ChunksOf(p), [x] + ChunksOf(s), [y] + ChunksOf(t));
    assert ([x] + ChunksOf(s))[1..] == ChunksOf(s) && ([y] + ChunksOf(t))[1..] == ChunksOf(t);
  }

  /** What is left of the text before a number, without a `v`. */
  function BeforeNumber(p: string): string {
    if p == "v" || p == "V" then [] else WithoutV(p)
  }

  lemma WithoutVNumber(p: string, x: string, s: string)
    requires Between(p, x, s) && IsDigit(x[0])
    ensures WithoutV(p + x + s) == BeforeNumber(p) + x + s && Between(BeforeNumber(p), x, s)
  {
    var n := p + x + s;
    if p == [] {
      assert n[0] == x[0];
    } else if |p| == 1 {
      assert n[0] == p[0] && n[1] == x[0] && n[1..] == x + s;
    } else {
      assert n[0] == p[0] && n[1] == p[1] && n[1..] == p[1..] + x + s;
    }
  }

  /** Main theorem: behind the same start, the smaller number makes the earlier version, whatever
      follows: `1.9.2` before `1.10.0`. */
  lemma NumbersDecide(p: string, x: string, s: string, y: string, t: string)
    requires Between(p, x, s) && Between(p, y, t) && AllDigits(x) && AllDigits(y)
    requires Value(x) < Value(y) < U64_END
    ensures Compare(p + x + s, p + y + t) == Less
  {
    var q := BeforeNumber(p);
    WithoutVNumber(p, x, s);
    WithoutVNumber(p, y, t);
    RunDecides(q, x, s, y, t);
    GoodNumber(x);
    GoodNumber(y);
  }

  lemma GoodNumber(x: string)
    requires Uniform(x) && AllDigits(x) && Value(x) < U64_END
    ensures ParseUnsigned(x, U64_END) == Some(Value(x))
  {
    assert IsDigit(x[0]);
  }

  lemma WithoutVText(p: string, x: string, s: string)
    requires Between(p, x, s) && EndsInDigit(p)
    ensures WithoutV(p + x + s) == WithoutV(p) + x + s && Between(WithoutV(p), x, s)
  {
    assert x + s != [] && !IsDigit((x + s)[0]);
    Regroup(p, x, s);
    WithoutVSuffix(p, x + s);
    Regroup(WithoutV(p), x, s);
  }

  /** Main theorem: behind the same number, the runs that follow compare as texts do. */
  lemma TextsDecide(p: string, x: string, s: string, y: string, t: string)
    requires Between(p, x, s) && Between(p, y, t) && EndsInDigit(p) && x != y
    ensures Compare(p + x + s, p + y + t) == CompareText(x, y)
  {
    WithoutVText(p, x, s);
    WithoutVText(p, y, t);
    RunDecides(WithoutV(p), x, s, y, t);
    NoNumber(x);
    TextEqual(x, y);
  }

  lemma NoNumber(x: string)
    requires Uniform(x) && !IsDigit(x[0])
    ensures ParseUnsigned(x, U64_END).None?
  {
    if |x| > 1 { assert x[1..][0] == x[1]; }
  }

  /** A `v` before a number makes no difference. */
  lemma VIgnored(v: char, n: string, other: string)
    requires (v == 'v' || v == 'V') && n != [] && IsDigit(n[0])
    ensures Compare([v] + n, other) == Compare(n, other) && Compare(other, [v] + n) == Compare(other, n)
    ensures Compare([v] + n, n) == Equal
  {
    assert ([v] + n)[1] == n[0] && ([v] + n)[1..] == n;
    CompareSelf(ChunksOf(n), [], []);
    assert ChunksOf(n) + [] == ChunksOf(n);
  }

  /** Any other one does. */
  lemma VCounts(v: char, n: string)
    requires (v == 'v' || v == 'V') && n != [] && !IsDigit(n[0])
    ensures Compare([v] + n, n) != Equal
  {
    var m := [v] + n;
    assert m[0] == v && m[1] == n[0] && WithoutV(m) == m;
    FirstRunOf(m);
    FirstRunOf(WithoutV(n));
    var x, y := ChunksOf(m)[0], ChunksOf(WithoutV(n))[0];
    ChunksAreRuns(m);
    NoNumber(x);
    FirstRunsDiffer(v, n);
    TextEqual(x, y);
  }

  lemma FirstRunsDiffer(v: char, n: string)
    requires !IsDigit(v) && n != [] && !IsDigit(n[0])
    ensures ChunksOf([v] + n) != [] && ChunksOf(WithoutV(n)) != []
    ensures ChunksOf([v] + n)[0] != ChunksOf(WithoutV(n))[0]
  {
    FirstRunOf([v] + n);
    FirstRunOf(WithoutV(n));
    if WithoutV(n) == n {
      FirstRunGrows(v, n);
    } else {
      assert WithoutV(n)[0] == n[1];
    }
  }

  lemma SplitFirst(n: string) returns (first: string, rest: string)
    requires n != []
    ensures n == first + rest && ChunksOf(n) != [] && ChunksOf(n)[0] == first && Between([], first, rest)
    ensures IsDigit(first[0]) == IsDigit(n[0])
  {
    var chunks := ChunksOf(n);
    ChunksAreRuns(n);
    FirstRunOf(n);
    first, rest := chunks[0], Concat(chunks[1..]);
    if rest != [] { RestStarts(chunks); }
  }

  lemma FirstRunGrows(v: char, n: string)
    requires !IsDigit(v) && n != [] && !IsDigit(n[0])
    ensures ChunksOf(n) != [] && ChunksOf([v] + n) != [] && ChunksOf([v] + n)[0] == [v] + ChunksOf(n)[0]
  {
    var first, rest := SplitFirst(n);
    Regroup([v], first, rest);
    GrownFirst(v, first, rest, [v] + n);
  }

  lemma GrownFirst(v: char, first: string, rest: string, grown: string)
    requires !IsDigit(v) && Between([], first, rest) && !IsDigit(first[0]) && grown == [v] + first + rest
    ensures ChunksOf(grown) != [] && ChunksOf(grown)[0] == [v] + first
  {
    OneMore(v, first);
    RunFirst([v] + first, rest);
  }

  lemma RunFirst(x: string, rest: string)
    requires Between([], x, rest)
    ensures ChunksOf(x + rest) == [x] + ChunksOf(rest)
  {
    RestRuns(x, rest);
    RunsOnce([x] + ChunksOf(rest));
  }

  lemma OneMore(v: char, x: string)
    requires Uniform(x) && IsDigit(v) == IsDigit(x[0])
    ensures Uniform([v] + x)
  {
    forall k | 0 <= k < |[v] + x| ensures IsDigit(([v] + x)[k]) == IsDigit(v) {
      if k > 0 { assert ([v] + x)[k] == x[k - 1]; }
    }
  }

  lemma RestStarts(chunks: seq<string>)
    requires Runs(chunks) && chunks != [] && Concat(chunks[1..]) != []
    ensures IsDigit(Concat(chunks[1..])[0]) != IsDigit(chunks[0][0])
  {
    assert Concat([]) == [];
    assert Uniform(chunks[1]);
    assert Concat(chunks[1..])[0] == chunks[1][0];
  }

  // --- Where the order breaks ----------------------------------------------------------------------

  /** A suffix that begins below the dash, as one with a plus does, makes a circle. */
  lemma LowSuffixCircle(p: string, s: string)
    requires Follows(p, s) && s[0] < '-'
    ensures Compare(p + s, p + "-") == Less && Compare(p + "-", p) == Less && Compare(p, p + s) == Less
  {
    var q := WithoutV(p);
    SuffixOrder(p, "-");
    SuffixOrder(p, s);
    Flips(p + s, p);
    WithoutVSuffix(p, s);
    WithoutVSuffix(p, "-");
    ChunksOfSuffix(q, s);
    ChunksOfSuffix(q, "-");
    ChunksAreRuns(s);
    ChunksAreRuns("-");
    CompareSelf(ChunksOf(q), ChunksOf(s), ChunksOf("-"));
    LowChunk(ChunksOf(s)[0], ChunksOf("-")[0]);
  }

  lemma LowChunk(x: string, y: string)
    requires x != [] && x[0] < '-' && y != [] && y[0] == '-'
    ensures CompareChunk(x, y) == Less
  {
    TextByFirst(x, y);
    assert !AllDigits(y) by { assert !IsDigit(y[0]); }
  }

  /** Every run of digits is a number that fits. */
  predicate Small(version: string) {
    var chunks := ChunksOf(WithoutV(version));
    forall i :: 0 <= i < |chunks| && AllDigits(chunks[i]) ==> Value(chunks[i]) < U64_END
  }

  /** No circle with good names leads through the name: where three names follow one another and the
      last is not above the first, they are level. */
  ghost predicate InOrder(n: string) {
    forall a, b ::
      Good(a) && Good(b) && Compare(n, a) != Greater && Compare(a, b) != Greater && Compare(b, n) != Greater
      ==> Compare(n, a) == Compare(a, b) == Compare(b, n) == Equal
  }

  lemma WithoutVOnce(n: string)
    ensures WithoutV(WithoutV(n)) == WithoutV(n)
    ensures forall p :: p <= WithoutV(n) ==> WithoutV(p) == p
  {
    var m := WithoutV(n);
    forall p | p <= m ensures WithoutV(p) == p {
      if |p| > 1 { assert p[0] == m[0] && p[1] == m[1]; }
    }
  }

  lemma FirstBad(chunks: seq<string>) returns (k: nat)
    requires !AllGood(chunks)
    ensures k < |chunks| && !GoodChunk(chunks[k]) && AllGood(chunks[..k])
  {
    k := 0;
    while k < |chunks| && GoodChunk(chunks[k])
      invariant k <= |chunks| && forall i :: 0 <= i < k ==> GoodChunk(chunks[i])
    {
      k := k + 1;
    }
  }

  lemma OneRun(w: string)
    requires Uniform(w)
    ensures ChunksOf(w) == [w]
  {
    assert [w][1..] == [] && w + "" == w;
    assert Concat([w]) == w;
    RunsOnce([w]);
  }

  lemma GoodWithDash(p: string)
    requires WithoutV(p) == p && Good(p) && Follows(p, "-")
    ensures Good(p + "-")
  {
    WithoutVSuffix(p, "-");
    ChunksOfSuffix(p, "-");
    OneRun("-");
    var all := ChunksOf(p) + ChunksOf("-");
    forall i | 0 <= i < |all| ensures GoodChunk(all[i]) {
      if i < |ChunksOf(p)| { assert all[i] == ChunksOf(p)[i]; } else { assert all[i] == "-"; }
    }
  }

  /** The name up to its run `k`, and from there. */
  lemma SplitAtRun(n: string, k: nat) returns (p: string, s: string)
    requires k < |ChunksOf(n)|
    ensures n == p + s && ChunksOf(p) == ChunksOf(n)[..k]
    ensures s != [] && ChunksOf(n)[k] != [] && s[0] == ChunksOf(n)[k][0]
    ensures p != [] ==> IsDigit(p[|p| - 1]) != IsDigit(s[0])
  {
    var chunks := ChunksOf(n);
    ChunksAreRuns(n);
    p, s := Concat(chunks[..k]), Concat(chunks[k..]);
    assert chunks == chunks[..k] + chunks[k..];
    ConcatJoin(chunks[..k], chunks[k..]);
    RunsCut(chunks, k);
    RunsOnce(chunks[..k]);
    ConcatStarts(chunks[k..]);
    if p != [] { LastRun(p); }
  }

  lemma RunsCut(chunks: seq<string>, k: nat)
    requires Runs(chunks) && k < |chunks|
    ensures Runs(chunks[..k]) && Runs(chunks[k..]) && Uniform(chunks[k])
  {
  }

  /** Three names each below the next, and the last below the first. */
  ghost predicate Circle(n: string, a: string, b: string) {
    Good(a) && Good(b) && Compare(n, a) == Less && Compare(a, b) == Less && Compare(b, n) == Less
  }

  lemma RunLow(n: string, k: nat)
    requires WithoutV(n) == n && k < |ChunksOf(n)| && AllGood(ChunksOf(n)[..k])
    requires ChunksOf(n)[k] != [] && ChunksOf(n)[k][0] < '-'
    ensures exists a, b :: Circle(n, a, b)
  {
    var p, s := SplitAtRun(n, k);
    WithoutVOnce(n);
    assert p <= n;
    assert Follows(p, s) && Follows(p, "-");
    GoodWithDash(p);
    LowSuffixCircle(p, s);
    assert Circle(n, p + "-", p);
  }

  // --- Numbers that do not fit ---------------------------------------------------------------------

  function Zeros(k: nat): string { seq(k, _ => '0') }

  lemma {:induction false} ZerosAdd(x: string, k: nat)
    requires AllDigits(x)
    ensures AllDigits(x + Zeros(k)) && Value(x + Zeros(k)) == Value(x) * Power10(k)
  {
    var s := x + Zeros(k);
    if k == 0 {
      assert s == x;
    } else {
      ZerosAdd(x, k - 1);
      assert s[..|s| - 1] == x + Zeros(k - 1);
    }
  }

  lemma {:induction false} ZerosOnly(s: string)
    requires AllDigits(s) && forall i :: 0 <= i < |s| ==> s[i] == '0'
    ensures Value(s) == 0
  {
    if s != [] { ZerosOnly(s[..|s| - 1]); }
  }

  lemma {:induction false} ZerosInFront(k: nat, x: string)
    requires AllDigits(x)
    ensures AllDigits(Zeros(k) + x) && Value(Zeros(k) + x) == Value(x)
  {
    var s := Zeros(k) + x;
    if x == [] {
      ZerosOnly(s);
    } else {
      ZerosInFront(k, x[..|x| - 1]);
      assert s[..|s| - 1] == Zeros(k) + x[..|x| - 1];
    }
  }

  /** As a text, a number with some digit but zero is above one that begins with more zeros. */
  lemma {:induction false} ZerosBelow(k: nat, t: string, w: string)
    requires AllDigits(w) && |w| <= k && exists i :: 0 <= i < |w| && w[i] != '0'
    ensures CompareText(Zeros(k) + t, w) == Less
    decreases k
  {
    var s := Zeros(k) + t;
    assert s[0] == '0';
    if w[0] == '0' {
      var i :| 0 <= i < |w| && w[i] != '0';
      assert w[1..][i - 1] == w[i];
      assert s[1..] == Zeros(k - 1) + t;
      ZerosBelow(k - 1, t, w[1..]);
    }
  }

  function Nine(k: nat): string { seq(k, _ => '9') }

  lemma {:induction false} BelowNine(w: string, k: nat)
    requires AllDigits(w) && |w| >= k && exists i :: 0 <= i < k && w[i] != '9'
    ensures CompareText(w, Nine(k)) == Less
    decreases k
  {
    assert Nine(k)[0] == '9' && Nine(k)[1..] == Nine(k - 1);
    if w[0] == '9' {
      var i :| 0 <= i < k && w[i] != '9';
      assert w[1..][i - 1] == w[i];
      BelowNine(w[1..], k - 1);
    }
  }

  /** The greatest number of nineteen digits. */
  const BELOW: string := Nine(19)

  /** The next number, with more zeros in front than `w` has digits. */
  function Above(w: string): string { Zeros(|w|) + ("1" + Zeros(19)) }

  lemma BelowFits()
    ensures Fits(BELOW) && GoodChunk(BELOW) && Value(BELOW) == Power10(19) - 1
  {
    ValueOfNines(BELOW);
    PowersOfTen();
  }

  lemma AboveFits(w: string)
    ensures Fits(Above(w)) && GoodChunk(Above(w)) && Value(Above(w)) == Power10(19)
  {
    assert Value("1") == 1 by { assert "1"[..0] == []; }
    ZerosAdd("1", 19);
    ZerosInFront(|w|, "1" + Zeros(19));
    PowersOfTen();
  }

  /** A number that does not fit is compared as a text: below nineteen nines unless it begins with
      them, and above the next number spelled with zeros enough. */
  lemma BigNumberBetween(w: string)
    requires AllDigits(w) && Value(w) >= U64_END && !Nines(w)
    ensures CompareChunk(w, BELOW) == Less && CompareChunk(BELOW, Above(w)) == Less && CompareChunk(Above(w), w) == Less
  {
    BelowFits();
    AboveFits(w);
    LongNumber(w);
    BelowNine(w, 19);
    ZerosBelow(|w|, "1" + Zeros(19), w);
    TextAndNumber(w, BELOW, Above(w));
  }

  lemma TextAndNumber(w: string, x: string, y: string)
    requires w != [] && AllDigits(w) && Value(w) >= U64_END && Fits(x) && Fits(y) && Value(x) < Value(y)
    requires CompareText(w, x) == Less && CompareText(y, w) == Less
    ensures CompareChunk(w, x) == Less && CompareChunk(x, y) == Less && CompareChunk(y, w) == Less
  {
    NumberParses(w);
    NumberParses(x);
    NumberParses(y);
  }

  lemma NumberParses(w: string)
    requires w != [] && AllDigits(w)
    ensures ParseUnsigned(w, U64_END) == if Value(w) < U64_END then Some(Value(w)) else None
  {
    assert IsDigit(w[0]);
  }

  lemma LongNumber(w: string)
    requires AllDigits(w) && Value(w) >= U64_END
    ensures |w| >= 20 && exists i :: 0 <= i < |w| && w[i] != '0'
  {
    ValueBelow(w);
    PowersOfTen();
    PowerGrows(|w|, 19);
    if forall i :: 0 <= i < |w| ==> w[i] == '0' { ZerosOnly(w); }
  }

  lemma {:induction false} PowerGrows(m: nat, n: nat)
    ensures m <= n ==> Power10(m) <= Power10(n)
  {
    if m < n { PowerGrows(m, n - 1); }
  }

  /** A name with such a number as its first bad run stands in a circle. */
  lemma RunBig(n: string, k: nat)
    requires WithoutV(n) == n && k < |ChunksOf(n)| && AllGood(ChunksOf(n)[..k])
    requires AllDigits(ChunksOf(n)[k]) && Value(ChunksOf(n)[k]) >= U64_END && !Nines(ChunksOf(n)[k])
    ensures exists a, b :: Circle(n, a, b)
  {
    var w := ChunksOf(n)[k];
    BigNumberBetween(w);
    BelowFits();
    AboveFits(w);
    RunBetween(n, k, BELOW, Above(w));
  }

  lemma RunBetween(n: string, k: nat, x: string, y: string)
    requires WithoutV(n) == n && k < |ChunksOf(n)| && AllGood(ChunksOf(n)[..k])
    requires ChunksOf(n)[k] != [] && AllDigits(ChunksOf(n)[k])
    requires GoodChunk(x) && AllDigits(x) && GoodChunk(y) && AllDigits(y)
    requires CompareChunk(ChunksOf(n)[k], x) == Less && CompareChunk(x, y) == Less
    requires CompareChunk(y, ChunksOf(n)[k]) == Less
    ensures exists a, b :: Circle(n, a, b)
  {
    var chunks := ChunksOf(n);
    var a := WithRun(n, k, x);
    var b := WithRun(n, k, y);
    assert chunks == chunks[..k] + chunks[k..];
    RunsInCircle(chunks[..k], chunks[k..], x, y);
    assert Circle(n, a, b);
  }

  lemma RunsInCircle(head: seq<string>, tail: seq<string>, x: string, y: string)
    requires tail != []
    requires CompareChunk(tail[0], x) == Less && CompareChunk(x, y) == Less && CompareChunk(y, tail[0]) == Less
    ensures CompareChunks(head + tail, head + [x]) == Less && CompareChunks(head + [x], head + [y]) == Less
    ensures CompareChunks(head + [y], head + tail) == Less
  {
    CompareSelf(head, tail, [x]);
    CompareSelf(head, [x], [y]);
    CompareSelf(head, [y], tail);
  }

  /** The name up to its run `k`, a number, and another number for it. */
  lemma WithRun(n: string, k: nat, c: string) returns (a: string)
    requires WithoutV(n) == n && k < |ChunksOf(n)| && AllGood(ChunksOf(n)[..k])
    requires ChunksOf(n)[k] != [] && AllDigits(ChunksOf(n)[k]) && GoodChunk(c) && AllDigits(c)
    ensures WithoutV(a) == a && ChunksOf(a) == ChunksOf(n)[..k] + [c] && Good(a)
  {
    var head := ChunksOf(n)[..k];
    ChunksAreRuns(n);
    var p, s := SplitAtRun(n, k);
    if p != [] { LastRun(p); }
    assert head == [] <==> p == [] by { ChunksAreRuns(p); }
    RunsSnoc(head, c);
    ConcatSnoc(head, c);
    a := p + c;
    ChunksAreRuns(p);
    RunsOnce(head + [c]);
    SameStart(n, p, s, c);
  }

  lemma SameStart(n: string, p: string, s: string, c: string)
    requires WithoutV(n) == n && n == p + s && s != [] && IsDigit(s[0]) && c != [] && IsDigit(c[0])
    ensures WithoutV(p + c) == p + c
  {
    if |p| == 1 {
      assert n[0] == p[0] && n[1] == s[0];
    } else if |p| > 1 {
      assert n[0] == p[0] && n[1] == p[1];
    }
  }

  /** After a number that begins with nineteen nines the rest of the name is never looked at. */
  lemma {:induction false} NinesDecide(n: seq<string>, k: nat, a: seq<string>)
    requires k < |n| && AllGood(n[..k]) && Nines(n[k]) && AllGood(a)
    ensures CompareChunks(n, a) == CompareChunks(n[..k + 1], a) != Equal
    decreases k
  {
    if a != [] {
      GoodRest(a);
      if k == 0 {
        FineCompares(n[0], a[0]);
      } else {
        assert n[1..][..k - 1] == n[..k][1..] && n[..k + 1][1..] == n[1..][..k] && n[1..][k - 1] == n[k];
        GoodRest(n[..k]);
        NinesDecide(n[1..], k - 1, a[1..]);
      }
    }
  }

  // --- Which names are in order --------------------------------------------------------------------

  /** The first run that is not good, if there is one, is a number that begins with nineteen nines. */
  predicate Orderly(chunks: seq<string>) {
    chunks == [] || (if GoodChunk(chunks[0]) then Orderly(chunks[1..]) else Nines(chunks[0]))
  }

  lemma {:induction false} OrderlyIs(chunks: seq<string>)
    ensures AllGood(chunks) ==> Orderly(chunks)
    ensures forall k :: 0 <= k < |chunks| && AllGood(chunks[..k]) && !GoodChunk(chunks[k]) ==>
      (Orderly(chunks) <==> Nines(chunks[k]))
  {
    if chunks != [] && GoodChunk(chunks[0]) {
      var rest := chunks[1..];
      OrderlyIs(rest);
      if AllGood(chunks) { GoodRest(chunks); }
      forall k | 0 <= k < |chunks| && AllGood(chunks[..k]) && !GoodChunk(chunks[k])
        ensures Orderly(chunks) <==> Nines(chunks[k])
      {
        assert rest[..k - 1] == chunks[..k][1..] && rest[k - 1] == chunks[k];
        GoodRest(chunks[..k]);
      }
    }
  }

  lemma CutIsFine(chunks: seq<string>, k: nat)
    requires k < |chunks| && AllGood(chunks[..k]) && Nines(chunks[k])
    ensures AllFine(chunks[..k + 1])
  {
    var cut := chunks[..k + 1];
    forall i | 0 <= i < |cut| ensures FineChunk(cut[i]) {
      if i < k { assert cut[i] == chunks[..k][i]; }
    }
  }

  lemma NinesBetween(chunks: seq<string>, k: nat, xs: seq<string>, ys: seq<string>)
    requires k < |chunks| && AllGood(chunks[..k]) && Nines(chunks[k]) && AllGood(xs) && AllGood(ys)
    requires CompareChunks(chunks, xs) != Greater && CompareChunks(xs, ys) != Greater
    ensures CompareChunks(ys, chunks) == Greater
  {
    var cut := chunks[..k + 1];
    CutIsFine(chunks, k);
    NinesDecide(chunks, k, xs);
    NinesDecide(chunks, k, ys);
    ChunksTransitive(cut, xs, ys);
    ChunksFlip(chunks, ys);
  }

  lemma NinesInOrder(n: string, k: nat)
    requires WithoutV(n) == n && k < |ChunksOf(n)| && AllGood(ChunksOf(n)[..k]) && Nines(ChunksOf(n)[k])
    ensures InOrder(n)
  {
    forall a, b | Good(a) && Good(b) && Compare(n, a) != Greater && Compare(a, b) != Greater
      ensures Compare(b, n) == Greater
    {
      NinesBetween(ChunksOf(n), k, ChunksOf(WithoutV(a)), ChunksOf(WithoutV(b)));
    }
  }

  lemma GoodInOrder(n: string)
    requires Good(n)
    ensures InOrder(n)
  {
    forall a, b | Good(a) && Good(b) && Compare(n, a) != Greater && Compare(a, b) != Greater && Compare(b, n) != Greater
      ensures Compare(n, a) == Compare(a, b) == Compare(b, n) == Equal
    {
      FineTransitive(n, a, b);
      Flips(n, b);
    }
  }

  /** A name that is not orderly stands in a circle of three names, each below the next. */
  lemma CircleOf(n: string)
    requires WithoutV(n) == n && !Orderly(ChunksOf(n))
    ensures exists a, b :: Circle(n, a, b)
  {
    var chunks := ChunksOf(n);
    ChunksAreRuns(n);
    OrderlyIs(chunks);
    var k := FirstBad(chunks);
    assert Uniform(chunks[k]);
    if chunks[k][0] < '-' {
      RunLow(n, k);
    } else {
      RunBig(n, k);
    }
  }

  /** Main theorem, for every name: it keeps the order of the good names exactly if its first run that
      is not good, if any, is a number that begins with nineteen nines. */
  lemma InOrderIff(version: string)
    ensures InOrder(version) <==> Orderly(ChunksOf(WithoutV(version)))
  {
    var n := WithoutV(version);
    WithoutVOnce(version);
    var chunks := ChunksOf(n);
    if !Orderly(chunks) {
      CircleOf(n);
      var a, b :| Circle(n, a, b);
      assert Compare(version, a) == Less && Compare(a, b) == Less && Compare(b, version) == Less;
    } else if AllGood(chunks) {
      GoodInOrder(version);
    } else {
      OrderlyIs(chunks);
      var k := FirstBad(chunks);
      NinesInOrder(n, k);
      forall a, b ensures Compare(n, a) == Compare(version, a) && Compare(b, n) == Compare(b, version) {}
    }
  }

  /** `is_valid_version`. */
  predicate ValidName(version: string) {
    && 0 < |version| <= 64 && version[0] != '.'
    && forall i :: 0 <= i < |version| ==>
      (IsDigit(version[i]) || 'a' <= version[i] <= 'z' || 'A' <= version[i] <= 'Z'
       || version[i] in {'.', '-', '_', '+'})
  }

  /** Of the names the program takes, those without a plus are in order. */
  lemma PlainNamesGood(version: string)
    requires ValidName(version) && '+' !in version && Small(version)
    ensures Good(version)
  {
    var n := WithoutV(version);
    var chunks := ChunksOf(n);
    ChunksAreRuns(n);
    forall i | 0 <= i < |chunks| ensures GoodChunk(chunks[i]) {
      var p, s := SplitAtRun(n, i);
      assert Uniform(chunks[i]) && chunks[i][0] == n[|p|];
      CharWithoutV(version, |p|);
    }
  }

  lemma CharWithoutV(version: string, i: nat)
    requires i < |WithoutV(version)|
    ensures WithoutV(version)[i] in version
  {
    var n := WithoutV(version);
    assert n[i] == version[i + (if n == version then 0 else 1)];
  }

  lemma OneNumber(w: string)
    requires w != [] && AllDigits(w)
    ensures WithoutV(w) == w && ChunksOf(w) == [w]
  {
    assert Uniform(w);
    OneRun(w);
  }

  /** A name the program takes, of one number that does not fit, and the circle it stands in. */
  lemma BigNumberCircle() returns (w: string, a: string, b: string)
    ensures ValidName(w) && w == "19" + Zeros(18) && Circle(w, a, b)
  {
    w := "19" + Zeros(18);
    PowersOfTen();
    NineteenValue(18);
    OneNumber(w);
    assert w[0] == '1';
    OneRunCircle(w);
    a, b :| Circle(w, a, b);
  }

  lemma OneRunCircle(w: string)
    requires AllDigits(w) && Value(w) >= U64_END && !Nines(w) && WithoutV(w) == w && ChunksOf(w) == [w]
    ensures exists a, b :: Circle(w, a, b)
  {
    assert ChunksOf(w)[..0] == [];
    RunBig(w, 0);
  }

  lemma NineteenValue(k: nat)
    requires 10 * Power10(k) == 10_000_000_000_000_000_000
    ensures AllDigits("19" + Zeros(k)) && Value("19" + Zeros(k)) >= U64_END
  {
    ZerosAdd("19", k);
    assert Value("19") == 19 by { assert "19"[..1] == "1" && "1"[..0] == []; }
  }

  /** Another one that stands in none. */
  lemma BigNumberInOrder() returns (w: string)
    ensures ValidName(w) && w == Nine(20) && !Small(w) && InOrder(w)
  {
    w := Nine(20);
    OneNumber(w);
    NinesDoNotFit(w);
    assert ChunksOf(w)[..0] == [];
    NinesInOrder(w, 0);
  }
}
