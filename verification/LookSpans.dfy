/** The parts of a console line's look (`looks.rs`): how they cover a text and how they are read.

    Lengths are UTF-16 code units; JSON is a value, not a text. */
module LookSpans {
  import opened Utf16
  import opened Wrappers

  const U64_END: nat := 0x1_0000_0000_0000_0000

  datatype Json =
    | Null
    | Bool(b: bool)
    | Int(n: int)
    | Float(r: real)
    | Str(s: string)
    | Arr(items: seq<Json>)
    | Obj(fields: map<string, Json>)

  datatype Span = Span(units: nat, code: string, ev: Option<nat>)

  // --- Units and boundaries ----------------------------------------------------------------------

  lemma {:induction false} UnitsGrow(text: string, i: nat, j: nat)
    requires i <= j <= |text|
    ensures Units(text[..i]) <= Units(text[..j]) && (i < j ==> Units(text[..i]) < Units(text[..j]))
  {
    if i < j {
      UnitsGrow(text, i, j - 1);
      UnitsNext(text, j - 1);
    }
  }

  /** A character begins `at` units into the text, or the text ends there. */
  ghost predicate Boundary(text: string, at: nat) {
    exists i :: 0 <= i <= |text| && Units(text[..i]) == at
  }

  /** The units of the parts together. */
  function Width(spans: seq<Span>): nat {
    if spans == [] then 0 else Width(spans[..|spans| - 1]) + spans[|spans| - 1].units
  }

  lemma WidthNext(spans: seq<Span>, k: nat)
    requires k < |spans|
    ensures Width(spans[..k + 1]) == Width(spans[..k]) + spans[k].units
  {
    assert spans[..k + 1][..k] == spans[..k];
  }

  /** The parts cover the text exactly, each ending where a character does. */
  ghost predicate Covers(spans: seq<Span>, text: string) {
    && Width(spans) == Units(text)
    && forall k :: 0 <= k <= |spans| ==> Boundary(text, Width(spans[..k]))
  }

  // --- What covering means: the text falls into pieces, one for each part -------------------------

  function Concat(pieces: seq<string>): string {
    if pieces == [] then "" else Concat(pieces[..|pieces| - 1]) + pieces[|pieces| - 1]
  }

  ghost predicate Cuts(spans: seq<Span>, text: string, pieces: seq<string>) {
    && |pieces| == |spans| && Concat(pieces) == text
    && forall k :: 0 <= k < |spans| ==> Units(pieces[k]) == spans[k].units
  }

  lemma {:induction false} CutsCover(spans: seq<Span>, text: string, pieces: seq<string>)
    requires Cuts(spans, text, pieces)
    ensures Covers(spans, text)
  {
    if spans == [] {
      assert text[..0] == [];
    } else {
      var n := |spans| - 1;
      var before := Concat(pieces[..n]);
      CutsCover(spans[..n], before, pieces[..n]);
      UnitsJoin(before, pieces[n]);
      forall k | 0 <= k <= |spans| ensures Boundary(text, Width(spans[..k])) {
        if k <= n {
          assert spans[..n][..k] == spans[..k];
          BoundaryKept(before, pieces[n], Width(spans[..k]));
        } else {
          assert text[..|text|] == text && spans[..k] == spans;
        }
      }
    }
  }

  lemma BoundaryKept(before: string, rest: string, at: nat)
    requires Boundary(before, at)
    ensures Boundary(before + rest, at)
  {
    var i :| 0 <= i <= |before| && Units(before[..i]) == at;
    assert (before + rest)[..i] == before[..i];
  }

  lemma BoundaryWithin(before: string, rest: string, at: nat)
    requires Boundary(before + rest, at) && at <= Units(before)
    ensures Boundary(before, at)
  {
    var text := before + rest;
    var i :| 0 <= i <= |text| && Units(text[..i]) == at;
    assert text[..|before|] == before;
    if i > |before| {
      UnitsGrow(text, |before|, i);
    }
    assert text[..i] == before[..i];
  }

  /** Covering is being cut into pieces. */
  lemma {:induction false} CoversMeans(spans: seq<Span>, text: string)
    ensures Covers(spans, text) <==> exists pieces :: Cuts(spans, text, pieces)
  {
    if pieces :| Cuts(spans, text, pieces) {
      CutsCover(spans, text, pieces);
    }
    if Covers(spans, text) {
      var pieces := PiecesOf(spans, text);
    }
  }

  lemma {:induction false} PiecesOf(spans: seq<Span>, text: string) returns (pieces: seq<string>)
    requires Covers(spans, text)
    ensures Cuts(spans, text, pieces)
  {
    if spans == [] {
      pieces := [];
      UnitsGrow(text, 0, |text|);
      assert text[..|text|] == text && text[..0] == [];
    } else {
      var n := |spans| - 1;
      var i := LastStart(spans, text);
      var before := PiecesOf(spans[..n], text[..i]);
      pieces := before + [text[i..]];
      assert pieces[..n] == before && text == text[..i] + text[i..];
    }
  }

  /** Where the last part's text begins. */
  lemma LastStart(spans: seq<Span>, text: string) returns (i: nat)
    requires spans != [] && Covers(spans, text)
    ensures i <= |text| && Covers(spans[..|spans| - 1], text[..i])
    ensures Units(text[i..]) == spans[|spans| - 1].units
  {
    var n := |spans| - 1;
    assert Boundary(text, Width(spans[..n]));
    i :| i <= |text| && Units(text[..i]) == Width(spans[..n]);
    assert text == text[..i] + text[i..];
    UnitsJoin(text[..i], text[i..]);
    forall k | 0 <= k <= n ensures Boundary(text[..i], Width(spans[..n][..k])) {
      assert spans[..n][..k] == spans[..k];
      WidthGrows(spans, k, n);
      BoundaryWithin(text[..i], text[i..], Width(spans[..k]));
    }
  }

  lemma {:induction false} WidthGrows(spans: seq<Span>, j: nat, k: nat)
    requires j <= k <= |spans|
    ensures Width(spans[..j]) <= Width(spans[..k])
  {
    if j < k {
      WidthGrows(spans, j, k - 1);
      WidthNext(spans, k - 1);
    }
  }

  // --- Style codes -------------------------------------------------------------------------------

  predicate Hex(c: char) { '0' <= c <= '9' || 'a' <= c <= 'f' }

  predicate Colour(s: string) {
    || s == []
    || (|s| == 1 && Hex(s[0]))
    || (|s| == 7 && s[0] == '#' && forall i :: 1 <= i < 7 ==> Hex(s[i]))
  }

  predicate Flags(s: string) {
    && (forall i :: 0 <= i < |s| ==> 'k' <= s[i] <= 'o')
    && (forall i, j :: 0 <= i < j < |s| ==> s[i] < s[j])
  }

  /** A colour, then flags of `klmno` in that order. */
  ghost predicate StyleCode(code: string) {
    exists n :: 0 <= n <= |code| && Colour(code[..n]) && Flags(code[n..])
  }

  /** Where the colour ends is seen from the first character. */
  function ColourEnd(code: string): nat {
    if code != [] && code[0] == '#' then 7 else if code != [] && Hex(code[0]) then 1 else 0
  }

  lemma ColourEnds(code: string, n: nat)
    requires n <= |code| && Colour(code[..n]) && Flags(code[n..])
    ensures n == ColourEnd(code)
  {
    if n == 0 && code != [] {
      assert code[0..][0] == code[0];
    } else if n > 0 {
      assert code[..n][0] == code[0];
    }
  }

  lemma StyleCodeIs(code: string)
    ensures StyleCode(code) <==>
      ColourEnd(code) <= |code| && Colour(code[..ColourEnd(code)]) && Flags(code[ColourEnd(code)..])
  {
    if StyleCode(code) {
      var n :| 0 <= n <= |code| && Colour(code[..n]) && Flags(code[n..]);
      ColourEnds(code, n);
    }
  }

  /** The flag loop of `is_style_code`. */
  method FlagsInOrder(flags: string) returns (ok: bool)
    ensures ok <==> Flags(flags)
  {
    var next := 'k' as int;
    var i := 0;
    while i < |flags|
      invariant 0 <= i <= |flags|
      invariant forall a :: 0 <= a < i ==> 'k' <= flags[a] <= 'o'
      invariant forall a, b :: 0 <= a < b < i ==> flags[a] < flags[b]
      invariant next == if i == 0 then 'k' as int else flags[i - 1] as int + 1
    {
      if !(next <= flags[i] as int <= 'o' as int) {
        return false;
      }
      next := flags[i] as int + 1;
      i := i + 1;
    }
    return true;
  }

  /** `is_style_code`. */
  method IsStyleCode(code: string) returns (ok: bool)
    ensures ok <==> StyleCode(code)
  {
    StyleCodeIs(code);
    var at := 0;
    if |code| > 0 && code[0] == '#' {
      if |code| < 7 || exists i :: 1 <= i < 7 && !Hex(code[i]) {
        assert |code| >= 7 ==> forall i :: 1 <= i < 7 ==> code[..7][i] == code[i];
        return false;
      }
      at := 7;
    } else if |code| > 0 && Hex(code[0]) {
      at := 1;
    }
    ok := FlagsInOrder(code[at..]);
  }

  // --- Reading parts -----------------------------------------------------------------------------

  function SpanJson(span: Span): Json {
    match span.ev
    case Some(index) => Arr([Int(span.units), Str(span.code), Int(index)])
    case None => Arr([Int(span.units), Str(span.code)])
  }

  /** `spans_json`. */
  function SpansJson(spans: seq<Span>): Json {
    Arr(seq(|spans|, i requires 0 <= i < |spans| => SpanJson(spans[i])))
  }

  lemma SpanJsonInjective(a: Span, b: Span)
    requires SpanJson(a) == SpanJson(b)
    ensures a == b
  {
    assert SpanJson(a).items[0] == SpanJson(b).items[0] && SpanJson(a).items[1] == SpanJson(b).items[1];
    assert |SpanJson(a).items| == |SpanJson(b).items|;
    if |SpanJson(a).items| == 3 { assert SpanJson(a).items[2] == SpanJson(b).items[2]; }
  }

  lemma SpansJsonInjective(a: seq<Span>, b: seq<Span>)
    requires SpansJson(a) == SpansJson(b)
    ensures a == b
  {
    assert |SpansJson(a).items| == |a| && |SpansJson(b).items| == |b|;
    forall i | 0 <= i < |a| ensures a[i] == b[i] {
      assert SpansJson(a).items[i] == SpanJson(a[i]) && SpansJson(b).items[i] == SpanJson(b[i]);
      SpanJsonInjective(a[i], b[i]);
    }
  }

  ghost predicate SpanOk(span: Span, events: nat) {
    && 0 < span.units < U64_END && StyleCode(span.code)
    && (span.ev.Some? ==> span.ev.value < events && span.ev.value < U64_END)
  }

  ghost predicate SpansOk(spans: seq<Span>, text: string, max: nat, events: nat) {
    && 1 <= |spans| <= max
    && (forall i :: 0 <= i < |spans| ==> SpanOk(spans[i], events))
    && Covers(spans, text)
  }

  /** The parts written as `value` that are right for the text. */
  ghost function SpansOf(value: Json, text: string, max: nat, events: nat): Option<seq<Span>> {
    if exists spans :: value == SpansJson(spans) && SpansOk(spans, text, max, events) then
      var spans :| value == SpansJson(spans) && SpansOk(spans, text, max, events);
      Some(spans)
    else None
  }

  lemma SpansRead(spans: seq<Span>, text: string, max: nat, events: nat)
    requires SpansOk(spans, text, max, events)
    ensures SpansOf(SpansJson(spans), text, max, events) == Some(spans)
  {
    forall other | SpansJson(spans) == SpansJson(other) ensures spans == other { SpansJsonInjective(spans, other); }
  }

  /** `part` is what the JSON reads as. */
  ghost predicate ReadsAs(part: Option<Span>, value: Json, events: nat) {
    && (part.Some? ==> value == SpanJson(part.value) && SpanOk(part.value, events))
    && (part.None? ==> forall s :: SpanJson(s) == value ==> !SpanOk(s, events))
  }

  /** One part of `read_spans`. */
  method ReadSpan(part: Json, events: nat) returns (span: Option<Span>)
    ensures ReadsAs(span, part, events)
  {
    if !part.Arr? || !(2 <= |part.items| <= 3) {
      return None;
    }
    if !part.items[0].Int? || !(0 <= part.items[0].n < U64_END) || !part.items[1].Str? {
      return None;
    }
    var n, code := part.items[0].n, part.items[1].s;
    var styled := IsStyleCode(code);
    if n == 0 || !styled {
      return None;
    }
    if |part.items| == 2 {
      assert part.items == [Int(n), Str(code)];
      return Some(Span(n, code, None));
    }
    if !part.items[2].Int? || !(0 <= part.items[2].n < U64_END) || part.items[2].n >= events {
      return None;
    }
    var index := part.items[2].n;
    assert part.items == [Int(n), Str(code), Int(index)];
    return Some(Span(n, code, Some(index)));
  }

  /** Where each character starts. */
  method Starts(text: string) returns (starts: seq<nat>, total: nat)
    ensures total == Units(text) && |starts| == |text|
    ensures forall i :: 0 <= i < |text| ==> starts[i] == Units(text[..i])
    ensures forall i, j :: 0 <= i < j < |starts| ==> starts[i] < starts[j]
  {
    starts, total := [], 0;
    for k := 0 to |text|
      invariant |starts| == k && total == Units(text[..k])
      invariant forall i :: 0 <= i < k ==> starts[i] == Units(text[..i])
    {
      UnitsNext(text, k);
      starts := starts + [total];
      total := total + UnitsOf(text[k]);
    }
    assert text[..|text|] == text;
    forall i, j | 0 <= i < j < |starts| ensures starts[i] < starts[j] { UnitsGrow(text, i, j); }
  }

  lemma BoundaryIsStart(text: string, starts: seq<nat>, at: nat)
    requires |starts| == |text| && forall i :: 0 <= i < |text| ==> starts[i] == Units(text[..i])
    ensures Boundary(text, at) <==> at == Units(text) || at in starts
    ensures Boundary(text, at) ==> at <= Units(text)
  {
    assert text[..|text|] == text;
    if Boundary(text, at) {
      var i :| 0 <= i <= |text| && Units(text[..i]) == at;
      UnitsGrow(text, i, |text|);
      if i < |text| { assert starts[i] == at; }
    }
    if at in starts {
      var i :| 0 <= i < |starts| && starts[i] == at;
      assert Units(text[..i]) == at;
    }
  }

  /** Parts read one by one are the first parts of any that write the same. */
  lemma SamePrefix(s: seq<Span>, spans: seq<Span>, items: seq<Json>)
    requires SpansJson(s) == Arr(items) && |spans| <= |items|
    requires forall i :: 0 <= i < |spans| ==> items[i] == SpanJson(spans[i])
    ensures |s| == |items| && s[..|spans|] == spans
  {
    assert |SpansJson(s).items| == |s|;
    forall i | 0 <= i < |spans| ensures s[i] == spans[i] {
      assert SpansJson(s).items[i] == SpanJson(s[i]);
      SpanJsonInjective(s[i], spans[i]);
    }
  }

  /** A part that does not read, or ends inside a character, spoils them all. */
  lemma PartSpoils(s: seq<Span>, spans: seq<Span>, items: seq<Json>, part: Option<Span>, text: string,
      max: nat, events: nat)
    requires SpansJson(s) == Arr(items) && |spans| < |items|
    requires forall i :: 0 <= i < |spans| ==> items[i] == SpanJson(spans[i])
    requires part.None? ==> forall x :: SpanJson(x) == items[|spans|] ==> !SpanOk(x, events)
    requires part.Some? ==> items[|spans|] == SpanJson(part.value) && !Boundary(text, Width(spans) + part.value.units)
    ensures !SpansOk(s, text, max, events)
  {
    var k := |spans|;
    SamePrefix(s, spans, items);
    assert SpansJson(s).items[k] == SpanJson(s[k]);
    if part.Some? {
      SpanJsonInjective(s[k], part.value);
      WidthNext(s, k);
    }
  }

  ghost predicate FirstParts(spans: seq<Span>, items: seq<Json>, events: nat) {
    && |spans| <= |items|
    && (forall i :: 0 <= i < |spans| ==> items[i] == SpanJson(spans[i]) && SpanOk(spans[i], events))
  }

  ghost predicate EndAtBoundaries(spans: seq<Span>, text: string) {
    forall k :: 0 <= k <= |spans| ==> Boundary(text, Width(spans[..k]))
  }

  /** `spans` are the first parts of `items`, and end where characters do. */
  ghost predicate ReadSoFar(spans: seq<Span>, items: seq<Json>, text: string, events: nat) {
    FirstParts(spans, items, events) && EndAtBoundaries(spans, text)
  }

  lemma NoneRead(spans: seq<Span>, items: seq<Json>, part: Option<Span>, text: string, max: nat, events: nat)
    requires ReadSoFar(spans, items, text, events) && |spans| < |items| && ReadsAs(part, items[|spans|], events)
    requires part.Some? ==> !Boundary(text, Width(spans) + part.value.units)
    ensures SpansOf(Arr(items), text, max, events) == None
  {
    forall s | SpansJson(s) == Arr(items) ensures !SpansOk(s, text, max, events) {
      PartSpoils(s, spans, items, part, text, max, events);
    }
  }

  lemma AllRead(spans: seq<Span>, items: seq<Json>, text: string, max: nat, events: nat)
    requires ReadSoFar(spans, items, text, events) && 1 <= |spans| == |items| <= max
    ensures SpansOf(Arr(items), text, max, events) == if Width(spans) == Units(text) then Some(spans) else None
  {
    forall s | SpansJson(s) == Arr(items) ensures s == spans {
      SamePrefix(s, spans, items);
    }
    assert items == SpansJson(spans).items;
  }

  lemma WrongCount(items: seq<Json>, text: string, max: nat, events: nat)
    requires items == [] || |items| > max
    ensures SpansOf(Arr(items), text, max, events) == None
  {
    forall s | SpansJson(s) == Arr(items) ensures !SpansOk(s, text, max, events) {
      assert |SpansJson(s).items| == |s|;
    }
  }

  /** `read_spans`. */
  method ReadSpans(value: Json, text: string, max: nat, events: nat) returns (found: Option<seq<Span>>)
    ensures found == SpansOf(value, text, max, events)
  {
    if !value.Arr? {
      return None;
    }
    var items := value.items;
    if items == [] || |items| > max {
      WrongCount(items, text, max, events);
      return None;
    }
    var starts, total := Starts(text);
    var spans: seq<Span> := [];
    var at := 0;
    StartIsBoundary(text);
    while |spans| < |items|
      invariant ReadSoFar(spans, items, text, events) && at == Width(spans)
      decreases |items| - |spans|
    {
      var part := ReadSpan(items[|spans|], events);
      if part.None? {
        NoneRead(spans, items, part, text, max, events);
        return None;
      }
      at := at + part.value.units;
      BoundaryIsStart(text, starts, at);
      if at > total || (at < total && at !in starts) {
        NoneRead(spans, items, part, text, max, events);
        return None;
      }
      Appended(spans, part.value, items, text, events);
      spans := spans + [part.value];
    }
    AllRead(spans, items, text, max, events);
    return if at == total then Some(spans) else None;
  }

  lemma StartIsBoundary(text: string)
    ensures Boundary(text, 0)
  {
    assert text[..0] == [];
  }

  lemma WidthAfter(spans: seq<Span>, span: Span)
    ensures Width(spans + [span]) == Width(spans) + span.units
  {
    assert (spans + [span])[..|spans|] == spans;
  }

  lemma BoundariesNext(spans: seq<Span>, span: Span, text: string)
    requires EndAtBoundaries(spans, text) && Boundary(text, Width(spans) + span.units)
    ensures EndAtBoundaries(spans + [span], text)
  {
    var more := spans + [span];
    WidthAfter(spans, span);
    forall k | 0 <= k <= |more| ensures Boundary(text, Width(more[..k])) {
      FirstOf(spans, span, k);
    }
  }

  lemma FirstOf(spans: seq<Span>, span: Span, k: nat)
    requires k <= |spans| + 1
    ensures (spans + [span])[..k] == if k <= |spans| then spans[..k] else spans + [span]
  {
  }

  lemma FirstPartsNext(spans: seq<Span>, span: Span, items: seq<Json>, events: nat)
    requires FirstParts(spans, items, events) && |spans| < |items| && ReadsAs(Some(span), items[|spans|], events)
    ensures FirstParts(spans + [span], items, events)
  {
  }

  lemma Appended(spans: seq<Span>, span: Span, items: seq<Json>, text: string, events: nat)
    requires ReadSoFar(spans, items, text, events) && |spans| < |items|
    requires ReadsAs(Some(span), items[|spans|], events) && Boundary(text, Width(spans) + span.units)
    ensures ReadSoFar(spans + [span], items, text, events) && Width(spans + [span]) == Width(spans) + span.units
  {
    WidthAfter(spans, span);
    FirstPartsNext(spans, span, items, events);
    BoundariesNext(spans, span, text);
  }
}
