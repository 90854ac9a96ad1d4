/** What masking leaves of a line (`console.rs`, `mask` and `push_secret`): nothing but the occurrences
    goes, and of commands that contain each other the longest goes first. */
module MaskOrder {
  import opened Masking
  import opened Wrappers

  // --- Replacing, piece by piece -----------------------------------------------------------------

  /** Every occurrence replaced, from left to right. */
  function Replaced(fold: Fold, text: string, needle: string, replacement: string): string
    requires needle != []
    decreases |text|
  {
    var found := Find(fold, text, needle, 0);
    if found.None? then text
    else text[..found.value] + replacement + Replaced(fold, text[found.value + |needle|..], needle, replacement)
  }

  lemma {:induction false} FindBehind(fold: Fold, p: string, s: string, needle: string, from: nat)
    requires from <= |s| + 1
    ensures Find(fold, p + s, needle, |p| + from) ==
      match Find(fold, s, needle, from) case Some(at) => Some(|p| + at) case None => None
    decreases |s| + 1 - from
  {
    if from <= |s| {
      OccursAfter(fold, p, s, needle, |p| + from);
      FindBehind(fold, p, s, needle, from + 1);
    }
  }

  lemma ReplacedStep(fold: Fold, text: string, needle: string, replacement: string, at: nat, rest: string)
    requires needle != [] && Find(fold, text, needle, 0) == Some(at) && rest == text[at + |needle|..]
    ensures Replaced(fold, text, needle, replacement) ==
            text[..at] + replacement + Replaced(fold, rest, needle, replacement)
  {
  }

  lemma SpliceBehind(p: string, s: string, replacement: string, at: nat, end: nat)
    requires at <= end <= |s|
    ensures (p + s)[..|p| + at] + replacement + (p + s)[|p| + end..] == (p + s[..at] + replacement) + s[end..]
  {
    assert (p + s)[..|p| + at] == p + s[..at] && (p + s)[|p| + end..] == s[end..];
  }

  lemma LoopEnds(fold: Fold, text: string, p: string, s: string, needle: string, replacement: string)
    requires needle != [] && text == p + s && Find(fold, s, needle, 0).None?
    ensures ReplaceFrom(fold, text, needle, replacement, |p|) == text
  {
    FindBehind(fold, p, s, needle, 0);
  }

  lemma FoundBehind(fold: Fold, text: string, p: string, s: string, needle: string, n: nat)
    requires text == p + s && n == |p|
    ensures Find(fold, text, needle, n) ==
      match Find(fold, s, needle, 0) case Some(at) => Some(n + at) case None => None
  {
    FindBehind(fold, p, s, needle, 0);
    assert |p| + 0 == n;
  }

  lemma LoopFinds(fold: Fold, text: string, p: string, s: string, needle: string, at: nat)
    requires text == p + s && Find(fold, s, needle, 0) == Some(at)
    ensures SpanOf(Find(fold, text, needle, |p|), needle) == Some((|p| + at, |p| + at + |needle|))
  {
    FoundBehind(fold, text, p, s, needle, |p|);
  }

  lemma LoopStep(fold: Fold, text: string, p: string, s: string, needle: string, replacement: string, at: nat,
      start: nat, end: nat, next: string)
    requires needle != [] && text == p + s && Find(fold, s, needle, 0) == Some(at)
    requires start == |p| + at && end == start + |needle| && at + |needle| <= |s|
    requires next == (p + s[..at] + replacement) + s[at + |needle|..]
    ensures ReplaceFrom(fold, text, needle, replacement, |p|) ==
            ReplaceFrom(fold, next, needle, replacement, start + |replacement|)
  {
    assert next == text[..start] + replacement + text[end..] by { SpliceBehind(p, s, replacement, at, at + |needle|); }
    assert SpanOf(Find(fold, text, needle, |p|), needle) == Some((start, end)) by {
      LoopFinds(fold, text, p, s, needle, at);
    }
    ReplaceOnceTo(fold, text, needle, replacement, |p|, start, end, next);
  }

  lemma ReplaceOnceTo(fold: Fold, text: string, needle: string, replacement: string, from: nat, start: nat, end: nat,
      next: string)
    requires needle != [] && SpanOf(Find(fold, text, needle, from), needle) == Some((start, end))
    requires start <= end <= |text| && next == text[..start] + replacement + text[end..]
    ensures ReplaceFrom(fold, text, needle, replacement, from) ==
            ReplaceFrom(fold, next, needle, replacement, start + |replacement|)
  {
    ReplaceOnce(fold, text, needle, replacement, from, start, end);
  }

  lemma LoopGoesOn(fold: Fold, text: string, p: string, s: string, needle: string, replacement: string, at: nat,
      p': string, s': string, out: string)
    requires needle != [] && text == p + s && Find(fold, s, needle, 0) == Some(at) && at + |needle| <= |s|
    requires p' == p + s[..at] + replacement && s' == s[at + |needle|..]
    requires ReplaceFrom(fold, p' + s', needle, replacement, |p'|) == out
    ensures ReplaceFrom(fold, text, needle, replacement, |p|) == out
  {
    var start, end := |p| + at, |p| + at + |needle|;
    assert |p'| == start + |replacement|;
    LoopStep(fold, text, p, s, needle, replacement, at, start, end, p' + s');
  }

  lemma ReplacedGoesOn(fold: Fold, p: string, s: string, needle: string, replacement: string, at: nat, p': string,
      s': string, more: string)
    requires needle != [] && Find(fold, s, needle, 0) == Some(at) && at + |needle| <= |s|
    requires p' == p + s[..at] + replacement && s' == s[at + |needle|..]
    requires more == Replaced(fold, s', needle, replacement)
    ensures p + Replaced(fold, s, needle, replacement) == p' + more
  {
    ReplacedStep(fold, s, needle, replacement, at, s');
    Joined(p, s[..at], replacement, more);
  }

  /** The loop that replaces in place leaves what is before it, and replaces the rest. */
  lemma {:induction false} ReplaceFromIs(fold: Fold, text: string, p: string, s: string, needle: string,
      replacement: string)
    requires needle != [] && text == p + s
    ensures ReplaceFrom(fold, text, needle, replacement, |p|) == p + Replaced(fold, s, needle, replacement)
    decreases |s|
  {
    match Find(fold, s, needle, 0) {
      case None => LoopEnds(fold, text, p, s, needle, replacement);
      case Some(at) =>
        var p', s' := p + s[..at] + replacement, s[at + |needle|..];
        var more := Replaced(fold, s', needle, replacement);
        ReplaceFromIs(fold, p' + s', p', s', needle, replacement);
        LoopGoesOn(fold, text, p, s, needle, replacement, at, p', s', p' + more);
        ReplacedGoesOn(fold, p, s, needle, replacement, at, p', s', more);
    }
  }

  lemma Joined(a: string, b: string, c: string, d: string)
    ensures a + b + c + d == a + (b + c + d)
  {
  }

  lemma Regroup(a: string, b: string, c: string)
    ensures a + b + c == a + (b + c)
  {
  }

  lemma NothingBefore(s: string)
    ensures [] + s == s
  {
  }

  lemma ReplaceIs(fold: Fold, text: string, needle: string, replacement: string)
    requires needle != []
    ensures ReplaceFrom(fold, text, needle, replacement, 0) == Replaced(fold, text, needle, replacement)
  {
    NothingBefore(text);
    ReplaceFromIs(fold, text, [], text, needle, replacement);
    NothingBefore(Replaced(fold, text, needle, replacement));
  }

  lemma {:induction false} ReplaceAllIs(text: string, word: string)
    requires word != []
    ensures ReplaceAll(text, word) == Replaced(EXACT, text, word, MASK)
    decreases |text|
  {
    if Find(EXACT, text, word, 0).Some? {
      ReplaceAllIs(text[Find(EXACT, text, word, 0).value + |word|..], word);
    }
  }

  // --- Nothing else goes -------------------------------------------------------------------------

  /** The same texts, ignoring case. */
  predicate Alike(fold: Fold, a: string, b: string) { |a| == |b| && OccursAt(fold, a, b, 0) }

  /** `pieces`, with one of `found` between each two. */
  function Woven(pieces: seq<string>, found: seq<string>): string
    requires |pieces| == |found| + 1
  {
    if found == [] then pieces[0] else pieces[0] + found[0] + Woven(pieces[1..], found[1..])
  }

  function Same(n: nat, s: string): seq<string> { seq(n, _ => s) }

  /** The text falls into pieces between occurrences, each the first one in what is left. */
  ghost predicate CutAtFirst(fold: Fold, needle: string, pieces: seq<string>, found: seq<string>)
    requires |pieces| == |found| + 1
  {
    && (forall i :: 0 <= i < |found| ==> Alike(fold, found[i], needle))
    && (forall i :: 0 <= i < |found| ==>
          FreeIn(fold, Woven(pieces[i..], found[i..]), needle, 0, |pieces[i]|))
    && Free(fold, pieces[|found|], needle)
  }

  ghost predicate OnlyThoseGo(fold: Fold, text: string, needle: string, replacement: string, out: string) {
    exists pieces, found :: ThoseGo(fold, text, needle, replacement, out, pieces, found)
  }

  ghost predicate ThoseGo(fold: Fold, text: string, needle: string, replacement: string, out: string,
      pieces: seq<string>, found: seq<string>)
  {
    && |pieces| == |found| + 1 && CutAtFirst(fold, needle, pieces, found)
    && text == Woven(pieces, found) && out == Woven(pieces, Same(|found|, replacement))
  }

  /** Main theorem: replacing takes away the occurrences, found from left to right, puts the
      replacement in the place of each, and leaves everything between them. */
  lemma {:induction false} ReplacedMeans(fold: Fold, text: string, needle: string, replacement: string)
    requires needle != []
    ensures OnlyThoseGo(fold, text, needle, replacement, Replaced(fold, text, needle, replacement))
    decreases |text|
  {
    FindIsFirst(fold, text, needle, 0);
    match Find(fold, text, needle, 0) {
      case None => NothingFound(fold, text, needle, replacement);
      case Some(at) =>
        var rest := text[at + |needle|..];
        ReplacedMeans(fold, rest, needle, replacement);
        ReplacedStep(fold, text, needle, replacement, at, rest);
        var out := Replaced(fold, rest, needle, replacement);
        var pieces, found :| ThoseGo(fold, rest, needle, replacement, out, pieces, found);
        OneMoreCut(fold, text, needle, replacement, at, pieces, found, Replaced(fold, text, needle, replacement));
    }
  }

  lemma NothingFound(fold: Fold, text: string, needle: string, replacement: string)
    requires Free(fold, text, needle)
    ensures OnlyThoseGo(fold, text, needle, replacement, text)
  {
    assert CutAtFirst(fold, needle, [text], []) && Same(0, replacement) == [];
    assert ThoseGo(fold, text, needle, replacement, text, [text], []);
  }

  lemma WovenMore(first: string, here: string, pieces: seq<string>, found: seq<string>)
    requires |pieces| == |found| + 1
    ensures Woven([first] + pieces, [here] + found) == first + here + Woven(pieces, found)
  {
    assert ([first] + pieces)[1..] == pieces && ([here] + found)[1..] == found;
  }

  lemma SameMore(n: nat, s: string)
    ensures Same(n + 1, s) == [s] + Same(n, s)
  {
  }

  lemma WovenBoth(text: string, first: string, here: string, pieces: seq<string>, found: seq<string>,
      replacement: string, out: string)
    requires |pieces| == |found| + 1 && text == first + here + Woven(pieces, found)
    requires out == first + replacement + Woven(pieces, Same(|found|, replacement))
    ensures text == Woven([first] + pieces, [here] + found)
    ensures out == Woven([first] + pieces, Same(|[here] + found|, replacement))
  {
    WovenMore(first, here, pieces, found);
    WovenMore(first, replacement, pieces, Same(|found|, replacement));
    SameMore(|found|, replacement);
  }

  lemma CutInThree(text: string, at: nat, end: nat)
    requires at <= end <= |text|
    ensures text == text[..at] + text[at..end] + text[end..]
  {
  }

  lemma OneMoreCut(fold: Fold, text: string, needle: string, replacement: string, at: nat, pieces: seq<string>,
      found: seq<string>, out: string)
    requires needle != [] && OccursAt(fold, text, needle, at) && FreeIn(fold, text, needle, 0, at)
    requires |pieces| == |found| + 1 && CutAtFirst(fold, needle, pieces, found)
    requires text[at + |needle|..] == Woven(pieces, found)
    requires out == text[..at] + replacement + Woven(pieces, Same(|found|, replacement))
    ensures OnlyThoseGo(fold, text, needle, replacement, out)
  {
    var first, here := text[..at], text[at..at + |needle|];
    CutInThree(text, at, at + |needle|);
    WovenBoth(text, first, here, pieces, found, replacement, out);
    CutOnceMore(fold, text, needle, at, pieces, found);
    assert ThoseGo(fold, text, needle, replacement, out, [first] + pieces, [here] + found);
  }

  lemma CutOnceMore(fold: Fold, text: string, needle: string, at: nat, pieces: seq<string>, found: seq<string>)
    requires needle != [] && OccursAt(fold, text, needle, at) && FreeIn(fold, text, needle, 0, at)
    requires |pieces| == |found| + 1 && CutAtFirst(fold, needle, pieces, found)
    requires text == Woven([text[..at]] + pieces, [text[at..at + |needle|]] + found)
    ensures CutAtFirst(fold, needle, [text[..at]] + pieces, [text[at..at + |needle|]] + found)
  {
    var here := text[at..at + |needle|];
    var pieces', found' := [text[..at]] + pieces, [here] + found;
    HereAlike(fold, text, needle, at);
    forall i | 0 <= i < |found'| ensures Alike(fold, found'[i], needle) {
      if i > 0 { assert found'[i] == found[i - 1]; }
    }
    forall i | 0 <= i < |found'| ensures FreeIn(fold, Woven(pieces'[i..], found'[i..]), needle, 0, |pieces'[i]|) {
      if i == 0 {
        assert pieces'[0..] == pieces' && found'[0..] == found';
      } else {
        assert pieces'[i..] == pieces[i - 1..] && found'[i..] == found[i - 1..] && pieces'[i] == pieces[i - 1];
      }
    }
    assert pieces'[|found'|] == pieces[|found|];
  }

  lemma HereAlike(fold: Fold, text: string, needle: string, at: nat)
    requires OccursAt(fold, text, needle, at)
    ensures Alike(fold, text[at..at + |needle|], needle)
  {
    var here := text[at..at + |needle|];
    forall k | 0 <= k < |needle| ensures fold(here[k]) == fold(needle[k]) {
      assert here[k] == text[at + k];
    }
  }

  // --- An occurrence no other overlaps -----------------------------------------------------------

  /** Every occurrence ends before `a` or begins behind `b`, or is the one at `a`, if that is let. */
  ghost predicate Clear(fold: Fold, text: string, needle: string, a: nat, b: nat, itself: bool) {
    forall at: nat :: OccursAt(fold, text, needle, at) ==> at + |needle| <= a || b <= at || (itself && at == a)
  }

  lemma FindInStart(fold: Fold, p: string, rest: string, needle: string, at: nat)
    requires needle != [] && Find(fold, p, needle, 0) == Some(at)
    ensures Find(fold, p + rest, needle, 0) == Some(at)
  {
    FindIsFirst(fold, p, needle, 0);
    OccursBefore(fold, p, rest, needle, at);
    forall k: nat | k < at ensures !OccursAt(fold, p + rest, needle, k) {
      OccursBefore(fold, p, rest, needle, k);
    }
    FoundAt(fold, p + rest, needle, 0, at);
  }

  /** Without the start up to the end of an occurrence in it, the place stays clear. */
  lemma ClearRest(fold: Fold, p: string, x: string, s: string, needle: string, cut: nat, itself: bool)
    requires cut <= |p| && Clear(fold, p + x + s, needle, |p|, |p| + |x|, itself)
    ensures Clear(fold, p[cut..] + x + s, needle, |p[cut..]|, |p[cut..]| + |x|, itself)
  {
    var rest := p[cut..] + x + s;
    assert p + x + s == p[..cut] + rest;
    forall at: nat | OccursAt(fold, rest, needle, at)
      ensures at + |needle| <= |p[cut..]| || |p[cut..]| + |x| <= at || (itself && at == |p[cut..]|)
    {
      OccursAfter(fold, p[..cut], rest, needle, at + cut);
    }
  }

  /** Nothing is found before `b`, so what is found is found in the rest. */
  lemma FindPast(fold: Fold, b: string, s: string, needle: string)
    requires needle != [] && FreeIn(fold, b + s, needle, 0, |b|)
    ensures Find(fold, b + s, needle, 0) ==
      match Find(fold, s, needle, 0) case Some(at) => Some(|b| + at) case None => None
  {
    FindFrom(fold, b + s, needle, 0, |b|);
    FindBehind(fold, b, s, needle, 0);
  }

  lemma {:induction false} FindFrom(fold: Fold, text: string, needle: string, from: nat, upto: nat)
    requires from <= upto <= |text| && FreeIn(fold, text, needle, from, upto)
    ensures Find(fold, text, needle, from) == Find(fold, text, needle, upto)
    decreases upto - from
  {
    if from < upto { FindFrom(fold, text, needle, from + 1, upto); }
  }

  lemma ReplacedNone(fold: Fold, text: string, needle: string, replacement: string)
    requires needle != [] && Find(fold, text, needle, 0).None?
    ensures Replaced(fold, text, needle, replacement) == text
  {
  }

  /** With nothing to be found before it, a start stays. */
  lemma ReplacedPast(fold: Fold, b: string, s: string, needle: string, replacement: string)
    requires needle != [] && FreeIn(fold, b + s, needle, 0, |b|)
    ensures Replaced(fold, b + s, needle, replacement) == b + Replaced(fold, s, needle, replacement)
  {
    FindPast(fold, b, s, needle);
    match Find(fold, s, needle, 0) {
      case None =>
        ReplacedNone(fold, b + s, needle, replacement);
        ReplacedNone(fold, s, needle, replacement);
      case Some(at) =>
        var rest := s[at + |needle|..];
        assert (b + s)[|b| + at + |needle|..] == rest && (b + s)[..|b| + at] == b + s[..at];
        ReplacedStep(fold, b + s, needle, replacement, |b| + at, rest);
        ReplacedStep(fold, s, needle, replacement, at, rest);
        Joined(b, s[..at], replacement, Replaced(fold, rest, needle, replacement));
    }
  }

  /** What stands at the place after the replacing: the replacement, or what was there. */
  function Kept(x: string, replacement: string, itself: bool): string { if itself then replacement else x }

  lemma NoneBefore(fold: Fold, p: string, x: string, s: string, needle: string, itself: bool)
    requires needle != [] && x != [] && Find(fold, p, needle, 0).None?
    requires Clear(fold, p + x + s, needle, |p|, |p| + |x|, itself)
    ensures FreeIn(fold, p + x + s, needle, 0, |p|)
    ensures !itself ==> FreeIn(fold, p + x + s, needle, 0, |p + x|)
  {
    FindIsFirst(fold, p, needle, 0);
    forall at: nat | at < |p| ensures !OccursAt(fold, p + x + s, needle, at) {
      if at + |needle| <= |p| {
        assert p + x + s == p + (x + s);
        OccursBefore(fold, p, x + s, needle, at);
      }
    }
  }

  /** Where nothing overlaps it, a place is replaced alone: the text before and the text behind it are
      masked each for itself. */
  lemma {:induction false} ReplacedApart(fold: Fold, p: string, x: string, s: string, needle: string,
      replacement: string, itself: bool)
    requires needle != [] && x != [] && (itself ==> Alike(fold, x, needle))
    requires Clear(fold, p + x + s, needle, |p|, |p| + |x|, itself)
    ensures Replaced(fold, p + x + s, needle, replacement) ==
            Replaced(fold, p, needle, replacement) + Kept(x, replacement, itself)
            + Replaced(fold, s, needle, replacement)
    decreases |p|, 1
  {
    match Find(fold, p, needle, 0) {
      case None =>
        NoneBefore(fold, p, x, s, needle, itself);
        ReplacedNone(fold, p, needle, replacement);
        if itself {
          HereReplaced(fold, p, x, s, needle, replacement);
        } else {
          ReplacedPast(fold, p + x, s, needle, replacement);
        }
      case Some(at) => ReplacedApartNext(fold, p, x, s, needle, replacement, itself, at);
    }
  }

  lemma ReplacedApartNext(fold: Fold, p: string, x: string, s: string, needle: string, replacement: string,
      itself: bool, at: nat)
    requires needle != [] && x != [] && (itself ==> Alike(fold, x, needle))
    requires Clear(fold, p + x + s, needle, |p|, |p| + |x|, itself) && Find(fold, p, needle, 0) == Some(at)
    ensures Replaced(fold, p + x + s, needle, replacement) ==
            Replaced(fold, p, needle, replacement) + Kept(x, replacement, itself)
            + Replaced(fold, s, needle, replacement)
    decreases |p|, 0
  {
    var rest := p[at + |needle|..];
    ClearRest(fold, p, x, s, needle, at + |needle|, itself);
    ReplacedApart(fold, rest, x, s, needle, replacement, itself);
    var done := Replaced(fold, rest, needle, replacement);
    var r, kept := Replaced(fold, s, needle, replacement), Kept(x, replacement, itself);
    assert Replaced(fold, p, needle, replacement) == p[..at] + replacement + done by {
      ReplacedStep(fold, p, needle, replacement, at, rest);
    }
    StepInText(fold, p, x, s, needle, replacement, at, rest, done + kept + r);
    Glue(p[..at], replacement, done, kept, r);
  }

  lemma TextCut(p: string, x: string, s: string, cut: nat)
    requires cut <= |p|
    ensures (p + x + s)[cut..] == p[cut..] + x + s && (p + x + s)[..cut] == p[..cut]
    ensures p + x + s == p + (x + s)
  {
  }

  lemma StepInText(fold: Fold, p: string, x: string, s: string, needle: string, replacement: string, at: nat,
      rest: string, out: string)
    requires needle != [] && Find(fold, p, needle, 0) == Some(at) && rest == p[at + |needle|..]
    requires out == Replaced(fold, rest + x + s, needle, replacement)
    ensures Replaced(fold, p + x + s, needle, replacement) == p[..at] + replacement + out
  {
    TextCut(p, x, s, at);
    TextCut(p, x, s, at + |needle|);
    FindInStart(fold, p, x + s, needle, at);
    ReplacedStep(fold, p + x + s, needle, replacement, at, rest + x + s);
  }

  lemma Glue(a: string, b: string, c: string, d: string, e: string)
    ensures a + b + (c + d + e) == (a + b + c) + d + e
  {
  }

  lemma HereReplaced(fold: Fold, p: string, x: string, s: string, needle: string, replacement: string)
    requires needle != [] && Alike(fold, x, needle) && FreeIn(fold, p + x + s, needle, 0, |p|)
    ensures Replaced(fold, p + x + s, needle, replacement) == p + replacement + Replaced(fold, s, needle, replacement)
  {
    var text := p + x + s;
    assert text == p + (x + s);
    OccursBefore(fold, x, s, needle, 0);
    OccursAfter(fold, p, x + s, needle, |p|);
    FoundAt(fold, text, needle, 0, |p|);
    assert text[|p| + |needle|..] == s && text[..|p|] == p;
    ReplacedStep(fold, text, needle, replacement, |p|, s);
  }

  // --- Replacing elsewhere brings nothing near -----------------------------------------------------

  /** What a needle must be that masks do not touch. */
  ghost predicate Untouched(fold: Fold, needle: string) {
    FoldOk(fold) && MaskProof(needle) && needle[|needle| - 1] != ' '
  }

  lemma OneBefore(fold: Fold, text: string, secret: Secret, n: nat, start: nat, needle: string, a: nat, b: nat,
      a': nat, b': nat, itself: bool)
    requires Untouched(fold, needle) && KeepsHead(secret, n) && OccursAt(fold, text, secret.command, start)
    requires start + |secret.command| <= a <= b && Clear(fold, text, needle, a, b, itself)
    requires a' == a - |secret.command| + |secret.replacement| && b' == b - |secret.command| + |secret.replacement|
    ensures Clear(fold, text[..start] + secret.replacement + text[start + |secret.command|..], needle, a', b', itself)
  {
    var next := text[..start] + secret.replacement + text[start + |secret.command|..];
    forall at: nat | OccursAt(fold, next, needle, at)
      ensures at + |needle| <= a' || b' <= at || (itself && at == a')
    {
      ReplacedOccurs(fold, text, secret, n, start, needle, at);
    }
  }

  lemma OneBehind(fold: Fold, text: string, secret: Secret, n: nat, start: nat, needle: string, a: nat, b: nat,
      itself: bool)
    requires Untouched(fold, needle) && KeepsHead(secret, n) && OccursAt(fold, text, secret.command, start)
    requires a <= b <= start && Clear(fold, text, needle, a, b, itself)
    ensures Clear(fold, text[..start] + secret.replacement + text[start + |secret.command|..], needle, a, b, itself)
  {
    var next := text[..start] + secret.replacement + text[start + |secret.command|..];
    forall at: nat | OccursAt(fold, next, needle, at) ensures at + |needle| <= a || b <= at || (itself && at == a) {
      ReplacedOccurs(fold, text, secret, n, start, needle, at);
    }
  }

  /** An occurrence in the middle of a text. */
  lemma OccursWithinText(fold: Fold, before: string, middle: string, behind: string, needle: string, at: nat)
    requires OccursAt(fold, middle, needle, at)
    ensures OccursAt(fold, before + middle + behind, needle, |before| + at)
  {
    OccursAfter(fold, before, middle, needle, |before| + at);
    OccursBefore(fold, before + middle, behind, needle, |before| + at);
  }

  lemma SpliceMiddle(before: string, middle: string, behind: string, replacement: string, at: nat, end: nat)
    requires at <= end <= |middle|
    ensures var text := before + middle + behind;
      text[..|before| + at] + replacement + text[|before| + end..] ==
      (before + middle[..at] + replacement) + middle[end..] + behind
  {
    var text := before + middle + behind;
    assert text[..|before| + at] == before + middle[..at] && text[|before| + end..] == middle[end..] + behind;
  }

  /** Replacing all in a text before the place keeps the place clear. */
  lemma {:induction false} AllBefore(fold: Fold, done: string, todo: string, rest: string, size: nat, secret: Secret,
      n: nat, needle: string, itself: bool)
    requires Untouched(fold, needle) && KeepsHead(secret, n) && secret.command != []
    requires Clear(fold, done + todo + rest, needle, |done + todo|, |done + todo| + size, itself)
    ensures var out := done + Replaced(fold, todo, secret.command, secret.replacement);
      Clear(fold, out + rest, needle, |out|, |out| + size, itself)
    decreases |todo|
  {
    FindIsFirst(fold, todo, secret.command, 0);
    match Find(fold, todo, secret.command, 0) {
      case None => ReplacedNone(fold, todo, secret.command, secret.replacement);
      case Some(at) =>
        var done', todo' := done + todo[..at] + secret.replacement, todo[at + |secret.command|..];
        OccursWithinText(fold, done, todo, rest, secret.command, at);
        SpliceMiddle(done, todo, rest, secret.replacement, at, at + |secret.command|);
        OneBefore(fold, done + todo + rest, secret, n, |done| + at, needle, |done + todo|, |done + todo| + size,
                  |done' + todo'|, |done' + todo'| + size, itself);
        AllBefore(fold, done', todo', rest, size, secret, n, needle, itself);
        ReplacedGoesOn(fold, done, todo, secret.command, secret.replacement, at, done', todo',
                       Replaced(fold, todo', secret.command, secret.replacement));
    }
  }

  /** Replacing all behind it does too. */
  lemma {:induction false} AllBehind(fold: Fold, done: string, todo: string, a: nat, b: nat, secret: Secret, n: nat,
      needle: string, itself: bool)
    requires Untouched(fold, needle) && KeepsHead(secret, n) && secret.command != []
    requires a <= b <= |done| && Clear(fold, done + todo, needle, a, b, itself)
    ensures Clear(fold, done + Replaced(fold, todo, secret.command, secret.replacement), needle, a, b, itself)
    decreases |todo|
  {
    FindIsFirst(fold, todo, secret.command, 0);
    match Find(fold, todo, secret.command, 0) {
      case None => ReplacedNone(fold, todo, secret.command, secret.replacement);
      case Some(at) =>
        var done', todo' := done + todo[..at] + secret.replacement, todo[at + |secret.command|..];
        OccursWithinText(fold, done, todo, [], secret.command, at);
        SpliceMiddle(done, todo, [], secret.replacement, at, at + |secret.command|);
        NothingBehind(done + todo);
        NothingBehind(done' + todo');
        OneBehind(fold, done + todo, secret, n, |done| + at, needle, a, b, itself);
        AllBehind(fold, done', todo', a, b, secret, n, needle, itself);
        ReplacedGoesOn(fold, done, todo, secret.command, secret.replacement, at, done', todo',
                       Replaced(fold, todo', secret.command, secret.replacement));
    }
  }

  lemma NothingBehind(s: string)
    ensures s + [] == s
  {
  }

  lemma AllAround(fold: Fold, p: string, x: string, s: string, secret: Secret, n: nat, needle: string, itself: bool)
    requires Untouched(fold, needle) && KeepsHead(secret, n) && secret.command != []
    requires Clear(fold, p + x + s, needle, |p|, |p| + |x|, itself)
    ensures var p' := Replaced(fold, p, secret.command, secret.replacement);
      var s' := Replaced(fold, s, secret.command, secret.replacement);
      Clear(fold, p' + x + s', needle, |p'|, |p'| + |x|, itself)
  {
    var p' := Replaced(fold, p, secret.command, secret.replacement);
    NothingBefore(p);
    NothingBefore(p');
    Regroup(p, x, s);
    AllBefore(fold, [], p, x + s, |x|, secret, n, needle, itself);
    Regroup(p', x, s);
    AllBehind(fold, p' + x, s, |p'|, |p'| + |x|, secret, n, needle, itself);
  }

  // --- One command among others ------------------------------------------------------------------

  /** No command but, if that is let, this one reaches into the place. */
  ghost predicate ClearOf(fold: Fold, secrets: seq<Secret>, text: string, a: nat, b: nat) {
    forall i :: 0 <= i < |secrets| ==>
      MaskProof(secrets[i].command) && Clear(fold, text, secrets[i].command, a, b, false)
  }

  lemma {:induction false} CommandsApart(fold: Fold, secrets: seq<Secret>, p: string, x: string, s: string,
      needle: string, itself: bool)
    requires AllWellFormed(secrets) && x != [] && Untouched(fold, needle)
    requires ClearOf(fold, secrets, p + x + s, |p|, |p| + |x|)
    requires Clear(fold, p + x + s, needle, |p|, |p| + |x|, itself)
    ensures var p', s' := MaskCommands(fold, secrets, p), MaskCommands(fold, secrets, s);
      && MaskCommands(fold, secrets, p + x + s) == p' + x + s'
      && Clear(fold, p' + x + s', needle, |p'|, |p'| + |x|, itself)
    decreases |secrets|
  {
    if secrets != [] {
      var before, last := secrets[..|secrets| - 1], secrets[|secrets| - 1];
      assert WellFormed(last);
      assert ClearOf(fold, before, p + x + s, |p|, |p| + |x|);
      CommandsApart(fold, before, p, x, s, last.command, false);
      CommandsApart(fold, before, p, x, s, needle, itself);
      OneMoreApart(fold, last, MaskCommands(fold, before, p), x, MaskCommands(fold, before, s), needle, itself);
    }
  }

  lemma OneMoreApart(fold: Fold, secret: Secret, p: string, x: string, s: string, needle: string, itself: bool)
    requires WellFormed(secret) && x != [] && Untouched(fold, needle)
    requires Clear(fold, p + x + s, secret.command, |p|, |p| + |x|, false)
    requires Clear(fold, p + x + s, needle, |p|, |p| + |x|, itself)
    ensures var p', s' := ReplaceFrom(fold, p, secret.command, secret.replacement, 0),
                          ReplaceFrom(fold, s, secret.command, secret.replacement, 0);
      && ReplaceFrom(fold, p + x + s, secret.command, secret.replacement, 0) == p' + x + s'
      && Clear(fold, p' + x + s', needle, |p'|, |p'| + |x|, itself)
  {
    var n :| KeepsHead(secret, n);
    ReplaceIs(fold, p, secret.command, secret.replacement);
    ReplaceIs(fold, s, secret.command, secret.replacement);
    ReplaceIs(fold, p + x + s, secret.command, secret.replacement);
    ReplacedApart(fold, p, x, s, secret.command, secret.replacement, false);
    AllAround(fold, p, x, s, secret, n, needle, itself);
  }

  /** Main theorem: where a held command stands in a line and no command before it in the list, nor
      another occurrence of it, reaches into it, it is replaced whole: of it nothing is left but the
      head it keeps, and what stands before and behind it is masked for itself. */
  lemma LoneCommandMasked(fold: Fold, secrets: seq<Secret>, k: nat, p: string, x: string, s: string)
    requires FoldOk(fold) && AllWellFormed(secrets) && k < |secrets|
    requires Alike(fold, x, secrets[k].command) && MaskProof(secrets[k].command)
    requires ClearOf(fold, secrets[..k], p + x + s, |p|, |p| + |x|)
    requires Clear(fold, p + x + s, secrets[k].command, |p|, |p| + |x|, true)
    ensures var upto := secrets[..k + 1];
      MaskCommands(fold, upto, p + x + s) ==
      MaskCommands(fold, upto, p) + secrets[k].replacement + MaskCommands(fold, upto, s)
  {
    var before, own := secrets[..k], secrets[k];
    assert secrets[..k + 1][..k] == before;
    assert WellFormed(own);
    CommandsApart(fold, before, p, x, s, own.command, true);
    var p', s' := MaskCommands(fold, before, p), MaskCommands(fold, before, s);
    ReplacedApart(fold, p', x, s', own.command, own.replacement, true);
    ReplaceIs(fold, p', own.command, own.replacement);
    ReplaceIs(fold, s', own.command, own.replacement);
    ReplaceIs(fold, p' + x + s', own.command, own.replacement);
  }

  // --- Longest first -----------------------------------------------------------------------------

  lemma {:induction false} CommandsJoin(fold: Fold, first: seq<Secret>, rest: seq<Secret>, text: string)
    requires AllWellFormed(first) && AllWellFormed(rest)
    ensures AllWellFormed(first + rest)
    ensures MaskCommands(fold, first + rest, text) == MaskCommands(fold, rest, MaskCommands(fold, first, text))
    decreases |rest|
  {
    if rest == [] {
      assert first + rest == first;
    } else {
      var most, last := rest[..|rest| - 1], rest[|rest| - 1];
      CommandsJoin(fold, first, most, text);
      assert (first + rest)[..|first + rest| - 1] == first + most && (first + rest)[|first + rest| - 1] == last;
    }
  }

  lemma {:induction false} NoneHere(fold: Fold, secrets: seq<Secret>, text: string)
    requires AllWellFormed(secrets) && forall i :: 0 <= i < |secrets| ==> Free(fold, text, secrets[i].command)
    ensures MaskCommands(fold, secrets, text) == text
  {
    MaskCommandsKeeps(fold, secrets, text);
  }

  lemma OwnReplaced(fold: Fold, secret: Secret, line: string)
    requires WellFormed(secret) && Alike(fold, line, secret.command)
    ensures AllWellFormed([secret]) && MaskCommands(fold, [secret], line) == secret.replacement
  {
    assert [secret][..0] == [];
    NothingBefore(line);
    NothingBehind(line);
    NothingBefore(secret.replacement);
    NothingBehind(secret.replacement);
    HereReplaced(fold, [], line, [], secret.command, secret.replacement);
    ReplaceIs(fold, line, secret.command, secret.replacement);
    ReplacedNone(fold, [], secret.command, secret.replacement);
  }

  lemma CommandsSplit(fold: Fold, secrets: seq<Secret>, k: nat, line: string)
    requires AllWellFormed(secrets) && k < |secrets|
    ensures AllWellFormed(secrets[..k]) && WellFormed(secrets[k]) && AllWellFormed(secrets[k + 1..])
    ensures MaskCommands(fold, secrets, line) ==
            MaskCommands(fold, secrets[k + 1..],
                         MaskCommands(fold, [secrets[k]], MaskCommands(fold, secrets[..k], line)))
  {
    var before, own, rest := secrets[..k], secrets[k], secrets[k + 1..];
    CommandsJoin(fold, before, [own], line);
    CommandsJoin(fold, before + [own], rest, line);
    assert secrets == before + [own] + rest;
  }

  /** A line that is a held command, and holds none that stands before it in the list, becomes that
      command's own replacement before the rest of the list is looked for. */
  lemma HeldAlone(fold: Fold, secrets: seq<Secret>, k: nat, line: string)
    requires AllWellFormed(secrets) && k < |secrets| && Alike(fold, line, secrets[k].command)
    requires forall i :: 0 <= i < k ==> Free(fold, line, secrets[i].command)
    ensures MaskCommands(fold, secrets, line) == MaskCommands(fold, secrets[k + 1..], secrets[k].replacement)
  {
    CommandsSplit(fold, secrets, k, line);
    assert MaskCommands(fold, secrets[..k], line) == line by {
      forall i | 0 <= i < |secrets[..k]| ensures Free(fold, line, secrets[..k][i].command) {
        assert secrets[..k][i] == secrets[i];
      }
      NoneHere(fold, secrets[..k], line);
    }
    OwnReplaced(fold, secrets[k], line);
  }

  /** Characters that are alike take the same number of bytes. */
  ghost predicate KeepsWidths(fold: Fold) {
    forall c, d :: fold(c) == fold(d) ==> Width(c) == Width(d)
  }

  lemma {:induction false} AlikeBytes(fold: Fold, a: string, b: string)
    requires KeepsWidths(fold) && Alike(fold, a, b)
    ensures Bytes(a) == Bytes(b)
  {
    if a != [] {
      assert fold(a[0]) == fold(b[0]);
      forall k | 0 <= k < |b[1..]| ensures fold(a[1..][k]) == fold(b[1..][k]) {
        assert fold(a[k + 1]) == fold(b[k + 1]);
      }
      AlikeBytes(fold, a[1..], b[1..]);
    }
  }

  lemma {:induction false} BytesJoin(a: string, b: string)
    ensures Bytes(a + b) == Bytes(a) + Bytes(b)
    ensures b != [] ==> Bytes(b) > 0
  {
    if a == [] {
      assert a + b == b;
    } else {
      BytesJoin(a[1..], b);
      assert (a + b)[1..] == a[1..] + b;
    }
  }

  /** A command with as many bytes as the whole line is in it only as the whole of it. */
  lemma WideOccursWhole(fold: Fold, line: string, command: string, at: nat)
    requires KeepsWidths(fold) && OccursAt(fold, line, command, at) && Bytes(command) >= Bytes(line)
    ensures at == 0 && Alike(fold, line, command)
  {
    var p, x, s := line[..at], line[at..at + |command|], line[at + |command|..];
    HereAlike(fold, line, command, at);
    AlikeBytes(fold, x, command);
    assert line == p + x + s;
    BytesJoin(p + x, s);
    BytesJoin(p, x);
    if p != [] { BytesJoin([], p); }
    assert p == [] && s == [];
    assert line == x;
  }

  /** The first command that is the line. */
  ghost predicate FirstAlike(fold: Fold, secrets: seq<Secret>, line: string, j: nat) {
    && j < |secrets| && Alike(fold, line, secrets[j].command)
    && forall i :: 0 <= i < j ==> !Alike(fold, line, secrets[i].command)
  }

  lemma {:induction false} SomeFirst(fold: Fold, secrets: seq<Secret>, line: string, k: nat) returns (j: nat)
    requires k < |secrets| && Alike(fold, line, secrets[k].command)
    ensures FirstAlike(fold, secrets, line, j) && j <= k
  {
    j := k;
    if i :| 0 <= i < k && Alike(fold, line, secrets[i].command) {
      j := SomeFirst(fold, secrets, line, i);
    }
  }

  /** Main theorem: held longest first, a line that is a held command becomes the replacement of the
      first one it is, whatever shorter commands it contains; if none of the rest of the list is in
      that, it is what is left. */
  lemma HeldCommandMasked(fold: Fold, secrets: seq<Secret>, k: nat, line: string) returns (j: nat)
    requires KeepsWidths(fold) && AllWellFormed(secrets) && LongestFirst(secrets)
    requires k < |secrets| && Alike(fold, line, secrets[k].command)
    ensures FirstAlike(fold, secrets, line, j)
    ensures MaskCommands(fold, secrets, line) == MaskCommands(fold, secrets[j + 1..], secrets[j].replacement)
    ensures (forall i :: j < i < |secrets| ==> Free(fold, secrets[j].replacement, secrets[i].command)) ==>
      MaskCommands(fold, secrets, line) == secrets[j].replacement
  {
    j := SomeFirst(fold, secrets, line, k);
    AlikeBytes(fold, line, secrets[j].command);
    forall i | 0 <= i < j ensures Free(fold, line, secrets[i].command) {
      assert Bytes(secrets[i].command) >= Bytes(secrets[j].command);
      forall at: nat ensures !OccursAt(fold, line, secrets[i].command, at) {
        if OccursAt(fold, line, secrets[i].command, at) { WideOccursWhole(fold, line, secrets[i].command, at); }
      }
    }
    HeldAlone(fold, secrets, j, line);
    if forall i :: j < i < |secrets| ==> Free(fold, secrets[j].replacement, secrets[i].command) {
      var rest := secrets[j + 1..];
      forall i | 0 <= i < |rest| ensures Free(fold, secrets[j].replacement, rest[i].command) {
        assert rest[i] == secrets[j + 1 + i];
      }
      NoneHere(fold, rest, secrets[j].replacement);
    }
  }

  /** Held longest first, the command at `i` stands before a longer one at `k`. */
  ghost predicate ShorterBefore(secrets: seq<Secret>, i: nat, k: nat) {
    && AllWellFormed(secrets) && LongestFirst(secrets) && i < k < |secrets|
    && |secrets[i].command| < |secrets[k].command|
  }

  /** No command stands before a longer one it is a part of. */
  ghost predicate WholesFirst(fold: Fold) {
    forall secrets: seq<Secret>, i: nat, k: nat :: ShorterBefore(secrets, i, k) ==>
      Free(fold, secrets[k].command, secrets[i].command)
  }

  lemma WholeNotCut(fold: Fold, secrets: seq<Secret>, i: nat, k: nat)
    requires KeepsWidths(fold) && ShorterBefore(secrets, i, k)
    ensures Free(fold, secrets[k].command, secrets[i].command)
  {
    assert Bytes(secrets[i].command) >= Bytes(secrets[k].command);
    forall at: nat ensures !OccursAt(fold, secrets[k].command, secrets[i].command, at) {
      if OccursAt(fold, secrets[k].command, secrets[i].command, at) {
        WideOccursWhole(fold, secrets[k].command, secrets[i].command, at);
      }
    }
  }

  /** Main theorem: longest first, as the filter measures it in bytes, is enough for that exactly if
      letters that count as alike take the same number of bytes. */
  lemma WholesFirstIff(fold: Fold)
    requires FoldOk(fold)
    ensures WholesFirst(fold) <==> KeepsWidths(fold)
  {
    if KeepsWidths(fold) {
      forall secrets: seq<Secret>, i: nat, k: nat | ShorterBefore(secrets, i, k)
        ensures Free(fold, secrets[k].command, secrets[i].command)
      {
        WholeNotCut(fold, secrets, i, k);
      }
    } else {
      var c, d :| fold(c) == fold(d) && Width(c) != Width(d);
      if Width(c) > Width(d) { PartFirst(fold, c, d); } else { PartFirst(fold, d, c); }
    }
  }

  lemma OneBytes(c: char)
    ensures Bytes([c]) == Width(c)
  {
    assert [c][1..] == [];
  }

  /** A line of one wide letter stands before one of a narrow letter like it and another. */
  lemma PartFirst(fold: Fold, c: char, d: char)
    requires FoldOk(fold) && fold(c) == fold(d) && Width(c) > Width(d)
    ensures !WholesFirst(fold)
  {
    var part, whole := Secret([c], MASK, []), Secret([d, 'x'], MASK, []);
    assert c != ' ' && d != ' ';
    assert [c][..0] + MASK == MASK && KeepsHead(part, 0);
    assert [d, 'x'][..0] + MASK == MASK && KeepsHead(whole, 0);
    assert [d, 'x'] == [d] + ['x'];
    BytesJoin([d], ['x']);
    OneBytes(c);
    OneBytes(d);
    OneBytes('x');
    var secrets := [part, whole];
    assert ShorterBefore(secrets, 0, 1);
    assert OccursAt(fold, secrets[1].command, secrets[0].command, 0);
  }

  // --- Where that is not so ----------------------------------------------------------------------

  lemma ShortWord(line: string, blank: char -> bool, word: string)
    requires |line| <= 2
    ensures word !in MaskableWords(line, blank)
  {
    MaskableWordsAre(line, blank, word);
    if WordOf(line, blank, word) {
      var i, j :| 0 <= i < j && WordAt(line, blank, word, i, j);
      assert word == line[i..j];
    }
  }

  lemma NoElements(words: seq<string>)
    requires forall word :: word !in words
    ensures words == []
  {
    if |words| > 0 { NotElement(words, words[0]); }
  }

  lemma NotElement(words: seq<string>, word: string)
    ensures |words| > 0 && words[0] == word ==> word in words
  {
  }

  lemma ShortWords(line: string, blank: char -> bool)
    requires |line| <= 2
    ensures MaskableWords(line, blank) == []
  {
    forall word ensures word !in MaskableWords(line, blank) { ShortWord(line, blank, word); }
    NoElements(MaskableWords(line, blank));
  }

  lemma ShortLine(line: string, blank: char -> bool)
    requires BlankOk(blank) && 1 <= |line| <= 2 && forall i :: 0 <= i < |line| ==> !blank(line[i])
    ensures MarkedSecret(line, blank) == Some(Secret(line, MASK, []))
  {
    assert Trim(line, blank) == line;
    assert HeadLength(line) == |line| by {
      assert line[0] != ' ' && line[0] != '\t';
      if |line| == 2 { assert line[1..][0] == line[1] && line[1..][1..] == []; }
    }
    assert line[|line|..] == [];
    ShortWords(line, blank);
  }

  lemma MarkedShape(line: string, n: nat)
    requires n == 0 && line != [] && line[0] != ' ' && line[|line| - 1] != ' '
    ensures WellFormed(Secret(line, MASK, []))
  {
    assert line[..0] + MASK == MASK;
    assert KeepsHead(Secret(line, MASK, []), n);
  }

  lemma TwoCommands(fold: Fold, a: Secret, b: Secret, text: string)
    requires WellFormed(a) && WellFormed(b)
    ensures AllWellFormed([a, b])
    ensures MaskCommands(fold, [a, b], text) ==
            ReplaceFrom(fold, ReplaceFrom(fold, text, a.command, a.replacement, 0), b.command, b.replacement, 0)
  {
    assert [a, b][..1] == [a] && [a, b][1] == b && [a][..0] == [] && [a][0] == a;
    assert MaskCommands(fold, [a], text) == ReplaceFrom(fold, text, a.command, a.replacement, 0);
  }

  lemma TwoWithoutWords(a: Secret, b: Secret, text: string)
    requires a.words == [] && b.words == []
    ensures AllWords([a, b]) == [] && AllNonempty(AllWords([a, b])) && MaskWords(AllWords([a, b]), text) == text
  {
    assert [a, b][..1] == [a] && [a][..0] == [];
    assert AllWords([a]) == [] + [] == [];
    assert AllWords([a, b]) == [] + [] == [];
  }

  /** The wide letter's command takes the narrow one's place in the line. */
  lemma PartReplaced(fold: Fold, c: char, d: char, z: char)
    requires fold(c) == fold(d) && fold(z) != fold(c)
    ensures ReplaceFrom(fold, [d, z], [c], MASK, 0) == MASK + [z]
  {
    ReplaceIs(fold, [d, z], [c], MASK);
    assert [d, z] == [] + [d] + [z];
    HereReplaced(fold, [], [d], [z], [c], MASK);
    NotIn(fold, [z], [c]);
    FindIsFirst(fold, [z], [c], 0);
    ReplacedNone(fold, [z], [c], MASK);
    NothingBefore(MASK);
  }

  lemma WholeNotThere(fold: Fold, d: char, z: char)
    requires FoldOk(fold) && d != '*'
    ensures ReplaceFrom(fold, MASK + [z], [d, z], MASK, 0) == MASK + [z]
  {
    forall at: nat ensures !OccursAt(fold, MASK + [z], [d, z], at) {
      if OccursAt(fold, MASK + [z], [d, z], at) { FirstChar(fold, MASK + [z], [d, z], at); }
    }
    FindIsFirst(fold, MASK + [z], [d, z], 0);
  }

  /** The line `c` and the line `d z` marked secret, with `c` and `d` alike and `c` the wider: held with
      `c` first, the line `d z` is shown as the mask and `z`. */
  lemma WideLeaks(fold: Fold, part: Secret, whole: Secret, c: char, d: char, z: char)
    requires FoldOk(fold) && part == Secret([c], MASK, []) && whole == Secret([d, z], MASK, [])
    requires WellFormed(part) && WellFormed(whole)
    requires fold(c) == fold(d) && d != '*' && fold(z) != fold(c)
    ensures AllWellFormed([part, whole]) && Masked(fold, [part, whole], [d, z]) == MASK + [z]
  {
    TwoCommands(fold, part, whole, [d, z]);
    PartReplaced(fold, c, d, z);
    WholeNotThere(fold, d, z);
    TwoWithoutWords(part, whole, MASK + [z]);
  }

  lemma NotIn(fold: Fold, text: string, needle: string)
    requires |text| == |needle| == 1 && fold(text[0]) != fold(needle[0])
    ensures Free(fold, text, needle)
  {
  }

  lemma DotlessIsWide(fold: Fold)
    requires fold('\U{131}') == fold('i')
    ensures !KeepsWidths(fold) && Width('\U{131}') == 2 && Width('i') == Width('x') == 1
  {
    assert Width('\U{131}') == 2 && Width('i') == 1;
  }

  lemma DotlessHeld(part: Secret, whole: Secret)
    requires part.command == ['\U{131}'] && whole.command == ['i', 'x']
    ensures LongestFirst([part, whole])
  {
    OneBytes('\U{131}');
    OneBytes('i');
    OneBytes('x');
    assert ['i', 'x'] == ['i'] + ['x'];
    BytesJoin(['i'], ['x']);
  }

  /** A dotless i counts as an i, and takes two bytes: with the line of one and the line `ix` marked
      secret, the `x` of the second is shown. */
  lemma DotlessLeaks(fold: Fold, blank: char -> bool)
    requires FoldOk(fold) && BlankOk(blank) && !blank('\U{131}') && !blank('i') && !blank('x')
    requires fold('\U{131}') == fold('i') && fold('x') != fold('i')
    ensures !KeepsWidths(fold)
    ensures var part, whole := MarkedSecret(['\U{131}'], blank), MarkedSecret(['i', 'x'], blank);
      && part.Some? && whole.Some? && AllWellFormed([part.value, whole.value])
      && LongestFirst([part.value, whole.value])
      && Masked(fold, [part.value, whole.value], ['i', 'x']) == MASK + ['x']
  {
    var part, whole := Secret(['\U{131}'], MASK, []), Secret(['i', 'x'], MASK, []);
    DotlessIsWide(fold);
    ShortLine(part.command, blank);
    ShortLine(whole.command, blank);
    DotlessHeld(part, whole);
    MarkedShape(part.command, 0);
    MarkedShape(whole.command, 0);
    WideLeaks(fold, part, whole, '\U{131}', 'i', 'x');
  }

  // --- Words are masked in their order -----------------------------------------------------------

  predicate Starless(s: string) { '*' !in s }

  ghost predicate AllStarless(words: seq<string>) {
    forall i :: 0 <= i < |words| ==> words[i] != [] && Starless(words[i])
  }

  function Stars(s: string): nat { if s == [] then 0 else (if s[0] == '*' then 1 else 0) + Stars(s[1..]) }

  lemma {:induction false} StarsJoin(a: string, b: string)
    ensures Stars(a + b) == Stars(a) + Stars(b)
  {
    if a == [] {
      assert a + b == b;
    } else {
      StarsJoin(a[1..], b);
      assert (a + b)[1..] == a[1..] + b;
    }
  }

  lemma {:induction false} NoStars(s: string)
    requires Starless(s)
    ensures Stars(s) == 0
  {
    if s != [] { NoStars(s[1..]); }
  }

  lemma {:induction false} AllStars(s: string)
    requires forall i :: 0 <= i < |s| ==> s[i] == '*'
    ensures Stars(s) == |s|
  {
    if s != [] { AllStars(s[1..]); }
  }

  lemma {:induction false} StarsFit(s: string)
    ensures Stars(s) <= |s|
  {
    if s != [] { StarsFit(s[1..]); }
  }

  lemma MaskStars()
    ensures Stars(MASK) == 6 == |MASK|
  {
    forall i | 0 <= i < |MASK| ensures MASK[i] == '*' { MaskIsStars(i); }
    AllStars(MASK);
    MaskIsStars(0);
  }

  /** Replacing a word without stars keeps every star, and brings six for each occurrence. */
  lemma {:induction false} StarsGrow(text: string, word: string)
    requires word != [] && Starless(word)
    ensures Stars(ReplaceAll(text, word)) >= Stars(text)
    ensures Find(EXACT, text, word, 0).Some? ==> Stars(ReplaceAll(text, word)) >= Stars(text) + 6
    decreases |text|
  {
    if Find(EXACT, text, word, 0).Some? {
      var at := Find(EXACT, text, word, 0).value;
      var a, rest := text[..at], text[at + |word|..];
      FindIsFirst(EXACT, text, word, 0);
      HereAlike(EXACT, text, word, at);
      assert text[at..at + |word|] == word;
      CutInThree(text, at, at + |word|);
      StarsGrow(rest, word);
      StarsJoin(a + word, rest);
      StarsJoin(a, word);
      NoStars(word);
      MaskStars();
      StarsJoin(a + MASK, ReplaceAll(rest, word));
      StarsJoin(a, MASK);
    }
  }

  lemma OnlyWord(text: string, word: string, at: nat)
    requires at + |word| <= |text| && text[at..at + |word|] == word && text != word
    ensures at > 0 || text[at + |word|..] != []
  {
  }

  /** A word that is a part of the text leaves more than a mask. */
  lemma PartLeavesMore(text: string, word: string)
    requires word != [] && Find(EXACT, text, word, 0).Some? && text != word
    ensures |ReplaceAll(text, word)| > |MASK|
  {
    var at := Find(EXACT, text, word, 0).value;
    var rest := text[at + |word|..];
    FindIsFirst(EXACT, text, word, 0);
    HereAlike(EXACT, text, word, at);
    assert text[at..at + |word|] == word;
    CutInThree(text, at, at + |word|);
    OnlyWord(text, word, at);
    if rest != [] && ReplaceAll(rest, word) == [] { EmptyNever(rest, word); }
  }

  lemma EmptyNever(text: string, word: string)
    requires text != [] && word != []
    ensures ReplaceAll(text, word) != []
  {
    MaskStars();
  }

  /** Once more than a mask is left, it stays so. */
  lemma {:induction false} MoreStays(words: seq<string>, text: string)
    requires AllStarless(words) && Stars(text) >= 6 && |text| > |MASK|
    ensures AllNonempty(words) && |MaskWords(words, text)| > |MASK|
    ensures Stars(MaskWords(words, text)) >= 6
  {
    if words != [] {
      var most, last := words[..|words| - 1], words[|words| - 1];
      MoreStays(most, text);
      var before := MaskWords(most, text);
      StarsGrow(before, last);
      MaskStars();
      StarsFit(ReplaceAll(before, last));
    }
  }

  lemma MaskHoldsNone(words: seq<string>)
    requires AllStarless(words)
    ensures AllNonempty(words) && MaskWords(words, MASK) == MASK
  {
    forall i | 0 <= i < |words| ensures Free(EXACT, MASK, words[i]) {
      forall at: nat ensures !OccursAt(EXACT, MASK, words[i], at) {
        if OccursAt(EXACT, MASK, words[i], at) { NoStarIn(words[i], at); }
      }
    }
    MaskWordsKeeps(words, MASK);
  }

  lemma NoStarIn(word: string, at: nat)
    requires word != [] && OccursAt(EXACT, MASK, word, at)
    ensures !Starless(word)
  {
    FirstChar(EXACT, MASK, word, at);
    MaskIsStars(at);
    assert word[0] == '*';
  }

  lemma OwnWord(word: string)
    requires word != []
    ensures ReplaceAll(word, word) == MASK
  {
    FoundAt(EXACT, word, word, 0, 0);
    assert word[|word|..] == [] && word[..0] == [];
    assert ReplaceAll([], word) == [];
  }

  /** The words up to one that is in the text. */
  lemma {:induction false} FirstIn(words: seq<string>, text: string, k: nat) returns (i: nat)
    requires k < |words| && !Free(EXACT, text, words[k])
    ensures i <= k && !Free(EXACT, text, words[i]) && forall h :: 0 <= h < i ==> Free(EXACT, text, words[h])
  {
    i := k;
    if h :| 0 <= h < k && !Free(EXACT, text, words[h]) { i := FirstIn(words, text, h); }
  }

  lemma WordsSplitAt(words: seq<string>, i: nat, text: string)
    requires AllNonempty(words) && i < |words| && forall h :: 0 <= h < i ==> Free(EXACT, text, words[h])
    ensures AllNonempty(words[i + 1..])
    ensures MaskWords(words, text) == MaskWords(words[i + 1..], ReplaceAll(text, words[i]))
  {
    var before, rest := words[..i], words[i + 1..];
    assert words == before + ([words[i]] + rest);
    MaskWordsKeeps(before, text);
    MaskWordsJoin(before, [words[i]] + rest, text);
    MaskWordsJoin([words[i]], rest, text);
    OneWord(words[i], text);
  }

  lemma WordWhole(words: seq<string>, k: nat, word: string)
    requires AllStarless(words) && k < |words| && word == words[k]
    requires forall i :: 0 <= i < k ==> Free(EXACT, word, words[i])
    ensures AllNonempty(words) && MaskWords(words, word) == MASK
  {
    WordsSplitAt(words, k, word);
    OwnWord(word);
    MaskHoldsNone(words[k + 1..]);
  }

  lemma WordCut(words: seq<string>, i: nat, word: string)
    requires AllStarless(words) && i < |words| && word != words[i] && !Free(EXACT, word, words[i])
    requires forall h :: 0 <= h < i ==> Free(EXACT, word, words[h])
    ensures AllNonempty(words) && MaskWords(words, word) != MASK
  {
    WordsSplitAt(words, i, word);
    PartStays(words[i + 1..], word, words[i]);
  }

  /** Main theorem: words are masked in the order of the commands and in them, not longest first. A
      masked word is shown as the mask alone exactly if no word before it in that order is a part of
      it. */
  lemma WordWholeIff(words: seq<string>, k: nat)
    requires AllStarless(words) && k < |words| && forall i :: 0 <= i < k ==> words[i] != words[k]
    ensures AllNonempty(words)
    ensures MaskWords(words, words[k]) == MASK <==> forall i :: 0 <= i < k ==> Free(EXACT, words[k], words[i])
  {
    OccursSelf(words[k]);
    var i := FirstIn(words, words[k], k);
    if i == k { WordWhole(words, k, words[k]); } else { WordCut(words, i, words[k]); }
  }

  lemma PartStays(rest: seq<string>, text: string, word: string)
    requires AllStarless(rest) && word != [] && Starless(word) && !Free(EXACT, text, word) && text != word
    ensures AllNonempty(rest) && MaskWords(rest, ReplaceAll(text, word)) != MASK
  {
    FindIsFirst(EXACT, text, word, 0);
    PartLeavesMore(text, word);
    StarsGrow(text, word);
    MoreStays(rest, ReplaceAll(text, word));
  }

  lemma OccursSelf(text: string)
    ensures !Free(EXACT, text, text)
  {
    assert OccursAt(EXACT, text, text, 0);
  }

  lemma TwoWords(a: string, b: string, text: string)
    requires a != [] && b != []
    ensures AllNonempty([a, b]) && MaskWords([a, b], text) == ReplaceAll(ReplaceAll(text, a), b)
  {
    assert [a, b][..1] == [a] && [a, b][1] == b;
    OneWord(a, text);
  }

  lemma StartMasked(a: string, b: string)
    requires a != [] && Free(EXACT, b, a)
    ensures ReplaceAll(a + b, a) == MASK + b
  {
    OccursBefore(EXACT, a, b, a, 0);
    FoundAt(EXACT, a + b, a, 0, 0);
    ReplaceAtFirst(a + b, a, 0);
    assert (a + b)[|a|..] == b && (a + b)[..0] == [];
    FindIsFirst(EXACT, b, a, 0);
    assert [] + MASK + b == MASK + b;
  }

  lemma WholeGone(a: string, b: string)
    requires a != [] && Starless(a)
    ensures ReplaceAll(MASK + b, a + b) == MASK + b
  {
    forall at: nat ensures !OccursAt(EXACT, MASK + b, a + b, at) {
      if OccursAt(EXACT, MASK + b, a + b, at) { StarAtStart(a, b, at); }
    }
    FindIsFirst(EXACT, MASK + b, a + b, 0);
  }

  lemma StarAtStart(a: string, b: string, at: nat)
    requires a != [] && OccursAt(EXACT, MASK + b, a + b, at)
    ensures !Starless(a)
  {
    FirstChar(EXACT, MASK + b, a + b, at);
    MaskIsStars(0);
    MaskIsStars(at);
    assert a[0] == (a + b)[0];
  }

  /** A word masked before a longer one that begins with it leaves the end of that. */
  lemma EndOfWordShown(a: string, b: string)
    requires a != [] && b != [] && Starless(a) && Free(EXACT, b, a)
    ensures AllNonempty([a, a + b]) && MaskWords([a, a + b], a + b) == MASK + b
  {
    TwoWords(a, a + b, a + b);
    StartMasked(a, b);
    WholeGone(a, b);
  }

  /** As those of `/register pass password` are. */
  lemma PasswordShown()
    ensures AllNonempty(["pass", "password"]) && MaskWords(["pass", "password"], "password") == MASK + "word"
  {
    forall at: nat ensures !OccursAt(EXACT, "word", "pass", at) {
      if OccursAt(EXACT, "word", "pass", at) { FirstChar(EXACT, "word", "pass", at); }
    }
    assert "pass" + "word" == "password";
    EndOfWordShown("pass", "word");
  }

  // --- The whole of `mask` -----------------------------------------------------------------------

  /** Main theorem: a line that is a held command is shown as its replacement, if that holds neither a
      command after it nor a masked word; short words of its arguments are gone with the rest. */
  lemma HeldLineShown(fold: Fold, secrets: seq<Secret>, k: nat, line: string) returns (j: nat)
    requires KeepsWidths(fold) && AllWellFormed(secrets) && LongestFirst(secrets)
    requires k < |secrets| && Alike(fold, line, secrets[k].command)
    ensures FirstAlike(fold, secrets, line, j)
    ensures
      && (forall i :: j < i < |secrets| ==> Free(fold, secrets[j].replacement, secrets[i].command))
      && (forall word :: word in AllWords(secrets) ==> Free(EXACT, secrets[j].replacement, word)) ==>
      Masked(fold, secrets, line) == secrets[j].replacement
  {
    j := HeldCommandMasked(fold, secrets, k, line);
    AllWordsNonempty(secrets);
    if forall word :: word in AllWords(secrets) ==> Free(EXACT, secrets[j].replacement, word) {
      MaskWordsKeeps(AllWords(secrets), secrets[j].replacement);
    }
  }

  lemma {:induction false} AllWordsSplit(secrets: seq<Secret>, k: nat)
    requires k < |secrets|
    ensures AllWords(secrets[..k]) + secrets[k].words <= AllWords(secrets)
    decreases |secrets|
  {
    var n := |secrets| - 1;
    if k < n {
      AllWordsSplit(secrets[..n], k);
      assert secrets[..n][..k] == secrets[..k];
    }
  }

  /** The words looked for before word `j` of secret `k`. */
  function Before(secrets: seq<Secret>, k: nat, j: nat): seq<string>
    requires k < |secrets| && j < |secrets[k].words|
  {
    AllWords(secrets[..k]) + secrets[k].words[..j]
  }

  lemma WordPlace(secrets: seq<Secret>, k: nat, j: nat)
    requires k < |secrets| && j < |secrets[k].words|
    ensures var at := |Before(secrets, k, j)|;
      at < |AllWords(secrets)| && AllWords(secrets)[at] == secrets[k].words[j]
      && AllWords(secrets)[..at] == Before(secrets, k, j)
  {
    AllWordsSplit(secrets, k);
    var first := AllWords(secrets[..k]) + secrets[k].words;
    var at := |Before(secrets, k, j)|;
    assert first[at] == secrets[k].words[j] && first[..at] == Before(secrets, k, j);
    assert AllWords(secrets)[..|first|] == first;
    assert AllWords(secrets)[..at] == first[..at];
  }

  /** The words before one are those of the secrets before its own, and those before it in its own. */
  lemma BeforeAre(secrets: seq<Secret>, k: nat, j: nat, word: string)
    requires k < |secrets| && j < |secrets[k].words|
    ensures word in Before(secrets, k, j) <==>
      (exists i, h :: 0 <= i < k && 0 <= h < |secrets[i].words| && secrets[i].words[h] == word)
      || (exists h :: 0 <= h < j && secrets[k].words[h] == word)
  {
    if word in AllWords(secrets[..k]) {
      var at :| 0 <= at < |AllWords(secrets[..k])| && AllWords(secrets[..k])[at] == word;
      var i, h := WordFrom(secrets[..k], at);
      assert secrets[i].words[h] == word;
    }
    if i, h :| 0 <= i < k && 0 <= h < |secrets[i].words| && secrets[i].words[h] == word {
      WordListed(secrets[..k], i, h);
    }
  }

  /** Main theorem, of the filter: a masked word, in a line without a held command and where no masked
      word has a `*`, is shown as the mask alone exactly if no word of a command that is held before
      its own, or before it in its own, is a part of it. */
  lemma MaskedWordIff(fold: Fold, secrets: seq<Secret>, k: nat, j: nat)
    requires AllWellFormed(secrets) && AllStarless(AllWords(secrets)) && k < |secrets| && j < |secrets[k].words|
    requires forall i :: 0 <= i < |secrets| ==> Free(fold, secrets[k].words[j], secrets[i].command)
    requires secrets[k].words[j] !in Before(secrets, k, j)
    ensures Masked(fold, secrets, secrets[k].words[j]) == MASK <==>
      forall word :: word in Before(secrets, k, j) ==> Free(EXACT, secrets[k].words[j], word)
  {
    var words, word, at := AllWords(secrets), secrets[k].words[j], |Before(secrets, k, j)|;
    WordPlace(secrets, k, j);
    MaskCommandsKeeps(fold, secrets, word);
    forall i | 0 <= i < at ensures words[i] != word && words[i] in Before(secrets, k, j) {
      assert words[..at][i] == words[i];
    }
    WordWholeIff(words, at);
    forall i | 0 <= i < at ensures words[i] in Before(secrets, k, j) { assert words[..at][i] == words[i]; }
    if forall i :: 0 <= i < at ==> Free(EXACT, word, words[i]) {
      forall w | w in Before(secrets, k, j) ensures Free(EXACT, word, w) {
        var i :| 0 <= i < at && Before(secrets, k, j)[i] == w;
        assert words[..at][i] == words[i];
      }
    }
  }
}
