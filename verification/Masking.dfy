/** Keeping passwords out of the console (`console.rs`, on the search of `util.rs`): whole commands
    are replaced ignoring case, then their words as they are.

    Positions are characters. Letter case is a parameter (`fold`), and so is what counts as white
    space (`blank`). */
module Masking {
  import opened Wrappers

  const MASK: string := "******"
  const MIN_MASKED_WORD_CHARS: nat := 4

  type Fold = char -> char

  /** Nothing but `*` folds to `*`, nothing but a space to a space, and nothing but a tab to a tab. */
  ghost predicate FoldOk(fold: Fold) {
    forall c :: (fold(c) == '*' <==> c == '*') && (fold(c) == ' ' <==> c == ' ') && (fold(c) == '\t' <==> c == '\t')
  }

  /** Letter case counts. */
  const EXACT: Fold := c => c

  // --- Searching ---------------------------------------------------------------------------------

  predicate OccursAt(fold: Fold, text: string, needle: string, at: nat) {
    at + |needle| <= |text| && forall k :: at <= k < at + |needle| ==> fold(text[k]) == fold(needle[k - at])
  }

  /** No occurrence of `needle` begins in `from..upto`. */
  ghost predicate FreeIn(fold: Fold, text: string, needle: string, from: nat, upto: nat) {
    forall at :: from <= at < upto ==> !OccursAt(fold, text, needle, at)
  }

  ghost predicate Free(fold: Fold, text: string, needle: string) {
    forall at :: !OccursAt(fold, text, needle, at)
  }

  /** The first occurrence at or after `from`. */
  function Find(fold: Fold, text: string, needle: string, from: nat): (found: Option<nat>)
    ensures found.Some? ==> from <= found.value && found.value + |needle| <= |text|
    decreases |text| - from
  {
    if from > |text| then None
    else if OccursAt(fold, text, needle, from) then Some(from)
    else Find(fold, text, needle, from + 1)
  }

  /** What is found is an occurrence, and none begins before it. */
  lemma {:induction false} FindIsFirst(fold: Fold, text: string, needle: string, from: nat)
    ensures match Find(fold, text, needle, from)
      case Some(at) => OccursAt(fold, text, needle, at) && FreeIn(fold, text, needle, from, at)
      case None => forall at :: from <= at ==> !OccursAt(fold, text, needle, at)
    decreases |text| - from
  {
    if from <= |text| && !OccursAt(fold, text, needle, from) { FindIsFirst(fold, text, needle, from + 1); }
  }

  lemma FoundAt(fold: Fold, text: string, needle: string, from: nat, at: nat)
    requires from <= at && OccursAt(fold, text, needle, at) && FreeIn(fold, text, needle, from, at)
    ensures Find(fold, text, needle, from) == Some(at)
  {
    FindIsFirst(fold, text, needle, from);
  }

  /** `find_ignore_case`. */
  method FindIgnoreCase(fold: Fold, text: string, needle: string, from: nat) returns (found: Option<(nat, nat)>)
    ensures found == if needle == [] then None else SpanOf(Find(fold, text, needle, from), needle)
  {
    if needle == [] {
      return None;
    }
    var start := from;
    while start < |text|
      invariant from <= start
      invariant Find(fold, text, needle, from) == Find(fold, text, needle, start)
    {
      var i := 0;
      while i < |needle| && start + i < |text| && fold(text[start + i]) == fold(needle[i])
        invariant 0 <= i <= |needle| && start + i <= |text|
        invariant forall k :: start <= k < start + i ==> fold(text[k]) == fold(needle[k - start])
      {
        i := i + 1;
      }
      if i == |needle| {
        assert OccursAt(fold, text, needle, start);
        return Some((start, start + i));
      }
      start := start + 1;
    }
    return None;
  }

  function SpanOf(at: Option<nat>, needle: string): Option<(nat, nat)> {
    match at
    case Some(at) => Some((at, at + |needle|))
    case None => None
  }

  // --- Secrets -----------------------------------------------------------------------------------

  datatype Secret = Secret(command: string, replacement: string, words: seq<string>)

  function TrimStart(s: string, blank: char -> bool): string {
    if s != [] && blank(s[0]) then TrimStart(s[1..], blank) else s
  }

  function TrimEnd(s: string, blank: char -> bool): string {
    if s != [] && blank(s[|s| - 1]) then TrimEnd(s[..|s| - 1], blank) else s
  }

  function Trim(s: string, blank: char -> bool): string { TrimEnd(TrimStart(s, blank), blank) }

  /** The length of the first word, which a space or a tab ends. */
  function HeadLength(s: string): (n: nat)
    ensures n <= |s| && (n < |s| ==> s[n] == ' ' || s[n] == '\t')
    ensures forall i :: 0 <= i < n ==> s[i] != ' ' && s[i] != '\t'
  {
    if s == [] || s[0] == ' ' || s[0] == '\t' then 0 else 1 + HeadLength(s[1..])
  }

  /** The words of `s` between white space. */
  function Words(s: string, blank: char -> bool, word: string): seq<string> {
    if s == [] then (if word == [] then [] else [word])
    else if blank(s[0]) then (if word == [] then [] else [word]) + Words(s[1..], blank, [])
    else Words(s[1..], blank, word + [s[0]])
  }

  function LongWords(words: seq<string>): seq<string> {
    if words == [] then []
    else (if |words[0]| >= MIN_MASKED_WORD_CHARS then [words[0]] else []) + LongWords(words[1..])
  }

  function MaskableWords(s: string, blank: char -> bool): seq<string> { LongWords(Words(s, blank, [])) }

  /** `Secret::new`: a command that carries a password. */
  function NewSecret(line: string, blank: char -> bool): Option<Secret> {
    var command := Trim(line, blank);
    var head := command[..HeadLength(command)];
    var args := Trim(command[HeadLength(command)..], blank);
    if args == [] then None
    else Some(Secret(command, head + " " + MASK, MaskableWords(args, blank)))
  }

  /** `Secret::marked`: a line the user marked secret. */
  function MarkedSecret(line: string, blank: char -> bool): Option<Secret> {
    var command := Trim(line, blank);
    var head := command[..HeadLength(command)];
    var args := Trim(command[HeadLength(command)..], blank);
    if command == [] then None
    else if head != [] && head[0] == '/' && args != []
    then Some(Secret(command, head + " " + MASK, MaskableWords(args, blank)))
    else Some(Secret(command, MASK, MaskableWords(command, blank)))
  }

  /** `n` characters of the command stand before the mask. */
  predicate KeepsHead(secret: Secret, n: nat) {
    && n < |secret.command|
    && secret.replacement == secret.command[..n] + (if n == 0 then MASK else " " + MASK)
  }

  /** A secret as the filter holds it. */
  ghost predicate WellFormed(secret: Secret) {
    && secret.command != []
    && secret.command[0] != ' ' && secret.command[|secret.command| - 1] != ' '
    && (exists n :: KeepsHead(secret, n))
    && (forall i :: 0 <= i < |secret.words| ==> secret.words[i] != [])
  }

  // --- Masking -----------------------------------------------------------------------------------

  /** Every occurrence from `from` on replaced, one after the other. */
  function ReplaceFrom(fold: Fold, text: string, needle: string, replacement: string, from: nat): string
    requires needle != []
    decreases |text| - from
  {
    match Find(fold, text, needle, from)
    case None => text
    case Some(at) =>
      var next := text[..at] + replacement + text[at + |needle|..];
      ReplaceFrom(fold, next, needle, replacement, at + |replacement|)
  }

  /** `str::replace`. */
  function ReplaceAll(text: string, word: string): string
    requires word != []
    decreases |text|
  {
    match Find(EXACT, text, word, 0)
    case None => text
    case Some(at) => text[..at] + MASK + ReplaceAll(text[at + |word|..], word)
  }

  ghost predicate AllWellFormed(secrets: seq<Secret>) {
    forall i :: 0 <= i < |secrets| ==> WellFormed(secrets[i])
  }

  function MaskCommands(fold: Fold, secrets: seq<Secret>, text: string): string
    requires forall i :: 0 <= i < |secrets| ==> secrets[i].command != []
  {
    if secrets == [] then text
    else
      var last := secrets[|secrets| - 1];
      ReplaceFrom(fold, MaskCommands(fold, secrets[..|secrets| - 1], text), last.command, last.replacement, 0)
  }

  function MaskWords(words: seq<string>, text: string): string
    requires forall i :: 0 <= i < |words| ==> words[i] != []
  {
    if words == [] then text
    else ReplaceAll(MaskWords(words[..|words| - 1], text), words[|words| - 1])
  }

  function AllWords(secrets: seq<Secret>): seq<string> {
    if secrets == [] then [] else AllWords(secrets[..|secrets| - 1]) + secrets[|secrets| - 1].words
  }

  lemma {:induction false} AllWordsNonempty(secrets: seq<Secret>)
    requires AllWellFormed(secrets)
    ensures forall i :: 0 <= i < |AllWords(secrets)| ==> AllWords(secrets)[i] != []
  {
    if secrets != [] {
      AllWordsNonempty(secrets[..|secrets| - 1]);
      assert WellFormed(secrets[|secrets| - 1]);
    }
  }

  ghost function Masked(fold: Fold, secrets: seq<Secret>, text: string): string
    requires AllWellFormed(secrets)
  {
    AllWordsNonempty(secrets);
    MaskWords(AllWords(secrets), MaskCommands(fold, secrets, text))
  }

  ghost predicate AllNonempty(words: seq<string>) {
    forall i :: 0 <= i < |words| ==> words[i] != []
  }

  lemma ReplaceOnce(fold: Fold, text: string, needle: string, replacement: string, from: nat, start: nat, end: nat)
    requires needle != [] && SpanOf(Find(fold, text, needle, from), needle) == Some((start, end))
    ensures from <= start < end <= |text|
    ensures ReplaceFrom(fold, text, needle, replacement, from) ==
      ReplaceFrom(fold, text[..start] + replacement + text[end..], needle, replacement, start + |replacement|)
  {
  }

  /** `replace_range`, and the search behind the replacement. The text may grow; what is left to
      search shrinks. */
  method ReplaceNext(fold: Fold, text: string, command: string, replacement: string, from: nat, span: (nat, nat))
      returns (next: string, from': nat, found: Option<(nat, nat)>)
    requires command != [] && SpanOf(Find(fold, text, command, from), command) == Some(span)
    ensures from' <= |next| && |next| - from' < |text| - from
    ensures ReplaceFrom(fold, next, command, replacement, from') == ReplaceFrom(fold, text, command, replacement, from)
    ensures found == SpanOf(Find(fold, next, command, from'), command)
  {
    var (start, end) := span;
    ReplaceOnce(fold, text, command, replacement, from, start, end);
    next, from' := text[..start] + replacement + text[end..], start + |replacement|;
    found := FindIgnoreCase(fold, next, command, from');
  }

  /** One secret of `mask`'s first loop. */
  method MaskCommand(fold: Fold, command: string, replacement: string, text: string) returns (out: string)
    requires command != []
    ensures out == ReplaceFrom(fold, text, command, replacement, 0)
  {
    out := text;
    var from: nat := 0;
    var found := FindIgnoreCase(fold, out, command, from);
    while found.Some?
      invariant from <= |out|
      invariant ReplaceFrom(fold, out, command, replacement, from) == ReplaceFrom(fold, text, command, replacement, 0)
      invariant found == SpanOf(Find(fold, out, command, from), command)
      decreases |out| - from
    {
      out, from, found := ReplaceNext(fold, out, command, replacement, from, found.value);
    }
  }

  /** The words of one secret, in `mask`'s second loop. */
  method MaskWordsOf(words: seq<string>, text: string) returns (out: string)
    requires AllNonempty(words)
    ensures out == MaskWords(words, text)
  {
    out := text;
    for j := 0 to |words|
      invariant out == MaskWords(words[..j], text)
    {
      assert words[..j + 1][..j] == words[..j];
      if Find(EXACT, out, words[j], 0).Some? {
        out := ReplaceAll(out, words[j]);
      }
    }
    assert words[..|words|] == words;
  }

  lemma {:induction false} MaskWordsJoin(xs: seq<string>, ys: seq<string>, text: string)
    requires AllNonempty(xs) && AllNonempty(ys)
    ensures AllNonempty(xs + ys) && MaskWords(xs + ys, text) == MaskWords(ys, MaskWords(xs, text))
  {
    if ys == [] {
      assert xs + ys == xs;
    } else {
      MaskWordsJoin(xs, ys[..|ys| - 1], text);
      assert (xs + ys)[..|xs + ys| - 1] == xs + ys[..|ys| - 1];
    }
  }

  // --- Nothing masked is left --------------------------------------------------------------------

  /** No mask can become part of an occurrence of `needle`. */
  predicate MaskProof(needle: string) {
    && needle != []
    && needle[0] != '*' && needle[|needle| - 1] != '*'
    && Find(EXACT, needle, MASK, 0).None?
  }

  lemma FirstChar(fold: Fold, text: string, needle: string, at: nat)
    requires needle != [] && OccursAt(fold, text, needle, at)
    ensures fold(text[at]) == fold(needle[0])
  {
  }

  lemma LastChar(fold: Fold, text: string, needle: string, at: nat)
    requires needle != [] && OccursAt(fold, text, needle, at)
    ensures fold(text[at + |needle| - 1]) == fold(needle[|needle| - 1])
  {
  }

  lemma MaskIsStars(i: nat)
    requires i < |MASK|
    ensures |MASK| == 6 && MASK[i] == '*'
  {
  }

  /** Stars in the text that an occurrence covers are stars of the needle. */
  lemma CoveredMask(fold: Fold, text: string, needle: string, at: nat, s: nat)
    requires FoldOk(fold) && OccursAt(fold, text, needle, at)
    requires at <= s && s + |MASK| <= at + |needle| && OccursAt(EXACT, text, MASK, s)
    ensures OccursAt(EXACT, needle, MASK, s - at)
  {
    forall k | s - at <= k < s - at + |MASK| ensures needle[k] == '*' == MASK[k - (s - at)] {
      MaskIsStars(k - (s - at));
      assert EXACT(text[k + at]) == EXACT(MASK[k + at - s]);
      assert fold(text[k + at]) == fold(needle[k]);
    }
  }

  /** An occurrence lies before a mask or after it. */
  lemma MaskBlocks(fold: Fold, before: string, after: string, needle: string, at: nat)
    requires FoldOk(fold) && MaskProof(needle)
    requires OccursAt(fold, before + MASK + after, needle, at)
    ensures at + |needle| <= |before| || at >= |before| + |MASK|
  {
    var text := before + MASK + after;
    var s, e := |before|, |before| + |MASK|;
    forall i | s <= i < e ensures text[i] == '*' { MaskIsStars(i - s); }
    FirstChar(fold, text, needle, at);
    LastChar(fold, text, needle, at);
    if at < s && e < at + |needle| {
      assert OccursAt(EXACT, text, MASK, s);
      CoveredMask(fold, text, needle, at, s);
      FindIsFirst(EXACT, needle, MASK, 0);
    }
  }

  lemma OccursBefore(fold: Fold, before: string, rest: string, needle: string, at: nat)
    requires at + |needle| <= |before|
    ensures OccursAt(fold, before + rest, needle, at) <==> OccursAt(fold, before, needle, at)
  {
    var text := before + rest;
    assert forall k :: 0 <= k < |before| ==> text[k] == before[k];
  }

  lemma OccursAfter(fold: Fold, before: string, rest: string, needle: string, at: nat)
    requires at >= |before|
    ensures OccursAt(fold, before + rest, needle, at) <==> OccursAt(fold, rest, needle, at - |before|)
  {
    var text := before + rest;
    var d := |before|;
    if OccursAt(fold, text, needle, at) {
      forall k | at - d <= k < at - d + |needle| ensures fold(rest[k]) == fold(needle[k - (at - d)]) {
        assert rest[k] == text[k + d];
      }
    }
    if OccursAt(fold, rest, needle, at - d) {
      forall k | at <= k < at + |needle| ensures fold(text[k]) == fold(needle[k - at]) {
        assert text[k] == rest[k - d];
      }
    }
  }

  /** A mask between two texts free of `needle` joins them to one that is free of it. */
  lemma FreeAround(fold: Fold, before: string, after: string, needle: string)
    requires FoldOk(fold) && MaskProof(needle)
    requires Free(fold, before, needle) && Free(fold, after, needle)
    ensures Free(fold, before + MASK + after, needle)
  {
    var text := before + MASK + after;
    forall at: nat ensures !OccursAt(fold, text, needle, at) {
      if OccursAt(fold, text, needle, at) {
        MaskBlocks(fold, before, after, needle, at);
        assert text == before + (MASK + after);
        if at + |needle| <= |before| {
          OccursBefore(fold, before, MASK + after, needle, at);
        } else {
          OccursAfter(fold, before + MASK, after, needle, at);
        }
      }
    }
  }

  lemma FreeAfter(fold: Fold, text: string, needle: string, p: nat)
    requires p <= |text| && Free(fold, text, needle)
    ensures Free(fold, text[p..], needle)
  {
    assert text == text[..p] + text[p..];
    forall at: nat ensures !OccursAt(fold, text[p..], needle, at) {
      OccursAfter(fold, text[..p], text[p..], needle, at + p);
    }
  }

  lemma FreeBefore(fold: Fold, text: string, needle: string, p: nat)
    requires p <= |text| && needle != [] && FreeIn(fold, text, needle, 0, p)
    ensures Free(fold, text[..p], needle)
  {
    assert text == text[..p] + text[p..];
    forall at: nat ensures !OccursAt(fold, text[..p], needle, at) {
      if at + |needle| <= p {
        OccursBefore(fold, text[..p], text[p..], needle, at);
      }
    }
  }

  /** Masking a word brings no occurrence of anything, and leaves none of the word. */
  lemma {:induction false} ReplaceAllFree(fold: Fold, text: string, word: string, needle: string)
    requires FoldOk(fold) && MaskProof(needle) && word != []
    requires Free(fold, text, needle) || (needle == word && fold == EXACT)
    ensures Free(fold, ReplaceAll(text, word), needle)
    decreases |text|
  {
    var found := Find(EXACT, text, word, 0);
    FindIsFirst(EXACT, text, word, 0);
    if found.Some? {
      var p := found.value;
      if Free(fold, text, needle) { FreeAfter(fold, text, needle, p + |word|); }
      ReplaceAllFree(fold, text[p + |word|..], word, needle);
      FreeBefore(fold, text, needle, p);
      FreeAround(fold, text[..p], ReplaceAll(text[p + |word|..], word), needle);
    }
  }

  /** What a command becomes: the head it keeps, a space behind one, and the mask. */
  lemma ReplacementParts(secret: Secret, n: nat, prefix: string, rest: string)
    requires KeepsHead(secret, n)
    ensures prefix + secret.replacement + rest == HeadKept(secret, n, prefix) + MASK + rest
    ensures |HeadKept(secret, n, prefix) + MASK| == |prefix + secret.replacement|
  {
  }

  function HeadKept(secret: Secret, n: nat, prefix: string): string
    requires n < |secret.command|
  {
    prefix + secret.command[..n] + (if n == 0 then "" else " ")
  }

  /** An occurrence in the kept head was in the text before. */
  lemma HeadOccurs(fold: Fold, text: string, secret: Secret, n: nat, start: nat, needle: string, at: nat)
    requires FoldOk(fold) && needle != [] && needle[|needle| - 1] != ' '
    requires n < |secret.command| && OccursAt(fold, text, secret.command, start)
    requires OccursAt(fold, HeadKept(secret, n, text[..start]), needle, at)
    ensures at + |needle| <= start + n && OccursAt(fold, text, needle, at)
  {
    var before := HeadKept(secret, n, text[..start]);
    LastChar(fold, before, needle, at);
    assert at + |needle| <= start + n;
    forall k | at <= k < at + |needle| ensures fold(text[k]) == fold(needle[k - at]) {
      assert fold(before[k]) == fold(needle[k - at]);
      if k >= start {
        assert before[k] == secret.command[k - start];
      }
    }
  }

  /** One replaced command: an occurrence of `needle` in the new text ends in the kept head, where
      the old text had it too, or begins behind the mask. */
  lemma ReplacedOccurs(fold: Fold, text: string, secret: Secret, n: nat, start: nat, needle: string, at: nat)
    requires FoldOk(fold) && MaskProof(needle) && needle[|needle| - 1] != ' '
    requires KeepsHead(secret, n) && OccursAt(fold, text, secret.command, start)
    requires OccursAt(fold, text[..start] + secret.replacement + text[start + |secret.command|..], needle, at)
    ensures (at + |needle| <= start + n && OccursAt(fold, text, needle, at))
         || (at >= start + |secret.replacement|
             && OccursAt(fold, text, needle, at - |secret.replacement| + |secret.command|))
  {
    var rest := text[start + |secret.command|..];
    var before := HeadKept(secret, n, text[..start]);
    ReplacementParts(secret, n, text[..start], rest);
    MaskBlocks(fold, before, rest, needle, at);
    if at + |needle| <= |before| {
      assert before + MASK + rest == before + (MASK + rest);
      OccursBefore(fold, before, MASK + rest, needle, at);
      HeadOccurs(fold, text, secret, n, start, needle, at);
    } else {
      OccursAfter(fold, before + MASK, rest, needle, at);
      assert text == text[..start + |secret.command|] + rest;
      OccursAfter(fold, text[..start + |secret.command|], rest, needle, at - |secret.replacement| + |secret.command|);
    }
  }

  /** Masking a command leaves no occurrence of it that begins before `from`, then none at all; and
      brings no occurrence of any other. */
  lemma {:induction false} ReplaceFromFree(fold: Fold, text: string, secret: Secret, n: nat, from: nat, needle: string)
    requires FoldOk(fold) && MaskProof(needle) && needle[|needle| - 1] != ' '
    requires KeepsHead(secret, n)
    requires Free(fold, text, needle) || (needle == secret.command && FreeIn(fold, text, needle, 0, from))
    ensures Free(fold, ReplaceFrom(fold, text, secret.command, secret.replacement, from), needle)
    decreases |text| - from
  {
    var found := Find(fold, text, secret.command, from);
    FindIsFirst(fold, text, secret.command, from);
    if found.Some? {
      var start := found.value;
      var next := text[..start] + secret.replacement + text[start + |secret.command|..];
      var from' := start + |secret.replacement|;
      forall at: nat
        ensures Free(fold, text, needle) ==> !OccursAt(fold, next, needle, at)
        ensures needle == secret.command && at < from' ==> !OccursAt(fold, next, needle, at)
      {
        if OccursAt(fold, next, needle, at) {
          ReplacedOccurs(fold, text, secret, n, start, needle, at);
        }
      }
      ReplaceFromFree(fold, next, secret, n, from', needle);
    }
  }

  ghost predicate Proof(secret: Secret) {
    MaskProof(secret.command) && forall i :: 0 <= i < |secret.words| ==> MaskProof(secret.words[i])
  }

  lemma {:induction false} MaskCommandsFree(fold: Fold, secrets: seq<Secret>, text: string, k: nat)
    requires FoldOk(fold) && AllWellFormed(secrets) && k < |secrets| && MaskProof(secrets[k].command)
    ensures Free(fold, MaskCommands(fold, secrets, text), secrets[k].command)
  {
    var before, last := secrets[..|secrets| - 1], secrets[|secrets| - 1];
    assert WellFormed(secrets[k]) && WellFormed(last);
    var n :| KeepsHead(last, n);
    if k < |before| { MaskCommandsFree(fold, before, text, k); }
    ReplaceFromFree(fold, MaskCommands(fold, before, text), last, n, 0, secrets[k].command);
  }

  lemma {:induction false} MaskWordsFree(fold: Fold, words: seq<string>, text: string, needle: string)
    requires FoldOk(fold) && MaskProof(needle) && AllNonempty(words)
    requires Free(fold, text, needle) || (fold == EXACT && needle in words)
    ensures Free(fold, MaskWords(words, text), needle)
  {
    if words != [] {
      var before, last := words[..|words| - 1], words[|words| - 1];
      if Free(fold, text, needle) || needle in before {
        MaskWordsFree(fold, before, text, needle);
      }
      ReplaceAllFree(fold, MaskWords(before, text), last, needle);
    }
  }

  /** Neither the command, ignoring case, nor one of its masked words is in the text. */
  ghost predicate Hidden(fold: Fold, text: string, secret: Secret) {
    Free(fold, text, secret.command)
    && forall i :: 0 <= i < |secret.words| ==> Free(EXACT, text, secret.words[i])
  }

  /** Main theorem: whatever the text, the other secrets, their order and how they overlap, a whole
      command no mask can become part of is not in the masked text, ignoring case, and neither is
      such a masked word. */
  lemma NoSecretLeft(fold: Fold, secrets: seq<Secret>, text: string, k: nat)
    requires FoldOk(fold) && AllWellFormed(secrets) && k < |secrets|
    ensures MaskProof(secrets[k].command) ==> Free(fold, Masked(fold, secrets, text), secrets[k].command)
    ensures forall i :: 0 <= i < |secrets[k].words| && MaskProof(secrets[k].words[i]) ==>
      Free(EXACT, Masked(fold, secrets, text), secrets[k].words[i])
    ensures Proof(secrets[k]) ==> Hidden(fold, Masked(fold, secrets, text), secrets[k])
  {
    AllWordsNonempty(secrets);
    var words, commandsMasked := AllWords(secrets), MaskCommands(fold, secrets, text);
    if MaskProof(secrets[k].command) {
      MaskCommandsFree(fold, secrets, text, k);
      MaskWordsFree(fold, words, commandsMasked, secrets[k].command);
    }
    forall i | 0 <= i < |secrets[k].words| && MaskProof(secrets[k].words[i])
      ensures Free(EXACT, Masked(fold, secrets, text), secrets[k].words[i])
    {
      WordListed(secrets, k, i);
      MaskWordsFree(EXACT, words, commandsMasked, secrets[k].words[i]);
    }
  }

  lemma {:induction false} WordListed(secrets: seq<Secret>, k: nat, i: nat)
    requires k < |secrets| && i < |secrets[k].words|
    ensures secrets[k].words[i] in AllWords(secrets)
  {
    if k < |secrets| - 1 { WordListed(secrets[..|secrets| - 1], k, i); }
  }

  // --- A masked text stays -----------------------------------------------------------------------

  lemma {:induction false} MaskWordsKeeps(words: seq<string>, text: string)
    requires AllNonempty(words) && forall i :: 0 <= i < |words| ==> Free(EXACT, text, words[i])
    ensures MaskWords(words, text) == text
  {
    if words != [] {
      MaskWordsKeeps(words[..|words| - 1], text);
      FindIsFirst(EXACT, text, words[|words| - 1], 0);
    }
  }

  lemma {:induction false} MaskCommandsKeeps(fold: Fold, secrets: seq<Secret>, text: string)
    requires AllWellFormed(secrets) && forall i :: 0 <= i < |secrets| ==> Free(fold, text, secrets[i].command)
    ensures MaskCommands(fold, secrets, text) == text
  {
    if secrets != [] {
      MaskCommandsKeeps(fold, secrets[..|secrets| - 1], text);
      assert WellFormed(secrets[|secrets| - 1]);
      FindIsFirst(fold, text, secrets[|secrets| - 1].command, 0);
    }
  }

  /** Masking changes nothing in a text in which every secret is hidden. */
  lemma HiddenStays(fold: Fold, secrets: seq<Secret>, text: string)
    requires AllWellFormed(secrets) && forall i :: 0 <= i < |secrets| ==> Hidden(fold, text, secrets[i])
    ensures Masked(fold, secrets, text) == text
  {
    MaskCommandsKeeps(fold, secrets, text);
    AllWordsNonempty(secrets);
    forall i | 0 <= i < |AllWords(secrets)| ensures Free(EXACT, text, AllWords(secrets)[i]) {
      var k, j := WordFrom(secrets, i);
      assert Hidden(fold, text, secrets[k]);
    }
    MaskWordsKeeps(AllWords(secrets), text);
  }

  /** Masking twice is masking once, unless a secret that masks can bring back came back. */
  lemma MaskTwice(fold: Fold, secrets: seq<Secret>, text: string)
    requires FoldOk(fold) && AllWellFormed(secrets)
    requires forall i :: 0 <= i < |secrets| ==>
      Proof(secrets[i]) || Hidden(fold, Masked(fold, secrets, text), secrets[i])
    ensures Masked(fold, secrets, Masked(fold, secrets, text)) == Masked(fold, secrets, text)
  {
    var out := Masked(fold, secrets, text);
    forall i | 0 <= i < |secrets| ensures Hidden(fold, out, secrets[i]) { NoSecretLeft(fold, secrets, text, i); }
    HiddenStays(fold, secrets, out);
  }

  lemma {:induction false} WordFrom(secrets: seq<Secret>, i: nat) returns (k: nat, j: nat)
    requires i < |AllWords(secrets)|
    ensures k < |secrets| && j < |secrets[k].words| && secrets[k].words[j] == AllWords(secrets)[i]
  {
    var n := |AllWords(secrets[..|secrets| - 1])|;
    if i < n {
      k, j := WordFrom(secrets[..|secrets| - 1], i);
    } else {
      k, j := |secrets| - 1, i - n;
    }
  }

  // --- Which words can be hidden at all ----------------------------------------------------------

  /** What is left of a text without the word. */
  lemma ReplaceAtFirst(text: string, word: string, at: nat)
    requires word != [] && OccursAt(EXACT, text, word, at) && FreeIn(EXACT, text, word, 0, at)
    ensures ReplaceAll(text, word) == text[..at] + MASK + ReplaceAll(text[at + |word|..], word)
  {
    FoundAt(EXACT, text, word, 0, at);
  }

  /** A word that begins with a star comes back with the last star of a mask. */
  lemma StarFirstLeaks(word: string)
    requires word != [] && word[0] == '*'
    ensures !Free(EXACT, ReplaceAll(word + word[1..], word), word)
  {
    var text := word + word[1..];
    assert OccursAt(EXACT, text, word, 0);
    ReplaceAtFirst(text, word, 0);
    assert text[|word|..] == word[1..];
    var out := MASK + word[1..];
    assert ReplaceAll(text, word) == out;
    MaskIsStars(5);
    assert OccursAt(EXACT, out, word, 5);
  }

  lemma StarFits(word: string, out: string)
    requires word != [] && word[|word| - 1] == '*' && out == word[..|word| - 1] + MASK
    ensures OccursAt(EXACT, out, word, 0)
  {
    MaskIsStars(0);
    assert out[|word| - 1] == '*';
  }

  lemma NotBeforeItsStar(word: string, p: nat)
    requires p < |word| - 1 && word[0] != word[|word| - 1]
    ensures !OccursAt(EXACT, word[..|word| - 1] + word, word, p)
  {
    var n := |word| - 1;
    var text := word[..n] + word;
    assert text[p] == word[p] && text[p + n] == word[p];
    if OccursAt(EXACT, text, word, p) {
      FirstChar(EXACT, text, word, p);
      LastChar(EXACT, text, word, p);
    }
  }

  lemma WordBetween(before: string, word: string, after: string)
    requires |after| < |word|
    requires forall p :: 0 <= p < |before| ==> !OccursAt(EXACT, before + word + after, word, p)
    ensures ReplaceAll(before + word + after, word) == before + MASK + after
  {
    var text := before + word + after;
    assert OccursAt(EXACT, text, word, |before|);
    ReplaceAtFirst(text, word, |before|);
    assert text[..|before|] == before && text[|before| + |word|..] == after;
  }

  /** A word that ends with a star comes back with the first star of a mask. */
  lemma StarLastLeaks(word: string)
    requires word != [] && word[0] != '*' && word[|word| - 1] == '*'
    ensures !Free(EXACT, ReplaceAll(word[..|word| - 1] + word, word), word)
  {
    var n := |word| - 1;
    forall p | 0 <= p < n ensures !OccursAt(EXACT, word[..n] + word, word, p) { NotBeforeItsStar(word, p); }
    assert word[..n] + word + [] == word[..n] + word && word[..n] + MASK + [] == word[..n] + MASK;
    WordBetween(word[..n], word, []);
    StarFits(word, word[..n] + MASK);
  }

  /** The first mask inside a word is not there in the text any earlier. */
  lemma NoEarlierOccurrence(word: string, q: nat, p: nat)
    requires q > 0 && OccursAt(EXACT, word, MASK, q) && FreeIn(EXACT, word, MASK, 0, q)
    requires p < q
    ensures !OccursAt(EXACT, word[..q] + word + word[q + |MASK|..], word, p)
  {
    var text := word[..q] + word + word[q + |MASK|..];
    if OccursAt(EXACT, text, word, p) {
      forall t | p + q <= t < p + q + |MASK| ensures text[t] == '*' {
        MaskIsStars(t - p - q);
        assert EXACT(word[t - p]) == EXACT(MASK[t - p - q]);
        assert EXACT(text[t]) == EXACT(word[t - p]);
      }
      var at := if p + |MASK| <= q then p else q - 1;
      forall k | at <= k < at + |MASK| ensures word[k] == '*' == MASK[k - at] {
        MaskIsStars(k - at);
        if k < q {
          assert word[k] == text[q + k];
        } else {
          assert EXACT(word[k]) == EXACT(MASK[k - q]);
          MaskIsStars(k - q);
        }
      }
      assert OccursAt(EXACT, word, MASK, at);
    }
  }

  /** A word with a mask in it comes back whole: the mask fills its own gap. */
  lemma MaskInsideLeaks(word: string, q: nat)
    requires q > 0 && OccursAt(EXACT, word, MASK, q) && FreeIn(EXACT, word, MASK, 0, q)
    ensures !Free(EXACT, ReplaceAll(word[..q] + word + word[q + |MASK|..], word), word)
  {
    var after := word[q + |MASK|..];
    forall p | 0 <= p < q ensures !OccursAt(EXACT, word[..q] + word + after, word, p) {
      NoEarlierOccurrence(word, q, p);
    }
    WordBetween(word[..q], word, after);
    MaskFits(word, q);
  }

  lemma MaskFits(word: string, q: nat)
    requires OccursAt(EXACT, word, MASK, q)
    ensures word[..q] + MASK + word[q + |MASK|..] == word
    ensures OccursAt(EXACT, word, word, 0)
  {
    var out := word[..q] + MASK + word[q + |MASK|..];
    forall k | 0 <= k < |word| ensures out[k] == word[k] {
      if q <= k < q + |MASK| { assert EXACT(word[k]) == EXACT(MASK[k - q]); }
    }
  }

  /** A text in which replacing the word leaves it, or brings it back. */
  function LeakText(word: string): string
    requires word != [] && !MaskProof(word)
  {
    if word[0] == '*' then word + word[1..]
    else if word[|word| - 1] == '*' then word[..|word| - 1] + word
    else
      var q := Find(EXACT, word, MASK, 0).value;
      word[..q] + word + word[q + |MASK|..]
  }

  lemma LeakTextLeaks(word: string)
    requires word != [] && !MaskProof(word)
    ensures !Free(EXACT, ReplaceAll(LeakText(word), word), word)
    ensures forall c :: c in LeakText(word) ==> c in word
  {
    if word[0] == '*' {
      StarFirstLeaks(word);
    } else if word[|word| - 1] == '*' {
      StarLastLeaks(word);
    } else {
      var q := Find(EXACT, word, MASK, 0).value;
      FindIsFirst(EXACT, word, MASK, 0);
      FirstChar(EXACT, word, MASK, q);
      MaskIsStars(0);
      MaskInsideLeaks(word, q);
    }
  }

  /** Replacing a word once hides it in every text exactly when the word neither begins nor ends with
      a star and holds no mask. */
  lemma ReplacedIff(word: string)
    requires word != []
    ensures (forall text :: Free(EXACT, ReplaceAll(text, word), word)) <==> MaskProof(word)
  {
    if MaskProof(word) {
      forall text ensures Free(EXACT, ReplaceAll(text, word), word) {
        ReplaceAllFree(EXACT, text, word, word);
      }
    } else {
      LeakTextLeaks(word);
    }
  }

  /** A command with a space or a tab in it is in no text without. */
  lemma BlankKeepsCommandOut(fold: Fold, text: string, command: string, n: nat)
    requires FoldOk(fold) && n < |command| && (command[n] == ' ' || command[n] == '\t')
    requires ' ' !in text && '\t' !in text
    ensures Free(fold, text, command)
  {
    forall at: nat ensures !OccursAt(fold, text, command, at) {
      if OccursAt(fold, text, command, at) { CharOf(fold, text, command, at, n); }
    }
  }

  lemma CharOf(fold: Fold, text: string, needle: string, at: nat, n: nat)
    requires OccursAt(fold, text, needle, at) && n < |needle|
    ensures fold(text[at + n]) == fold(needle[n]) && text[at + n] in text
  {
  }

  lemma OneWordMasked(fold: Fold, secret: Secret, word: string, text: string)
    requires WellFormed(secret) && secret.words == [word] && word != [] && Free(fold, text, secret.command)
    ensures AllWellFormed([secret]) && Masked(fold, [secret], text) == ReplaceAll(text, word)
  {
    CommandNotThere(fold, secret, text);
    OneWord(word, text);
    assert [secret][..0] == [] && AllWords([secret]) == [] + [word] == [word];
  }

  lemma CommandNotThere(fold: Fold, secret: Secret, text: string)
    requires secret.command != [] && Free(fold, text, secret.command)
    ensures MaskCommands(fold, [secret], text) == text
  {
    assert [secret][..0] == [];
    FindIsFirst(fold, text, secret.command, 0);
  }

  lemma OneWord(word: string, text: string)
    requires word != []
    ensures AllNonempty([word]) && MaskWords([word], text) == ReplaceAll(text, word)
  {
    assert [word][..0] == [];
  }

  /** Main theorem, for the usual login command with one password to mask: the filter hides the
      password in every text exactly when the password neither begins nor ends with a star and holds
      no mask. */
  lemma HiddenIff(fold: Fold, line: string, blank: char -> bool, secret: Secret, word: string)
    requires FoldOk(fold) && BlankOk(blank) && NewSecret(line, blank) == Some(secret) && secret.words == [word]
    ensures AllWellFormed([secret])
    ensures (forall text :: Free(EXACT, Masked(fold, [secret], text), word)) <==> MaskProof(word)
  {
    SecretsFromLines(line, blank);
    assert WellFormed(secret) && word == secret.words[0];
    if MaskProof(word) {
      forall text ensures Free(EXACT, Masked(fold, [secret], text), word) {
        NoSecretLeft(fold, [secret], text, 0);
      }
    } else {
      var text := LeakText(word);
      LeakTextLeaks(word);
      LoginWord(line, blank, secret);
      BlankKeepsCommandOut(fold, text, secret.command, HeadLength(secret.command));
      OneWordMasked(fold, secret, word, text);
    }
  }

  /** A login command has white space behind its head, and its words have none. */
  lemma LoginWord(line: string, blank: char -> bool, secret: Secret)
    requires BlankOk(blank) && NewSecret(line, blank) == Some(secret)
    ensures HeadLength(secret.command) < |secret.command|
    ensures forall i :: 0 <= i < |secret.words| ==> ' ' !in secret.words[i] && '\t' !in secret.words[i]
  {
    var command := Trim(line, blank);
    var args := Trim(command[HeadLength(command)..], blank);
    TrimEdges(command[HeadLength(command)..], blank);
    forall i | 0 <= i < |secret.words| ensures ' ' !in secret.words[i] && '\t' !in secret.words[i] {
      MaskableWordsAre(args, blank, secret.words[i]);
      WordHasNoBlank(args, blank, secret.words[i]);
    }
  }

  /** With several words the condition is not needed: a word that holds another masked word, one that
      can be hidden, is hidden with it. */
  lemma HiddenByAnother(words: seq<string>, text: string, word: string, part: string, at: nat)
    requires AllNonempty(words) && part in words && MaskProof(part) && OccursAt(EXACT, word, part, at)
    ensures Free(EXACT, MaskWords(words, text), word)
  {
    var out := MaskWords(words, text);
    MaskWordsFree(EXACT, words, text, part);
    forall p: nat ensures !OccursAt(EXACT, out, word, p) {
      if OccursAt(EXACT, out, word, p) { OccursWithin(out, word, p, part, at); }
    }
  }

  lemma OccursWithin(text: string, word: string, p: nat, part: string, at: nat)
    requires OccursAt(EXACT, text, word, p) && OccursAt(EXACT, word, part, at)
    ensures OccursAt(EXACT, text, part, p + at)
  {
    forall k | p + at <= k < p + at + |part| ensures EXACT(text[k]) == EXACT(part[k - p - at]) {
      assert EXACT(text[k]) == EXACT(word[k - p]) && EXACT(word[k - p]) == EXACT(part[k - p - at]);
    }
  }

  // --- Secrets made from lines -------------------------------------------------------------------

  lemma {:induction false} TrimStartEdge(s: string, blank: char -> bool)
    ensures TrimStart(s, blank) != [] ==> !blank(TrimStart(s, blank)[0])
    ensures exists i :: 0 <= i <= |s| && TrimStart(s, blank) == s[i..]
  {
    if s != [] && blank(s[0]) {
      TrimStartEdge(s[1..], blank);
      var i :| 0 <= i <= |s[1..]| && TrimStart(s[1..], blank) == s[1..][i..];
      assert s[1..][i..] == s[i + 1..];
    } else {
      assert s == s[0..];
    }
  }

  lemma {:induction false} TrimEndEdge(s: string, blank: char -> bool)
    ensures var r := TrimEnd(s, blank); r != [] ==> !blank(r[|r| - 1]) && r[0] == s[0]
    ensures TrimEnd(s, blank) <= s
  {
    if s != [] && blank(s[|s| - 1]) { TrimEndEdge(s[..|s| - 1], blank); }
  }

  /** A trimmed text has no white space at its ends and nothing the text had not. */
  lemma TrimEdges(s: string, blank: char -> bool)
    ensures var r := Trim(s, blank); r != [] ==> !blank(r[0]) && !blank(r[|r| - 1])
    ensures forall c :: c in Trim(s, blank) ==> c in s
  {
    TrimStartEdge(s, blank);
    TrimEndEdge(TrimStart(s, blank), blank);
  }

  /** `word` stands at `i..j`, and white space or an end of the text on both sides. */
  predicate WordAt(s: string, blank: char -> bool, word: string, i: nat, j: nat) {
    && i < j <= |s| && s[i..j] == word
    && (forall k :: i <= k < j ==> !blank(s[k]))
    && (i > 0 ==> blank(s[i - 1])) && (j < |s| ==> blank(s[j]))
  }

  /** One of the words between white space. */
  ghost predicate WordOf(s: string, blank: char -> bool, word: string) {
    exists i, j :: 0 <= i < j && WordAt(s, blank, word, i, j)
  }

  lemma WordHasNoBlank(s: string, blank: char -> bool, word: string)
    requires WordOf(s, blank, word)
    ensures forall c :: c in word ==> !blank(c) && c in s
  {
    var i, j :| 0 <= i < j && WordAt(s, blank, word, i, j);
    forall c | c in word ensures !blank(c) && c in s {
      var k :| 0 <= k < |word| && word[k] == c;
      assert s[i + k] == c;
    }
  }

  ghost predicate NoBlank(s: string, blank: char -> bool) { forall k :: 0 <= k < |s| ==> !blank(s[k]) }

  /** A word of a text that begins with a piece without white space and then has some is that piece
      or one of the rest. */
  lemma WordsSplit(piece: string, b: char, rest: string, blank: char -> bool, word: string)
    requires NoBlank(piece, blank) && blank(b)
    ensures WordOf(piece + [b] + rest, blank, word) <==> (piece != [] && word == piece) || WordOf(rest, blank, word)
  {
    var s := piece + [b] + rest;
    if WordOf(s, blank, word) {
      var i, j :| 0 <= i < j && WordAt(s, blank, word, i, j);
      if i <= |piece| {
        FirstWord(piece, b, rest, blank, word, i, j);
      } else {
        LaterWord(piece, b, rest, blank, word, i, j);
      }
    }
    if piece != [] && word == piece { FirstWord(piece, b, rest, blank, word, 0, |piece|); }
    if WordOf(rest, blank, word) {
      var i, j :| 0 <= i < j && WordAt(rest, blank, word, i, j);
      var n := |piece| + 1;
      LaterWord(piece, b, rest, blank, word, i + n, j + n);
    }
  }

  lemma FirstWord(piece: string, b: char, rest: string, blank: char -> bool, word: string, i: nat, j: nat)
    requires NoBlank(piece, blank) && blank(b) && i <= |piece| && i < j
    ensures WordAt(piece + [b] + rest, blank, word, i, j) <==> i == 0 && j == |piece| && word == piece
  {
    var s := piece + [b] + rest;
    assert s[|piece|] == b && s[..|piece|] == piece == s[0..|piece|];
    assert forall k :: 0 <= k < |piece| ==> s[k] == piece[k];
  }

  lemma Behind(s: string, rest: string, n: nat, i: nat, j: nat)
    requires n <= i < j <= |s| && rest == s[n..]
    ensures s[i..j] == rest[i - n..j - n]
  {
  }

  lemma BlankBehind(s: string, rest: string, n: nat, i: nat, j: nat, blank: char -> bool)
    requires n <= i < j <= |s| && rest == s[n..]
    ensures (forall k :: i <= k < j ==> !blank(s[k])) <==> forall k :: i - n <= k < j - n ==> !blank(rest[k])
  {
    if forall k :: i <= k < j ==> !blank(s[k]) {
      forall k | i - n <= k < j - n ensures !blank(rest[k]) { assert rest[k] == s[k + n]; }
    }
    if forall k :: i - n <= k < j - n ==> !blank(rest[k]) {
      forall k | i <= k < j ensures !blank(s[k]) { assert s[k] == rest[k - n]; }
    }
  }

  lemma WordBehind(s: string, rest: string, n: nat, blank: char -> bool, word: string, i: nat, j: nat)
    requires 0 < n <= i < j && n <= |s| && rest == s[n..] && blank(s[n - 1])
    ensures WordAt(s, blank, word, i, j) <==> WordAt(rest, blank, word, i - n, j - n)
  {
    if j <= |s| {
      Behind(s, rest, n, i, j);
      BlankBehind(s, rest, n, i, j, blank);
      assert i > n ==> s[i - 1] == rest[i - 1 - n];
      assert j < |s| ==> s[j] == rest[j - n];
    }
  }

  lemma LaterWord(piece: string, b: char, rest: string, blank: char -> bool, word: string, i: nat, j: nat)
    requires blank(b) && |piece| < i < j
    ensures WordAt(piece + [b] + rest, blank, word, i, j) <==>
      WordAt(rest, blank, word, i - |piece| - 1, j - |piece| - 1)
  {
    var s, n := piece + [b] + rest, |piece| + 1;
    assert s[n - 1] == b && s[n..] == rest;
    WordBehind(s, rest, n, blank, word, i, j);
  }

  lemma OneWordOnly(piece: string, blank: char -> bool, word: string)
    requires NoBlank(piece, blank)
    ensures WordOf(piece, blank, word) <==> piece != [] && word == piece
  {
    if WordOf(piece, blank, word) {
      var i, j :| 0 <= i < j && WordAt(piece, blank, word, i, j);
      assert i == 0 && j == |piece|;
    }
    if piece != [] && word == piece {
      assert piece[0..|piece|] == piece;
      assert WordAt(piece, blank, word, 0, |piece|);
    }
  }

  /** The loop over the characters collects exactly the words between white space. */
  lemma {:induction false} WordsAre(s: string, blank: char -> bool, piece: string, word: string)
    requires NoBlank(piece, blank)
    ensures word in Words(s, blank, piece) <==> WordOf(piece + s, blank, word)
    decreases |s|
  {
    if s == [] {
      assert piece + s == piece;
      OneWordOnly(piece, blank, word);
    } else if blank(s[0]) {
      WordsAre(s[1..], blank, [], word);
      assert [] + s[1..] == s[1..] && piece + s == piece + [s[0]] + s[1..];
      WordsSplit(piece, s[0], s[1..], blank, word);
    } else {
      WordsAre(s[1..], blank, piece + [s[0]], word);
      assert piece + s == piece + [s[0]] + s[1..];
    }
  }

  lemma {:induction false} LongWordsAre(words: seq<string>, word: string)
    ensures word in LongWords(words) <==> word in words && |word| >= MIN_MASKED_WORD_CHARS
  {
    if words != [] {
      LongWordsAre(words[1..], word);
      assert words == [words[0]] + words[1..];
    }
  }

  /** The masked words are exactly the text's words of four characters or more. */
  lemma MaskableWordsAre(s: string, blank: char -> bool, word: string)
    ensures word in MaskableWords(s, blank) <==> WordOf(s, blank, word) && |word| >= MIN_MASKED_WORD_CHARS
  {
    assert [] + s == s;
    WordsAre(s, blank, [], word);
    LongWordsAre(Words(s, blank, []), word);
  }

  lemma MaskableWordsFrom(s: string, blank: char -> bool)
    ensures AllNonempty(MaskableWords(s, blank))
    ensures '*' !in s ==> forall i :: 0 <= i < |MaskableWords(s, blank)| ==> '*' !in MaskableWords(s, blank)[i]
  {
    var words := MaskableWords(s, blank);
    forall i | 0 <= i < |words| ensures words[i] != [] && ('*' !in s ==> '*' !in words[i]) {
      MaskableWordsAre(s, blank, words[i]);
      WordHasNoBlank(s, blank, words[i]);
    }
  }

  lemma MaskHasStar(needle: string, at: nat)
    requires OccursAt(EXACT, needle, MASK, at)
    ensures '*' in needle
  {
    FirstChar(EXACT, needle, MASK, at);
    MaskIsStars(0);
    assert needle[at] == '*';
  }

  lemma StarlessIsProof(needle: string)
    requires needle != [] && '*' !in needle
    ensures MaskProof(needle)
  {
    var found := Find(EXACT, needle, MASK, 0);
    FindIsFirst(EXACT, needle, MASK, 0);
    if found.Some? {
      MaskHasStar(needle, found.value);
    }
  }

  /** The first word of a line. */
  function Head(line: string, blank: char -> bool): string {
    var command := Trim(line, blank);
    command[..HeadLength(command)]
  }

  /** What stands behind the first word of a line. */
  function Arguments(line: string, blank: char -> bool): string {
    var command := Trim(line, blank);
    Trim(command[HeadLength(command)..], blank)
  }

  /** The line begins with a slash and has arguments. */
  predicate IsCommand(line: string, blank: char -> bool) {
    var command := Trim(line, blank);
    HeadLength(command) > 0 && command[0] == '/' && Arguments(line, blank) != []
  }

  /** The secret's masked words are those of the text that are long enough. */
  ghost predicate MasksWords(secret: Secret, text: string, blank: char -> bool) {
    forall word :: word in secret.words <==> WordOf(text, blank, word) && |word| >= MIN_MASKED_WORD_CHARS
  }

  ghost predicate BlankOk(blank: char -> bool) { blank(' ') && blank('\t') }

  lemma WordsMasked(command: string, replacement: string, text: string, blank: char -> bool)
    ensures MasksWords(Secret(command, replacement, MaskableWords(text, blank)), text, blank)
  {
    forall word
      ensures word in MaskableWords(text, blank) <==> WordOf(text, blank, word) && |word| >= MIN_MASKED_WORD_CHARS
    {
      MaskableWordsAre(text, blank, word);
    }
  }

  lemma SecretShape(command: string, n: nat, text: string, blank: char -> bool)
    requires n < |command| && command[0] != ' ' && command[|command| - 1] != ' '
    ensures n == 0 ==> WellFormed(Secret(command, MASK, MaskableWords(text, blank)))
    ensures n > 0 ==> WellFormed(Secret(command, command[..n] + " " + MASK, MaskableWords(text, blank)))
  {
    MaskableWordsFrom(text, blank);
    assert command[..n] + " " + MASK == command[..n] + (" " + MASK);
    assert command[..0] + MASK == MASK;
    var replacement := if n == 0 then MASK else command[..n] + " " + MASK;
    assert KeepsHead(Secret(command, replacement, MaskableWords(text, blank)), n);
  }

  lemma StarlessProof(command: string, replacement: string, text: string, blank: char -> bool)
    requires command != [] && '*' !in command && '*' !in text
    ensures Proof(Secret(command, replacement, MaskableWords(text, blank)))
  {
    StarlessIsProof(command);
    MaskableWordsFrom(text, blank);
    WordsProof(MaskableWords(text, blank));
  }

  /** The trimmed line, its first word and what stands behind it. */
  lemma LineParts(line: string, blank: char -> bool)
    requires BlankOk(blank) && Trim(line, blank) != []
    ensures var command := Trim(line, blank);
      command[0] != ' ' && command[|command| - 1] != ' ' && 0 < HeadLength(command)
    ensures Arguments(line, blank) != [] ==> HeadLength(Trim(line, blank)) < |Trim(line, blank)|
    ensures '*' !in line ==> '*' !in Trim(line, blank) && '*' !in Arguments(line, blank)
  {
    var command := Trim(line, blank);
    TrimEdges(line, blank);
    TrimEdges(command[HeadLength(command)..], blank);
  }

  lemma LoginSecret(line: string, blank: char -> bool, secret: Secret)
    requires BlankOk(blank) && NewSecret(line, blank) == Some(secret)
    ensures MadeFrom(secret, line, Head(line, blank) + " " + MASK, Arguments(line, blank), blank)
  {
    var command := Trim(line, blank);
    var n := HeadLength(command);
    LineParts(line, blank);
    WordsMasked(command, command[..n] + " " + MASK, Arguments(line, blank), blank);
    SecretShape(command, n, Arguments(line, blank), blank);
    if '*' !in line { StarlessProof(command, command[..n] + " " + MASK, Arguments(line, blank), blank); }
  }

  lemma MarkedLine(line: string, blank: char -> bool, secret: Secret)
    requires BlankOk(blank) && MarkedSecret(line, blank) == Some(secret) && !IsCommand(line, blank)
    ensures MadeFrom(secret, line, MASK, Trim(line, blank), blank)
  {
    var command := Trim(line, blank);
    LineParts(line, blank);
    WordsMasked(command, MASK, command, blank);
    SecretShape(command, 0, command, blank);
    if '*' !in line { StarlessProof(command, MASK, command, blank); }
  }

  /** What a marked line's secret masks the words of. */
  function MarkedText(line: string, blank: char -> bool): string {
    if IsCommand(line, blank) then Arguments(line, blank) else Trim(line, blank)
  }

  /** What is shown in place of a marked line. */
  function MarkedShown(line: string, blank: char -> bool): string {
    if IsCommand(line, blank) then Head(line, blank) + " " + MASK else MASK
  }

  /** A line with arguments is a login command, and a marked line with any text is taken. Each becomes
      a secret of the right shape, which shows the first word and the mask, or of a marked line that
      is no command with arguments the mask alone, and whose masked words are exactly the words of
      four characters or more of the arguments, or of such a marked line. A line without a star
      becomes one that masking hides. */
  lemma SecretsFromLines(line: string, blank: char -> bool)
    requires BlankOk(blank)
    ensures NewSecret(line, blank).Some? <==> Arguments(line, blank) != []
    ensures NewSecret(line, blank).Some? ==>
      MadeFrom(NewSecret(line, blank).value, line, Head(line, blank) + " " + MASK, Arguments(line, blank), blank)
    ensures MarkedSecret(line, blank).Some? <==> Trim(line, blank) != []
    ensures MarkedSecret(line, blank).Some? ==>
      MadeFrom(MarkedSecret(line, blank).value, line, MarkedShown(line, blank), MarkedText(line, blank), blank)
  {
    if NewSecret(line, blank).Some? { LoginSecret(line, blank, NewSecret(line, blank).value); }
    if MarkedSecret(line, blank).Some? {
      if IsCommand(line, blank) {
        LoginSecret(line, blank, MarkedSecret(line, blank).value);
      } else {
        MarkedLine(line, blank, MarkedSecret(line, blank).value);
      }
    }
  }

  /** A secret with the trimmed line for its command that shows `shown` in its place and masks the
      words of `text`; masking hides it when the line has no star. */
  ghost predicate MadeFrom(secret: Secret, line: string, shown: string, text: string, blank: char -> bool) {
    && secret.command == Trim(line, blank) && secret.replacement == shown && MasksWords(secret, text, blank)
    && WellFormed(secret) && ('*' !in line ==> Proof(secret))
  }

  lemma WordsProof(words: seq<string>)
    requires AllNonempty(words) && forall i :: 0 <= i < |words| ==> '*' !in words[i]
    ensures forall i :: 0 <= i < |words| ==> MaskProof(words[i])
  {
    forall i | 0 <= i < |words| ensures MaskProof(words[i]) { StarlessIsProof(words[i]); }
  }

  // --- The filter --------------------------------------------------------------------------------

  /** How many bytes a character takes in UTF-8. */
  function Width(c: char): (n: nat)
    ensures 1 <= n <= 4
  {
    if c < 0x80 as char then 1 else if c < 0x800 as char then 2 else if c < 0x10000 as char then 3 else 4
  }

  function Bytes(s: string): nat { if s == [] then 0 else Width(s[0]) + Bytes(s[1..]) }

  ghost predicate LongestFirst(secrets: seq<Secret>) {
    forall i, j :: 0 <= i < j < |secrets| ==> Bytes(secrets[i].command) >= Bytes(secrets[j].command)
  }

  ghost predicate CommandsDiffer(secrets: seq<Secret>) {
    forall i, j :: 0 <= i < j < |secrets| ==> secrets[i].command != secrets[j].command
  }

  ghost predicate Holds(secrets: seq<Secret>, command: string) {
    exists i :: 0 <= i < |secrets| && secrets[i].command == command
  }

  /** The secret put behind every command that is not shorter. */
  ghost predicate PutIn(was: seq<Secret>, secret: Secret, now: seq<Secret>) {
    exists p ::
      && 0 <= p <= |was|
      && now == was[..p] + [secret] + was[p..]
      && (forall i :: 0 <= i < p ==> Bytes(was[i].command) >= Bytes(secret.command))
      && (forall i :: p <= i < |was| ==> Bytes(was[i].command) < Bytes(secret.command))
  }

  /** `now` is `was` with the secret at `p`. */
  ghost predicate PutAt(was: seq<Secret>, secret: Secret, p: nat, now: seq<Secret>) {
    && p <= |was| && |now| == |was| + 1 && now[p] == secret
    && (forall i :: 0 <= i < p ==> now[i] == was[i])
    && (forall i :: p < i < |now| ==> now[i] == was[i - 1])
  }

  lemma PutInOrder(was: seq<Secret>, secret: Secret, p: nat, now: seq<Secret>)
    requires LongestFirst(was) && PutAt(was, secret, p, now)
    requires forall i :: p <= i < |was| ==> Bytes(was[i].command) < Bytes(secret.command)
    requires forall i :: 0 <= i < p ==> Bytes(was[i].command) >= Bytes(secret.command)
    ensures LongestFirst(now)
  {
    forall i, j | 0 <= i < j < |now| ensures Bytes(now[i].command) >= Bytes(now[j].command) {
      var i', j' := if i < p then i else i - 1, if j < p then j else j - 1;
      if i != p && j != p { assert Bytes(was[i'].command) >= Bytes(was[j'].command); }
    }
  }

  lemma PutInDiffers(was: seq<Secret>, secret: Secret, p: nat, now: seq<Secret>)
    requires CommandsDiffer(was) && PutAt(was, secret, p, now) && !Holds(was, secret.command)
    ensures CommandsDiffer(now)
  {
    forall i, j | 0 <= i < j < |now| ensures now[i].command != now[j].command {
      var i', j' := if i < p then i else i - 1, if j < p then j else j - 1;
      if i != p && j != p { assert was[i'].command != was[j'].command; }
    }
  }

  lemma LongerBefore(was: seq<Secret>, secret: Secret, p: nat)
    requires LongestFirst(was) && p <= |was| && (p > 0 ==> Bytes(was[p - 1].command) >= Bytes(secret.command))
    ensures forall i :: 0 <= i < p ==> Bytes(was[i].command) >= Bytes(secret.command)
  {
    forall i | 0 <= i < p ensures Bytes(was[i].command) >= Bytes(secret.command) {
      if i < p - 1 { assert Bytes(was[i].command) >= Bytes(was[p - 1].command); }
    }
  }

  lemma PutInWellFormed(was: seq<Secret>, secret: Secret, p: nat, now: seq<Secret>)
    requires AllWellFormed(was) && WellFormed(secret) && PutAt(was, secret, p, now)
    ensures AllWellFormed(now)
  {
    forall i | 0 <= i < |now| ensures WellFormed(now[i]) {
      if i != p { assert WellFormed(was[if i < p then i else i - 1]); }
    }
  }

  lemma PutInKeeps(was: seq<Secret>, secret: Secret, p: nat, now: seq<Secret>)
    requires AllWellFormed(was) && LongestFirst(was) && CommandsDiffer(was) && WellFormed(secret)
    requires p <= |was| && !Holds(was, secret.command) && now == was[..p] + [secret] + was[p..]
    requires forall i :: p <= i < |was| ==> Bytes(was[i].command) < Bytes(secret.command)
    requires p > 0 ==> Bytes(was[p - 1].command) >= Bytes(secret.command)
    ensures AllWellFormed(now) && LongestFirst(now) && CommandsDiffer(now) && PutIn(was, secret, now)
  {
    LongerBefore(was, secret, p);
    assert PutAt(was, secret, p, now);
    PutInOrder(was, secret, p, now);
    PutInDiffers(was, secret, p, now);
    PutInWellFormed(was, secret, p, now);
  }

  lemma EachHidden(fold: Fold, secrets: seq<Secret>, text: string)
    requires FoldOk(fold) && AllWellFormed(secrets)
    ensures forall i :: 0 <= i < |secrets| && Proof(secrets[i]) ==>
      Hidden(fold, Masked(fold, secrets, text), secrets[i])
  {
    forall i | 0 <= i < |secrets| && Proof(secrets[i]) ensures Hidden(fold, Masked(fold, secrets, text), secrets[i]) {
      NoSecretLeft(fold, secrets, text, i);
    }
  }

  class LineFilter {
    var secrets: seq<Secret>

    ghost predicate Valid()
      reads this
    {
      AllWellFormed(secrets) && LongestFirst(secrets) && CommandsDiffer(secrets)
    }

    constructor ()
      ensures Valid() && secrets == []
    {
      secrets := [];
    }

    /** `push_secret`; the stable sort moves the new secret alone. */
    method PushSecret(secret: Secret)
      requires Valid() && WellFormed(secret)
      modifies this
      ensures Valid()
      ensures if Holds(old(secrets), secret.command) then secrets == old(secrets)
        else PutIn(old(secrets), secret, secrets)
    {
      var i := 0;
      while i < |secrets|
        invariant 0 <= i <= |secrets|
        invariant forall k :: 0 <= k < i ==> secrets[k].command != secret.command
      {
        if secrets[i].command == secret.command {
          return;
        }
        i := i + 1;
      }
      var p := |secrets|;
      while p > 0 && Bytes(secrets[p - 1].command) < Bytes(secret.command)
        invariant 0 <= p <= |secrets|
        invariant forall k :: p <= k < |secrets| ==> Bytes(secrets[k].command) < Bytes(secret.command)
      {
        p := p - 1;
      }
      PutInKeeps(secrets, secret, p, secrets[..p] + [secret] + secrets[p..]);
      secrets := secrets[..p] + [secret] + secrets[p..];
    }

    /** `add_secret`: a login command. */
    method AddSecret(line: string, blank: char -> bool)
      requires Valid() && BlankOk(blank)
      modifies this
      ensures Valid()
      ensures Arguments(line, blank) == [] || Holds(old(secrets), Trim(line, blank)) ==> secrets == old(secrets)
      ensures Arguments(line, blank) != [] && !Holds(old(secrets), Trim(line, blank)) ==>
        (exists secret ::
           && MadeFrom(secret, line, Head(line, blank) + " " + MASK, Arguments(line, blank), blank)
           && PutIn(old(secrets), secret, secrets))
    {
      SecretsFromLines(line, blank);
      var secret := NewSecret(line, blank);
      if secret.Some? {
        PushSecret(secret.value);
      }
    }

    /** `add_secret_line`: a line the user marked secret. */
    method AddSecretLine(line: string, blank: char -> bool)
      requires Valid() && BlankOk(blank)
      modifies this
      ensures Valid()
      ensures Trim(line, blank) == [] || Holds(old(secrets), Trim(line, blank)) ==> secrets == old(secrets)
      ensures Trim(line, blank) != [] && !Holds(old(secrets), Trim(line, blank)) ==>
        (exists secret ::
           && MadeFrom(secret, line, MarkedShown(line, blank), MarkedText(line, blank), blank)
           && PutIn(old(secrets), secret, secrets))
    {
      SecretsFromLines(line, blank);
      var secret := MarkedSecret(line, blank);
      if secret.Some? {
        PushSecret(secret.value);
      }
    }

    /** `mask`. */
    method Mask(fold: Fold, text: string) returns (out: string)
      requires Valid() && FoldOk(fold)
      ensures out == Masked(fold, secrets, text)
      ensures forall i :: 0 <= i < |secrets| && Proof(secrets[i]) ==> Hidden(fold, out, secrets[i])
    {
      out := MaskAllCommands(fold, secrets, text);
      out := MaskAllWords(secrets, out);
      EachHidden(fold, secrets, text);
    }
  }

  /** The first loop of `mask`. */
  method MaskAllCommands(fold: Fold, secrets: seq<Secret>, text: string) returns (out: string)
    requires AllWellFormed(secrets)
    ensures out == MaskCommands(fold, secrets, text)
  {
    out := text;
    for i := 0 to |secrets|
      invariant out == MaskCommands(fold, secrets[..i], text)
    {
      assert secrets[..i + 1][..i] == secrets[..i] && WellFormed(secrets[i]);
      out := MaskCommand(fold, secrets[i].command, secrets[i].replacement, out);
    }
    assert secrets[..|secrets|] == secrets;
  }

  /** The second loop of `mask`. */
  method MaskAllWords(secrets: seq<Secret>, text: string) returns (out: string)
    requires AllWellFormed(secrets)
    ensures AllNonempty(AllWords(secrets)) && out == MaskWords(AllWords(secrets), text)
  {
    out := text;
    for i := 0 to |secrets|
      invariant AllNonempty(AllWords(secrets[..i])) && out == MaskWords(AllWords(secrets[..i]), text)
    {
      assert secrets[..i + 1][..i] == secrets[..i] && WellFormed(secrets[i]);
      MaskWordsJoin(AllWords(secrets[..i]), secrets[i].words, text);
      out := MaskWordsOf(secrets[i].words, out);
    }
    assert secrets[..|secrets|] == secrets;
  }
}
