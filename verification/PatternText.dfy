/** How a pattern is written to `matches.ini` (`pattern.rs`), whose reader cuts every line at `#`. */
module PatternText {

  /** What a regular expression's spelling says, character by character. `\#`, `\x23` and a bare
      `#` all say a number sign. */
  datatype Sign = Hash | Escape(c: char) | Plain(c: char) | Dangling

  const HASH_SPELLED: string := "\\x23"

  /** `s` begins with "23". */
  predicate Digits(s: string) {
    |s| > 1 && s[0] == '2' && s[1] == '3'
  }

  function Read(pattern: string): seq<Sign> {
    if pattern == [] then []
    else if pattern[0] == '\\' then
      if |pattern| == 1 then [Dangling]
      else if pattern[1] == '#' then [Hash] + Read(pattern[2..])
      else if pattern[1] == 'x' && Digits(pattern[2..]) then [Hash] + Read(pattern[4..])
      else [Escape(pattern[1])] + Read(pattern[2..])
    else if pattern[0] == '#' then [Hash] + Read(pattern[1..])
    else [Plain(pattern[0])] + Read(pattern[1..])
  }

  function Respelled(pattern: string): string {
    if pattern == [] then []
    else if pattern[0] == '\\' && |pattern| > 1 then
      (if pattern[1] == '#' then HASH_SPELLED else pattern[..2]) + Respelled(pattern[2..])
    else (if pattern[0] == '#' then HASH_SPELLED else pattern[..1]) + Respelled(pattern[1..])
  }

  /** `escape_hash`. */
  method EscapeHash(pattern: string) returns (out: string)
    ensures out == Respelled(pattern)
  {
    out := [];
    var at := 0;
    while at < |pattern|
      invariant 0 <= at <= |pattern|
      invariant out + Respelled(pattern[at..]) == Respelled(pattern)
    {
      RespelledStep(pattern, at);
      var c := pattern[at];
      at := at + 1;
      var spelled: string;
      if c == '\\' && at < |pattern| {
        var next := pattern[at];
        at := at + 1;
        spelled := if next == '#' then HASH_SPELLED else [c, next];
      } else {
        spelled := if c == '#' then HASH_SPELLED else [c];
      }
      Regroup(out, spelled, Respelled(pattern[at..]));
      out := out + spelled;
    }
    assert pattern[at..] == [] && out + [] == out;
  }

  /** How the text goes on at `at`. */
  lemma RespelledStep(pattern: string, at: nat)
    requires at < |pattern|
    ensures var c, rest := pattern[at], pattern[at + 1..];
      if c == '\\' && rest != [] then
        Respelled(pattern[at..]) ==
          (if rest[0] == '#' then HASH_SPELLED else [c, rest[0]]) + Respelled(pattern[at + 2..])
      else Respelled(pattern[at..]) == (if c == '#' then HASH_SPELLED else [c]) + Respelled(rest)
  {
    var s := pattern[at..];
    assert s[1..] == pattern[at + 1..] && s[..1] == [s[0]];
    if |s| > 1 { assert s[2..] == pattern[at + 2..] && s[..2] == [s[0], s[1]]; }
  }

  lemma Regroup(a: string, b: string, c: string)
    ensures a + (b + c) == a + b + c
  {
  }

  lemma SpelledHash(rest: string)
    ensures Read(HASH_SPELLED + rest) == [Hash] + Read(rest)
  {
    var s := HASH_SPELLED + rest;
    assert s[0] == '\\' && s[1] == 'x' && s[2] == '2' && s[3] == '3';
    assert s[2..][0] == '2' && s[2..][1] == '3' && s[4..] == rest;
  }

  /** No number sign is left for the reader to cut at, and the pattern says what it said. */
  lemma {:induction false} RespelledMeansTheSame(pattern: string)
    ensures '#' !in Respelled(pattern)
    ensures Read(Respelled(pattern)) == Read(pattern)
  {
    if pattern == [] {
    } else if pattern[0] == '\\' && |pattern| > 1 {
      RespelledMeansTheSame(pattern[2..]);
      if pattern[1] == '#' {
        SpelledHash(Respelled(pattern[2..]));
      } else {
        assert pattern[..2] == [pattern[0], pattern[1]];
        KeptEscape(pattern);
      }
    } else {
      RespelledMeansTheSame(pattern[1..]);
      if pattern[0] == '#' {
        SpelledHash(Respelled(pattern[1..]));
      } else {
        assert pattern[..1] == [pattern[0]];
        KeptSign(pattern);
      }
    }
  }

  lemma KeptSign(pattern: string)
    requires pattern != [] && pattern[0] != '#' && (pattern[0] == '\\' ==> |pattern| == 1)
    requires Read(Respelled(pattern[1..])) == Read(pattern[1..])
    ensures Read(Respelled(pattern)) == Read(pattern)
  {
    var out := Respelled(pattern);
    assert out == pattern[..1] + Respelled(pattern[1..]);
    assert out[0] == pattern[0] && out[1..] == Respelled(pattern[1..]);
    if |pattern| == 1 { assert pattern[1..] == [] && |out| == 1; }
  }

  lemma KeptEscape(pattern: string)
    requires |pattern| > 1 && pattern[0] == '\\' && pattern[1] != '#'
    requires Read(Respelled(pattern[2..])) == Read(pattern[2..])
    ensures Read(Respelled(pattern)) == Read(pattern)
  {
    var rest := pattern[2..];
    var out := Respelled(pattern);
    assert out == pattern[..2] + Respelled(rest);
    assert out[2..] == Respelled(rest) && out[0] == '\\' && out[1] == pattern[1];
    if pattern[1] == 'x' {
      DigitsKept(rest);
      if Digits(rest) {
        PlainPair(rest);
        PlainPair(Respelled(rest));
        assert Read(rest)[2..] == Read(rest[2..]);
        assert Read(Respelled(rest))[2..] == Read(Respelled(rest)[2..]);
        assert pattern[4..] == rest[2..] && out[4..] == Respelled(rest)[2..];
      }
    }
  }

  lemma DigitsKept(rest: string)
    ensures Digits(rest) <==> Digits(Respelled(rest))
    ensures Digits(rest) ==> Respelled(rest)[2..] == Respelled(rest[2..])
  {
    var out := Respelled(rest);
    if |rest| > 1 && rest[0] == '2' {
      var tail := rest[1..];
      assert out == ['2'] + Respelled(tail) && out[1..] == Respelled(tail);
      assert out[1] == Respelled(tail)[0];
      if rest[1] == '3' { assert tail[1..] == rest[2..] && out[2..] == Respelled(tail)[1..]; }
    }
  }

  lemma PlainPair(rest: string)
    requires Digits(rest)
    ensures Read(rest) == [Plain('2'), Plain('3')] + Read(rest[2..])
  {
    assert rest[1..][1..] == rest[2..];
  }

  // --- Plain text --------------------------------------------------------------------------------

  predicate IsMeta(c: char) {
    c in "\\*+?|{}[]()^$."
  }

  function Spelling(c: char): string {
    if c == '#' then HASH_SPELLED else if IsMeta(c) then ['\\', c] else [c]
  }

  function Escaped(text: string): string {
    if text == [] then [] else Spelling(text[0]) + Escaped(text[1..])
  }

  /** `escape_literal`. */
  method EscapeLiteral(text: string) returns (out: string)
    ensures out == Escaped(text)
  {
    out := [];
    for i := 0 to |text|
      invariant out + Escaped(text[i..]) == Escaped(text)
    {
      var c := text[i];
      var spelled: string;
      if c == '#' {
        spelled := HASH_SPELLED;
      } else if IsMeta(c) {
        spelled := ['\\', c];
      } else {
        spelled := [c];
      }
      EscapedStep(text, i);
      Regroup(out, spelled, Escaped(text[i + 1..]));
      out := out + spelled;
    }
    assert text[|text|..] == [] && out + [] == out;
  }

  lemma EscapedStep(text: string, i: nat)
    requires i < |text|
    ensures Escaped(text[i..]) == Spelling(text[i]) + Escaped(text[i + 1..])
  {
    assert text[i..][1..] == text[i + 1..];
  }

  /** A sign that stands for one character only. */
  predicate Literal(sign: Sign) {
    match sign
    case Hash => true
    case Escape(c) => IsMeta(c)
    case Plain(c) => !IsMeta(c)
    case Dangling => false
  }

  function Said(sign: Sign): char
    requires Literal(sign)
  {
    match sign
    case Hash => '#'
    case Escape(c) => c
    case Plain(c) => c
  }

  /** The escaped text is read back as the text, one literal sign a character, and holds no number
      sign. */
  lemma {:induction false} EscapedReadsAsText(text: string)
    ensures '#' !in Escaped(text)
    ensures var signs := Read(Escaped(text));
      |signs| == |text| && forall i :: 0 <= i < |text| ==> Literal(signs[i]) && Said(signs[i]) == text[i]
  {
    if text != [] {
      EscapedReadsAsText(text[1..]);
      var c, rest := text[0], Escaped(text[1..]);
      if c == '#' {
        SpelledHash(rest);
      } else if IsMeta(c) {
        assert (['\\', c] + rest)[2..] == rest;
      } else {
        assert ([c] + rest)[1..] == rest;
      }
    }
  }
}
