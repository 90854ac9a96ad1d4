/** The safety check of auto-respond patterns (`pattern.rs`): a static analysis over a regular
    expression's syntax tree, proved against the language the tree matches.

    A one-character part (literal, `.`, class) carries its resolved character set. Assertions and
    flags match nothing: they only narrow a language, so what is unique here is unique in .NET. */
module Pattern {

  datatype Kind =
    | ZeroOrOne
    | ZeroOrMore
    | OneOrMore
    | Exactly(n: nat)
    | AtLeast(n: nat)
    | Bounded(least: nat, n: nat)

  /** `readable`: the part is spelled in the subset both engines read alike. */
  datatype Ast =
    | Empty
    | Flags(readable: bool)
    | Assertion(readable: bool)
    | Class(chars: set<char>, readable: bool)
    | Repetition(kind: Kind, body: Ast)
    | Group(readable: bool, inner: Ast)
    | Alternation(asts: seq<Ast>)
    | Concat(asts: seq<Ast>)

  datatype Check = Ok | Invalid | TooComplex

  const MAX_REPEAT: nat := 1000

  // --- The language ------------------------------------------------------------------------------

  function MinRounds(kind: Kind): nat {
    match kind
    case ZeroOrOne | ZeroOrMore => 0
    case OneOrMore => 1
    case Exactly(n) => n
    case AtLeast(n) => n
    case Bounded(least, _) => least
  }

  predicate RoundsFit(kind: Kind, n: nat) {
    match kind
    case ZeroOrOne => n <= 1
    case ZeroOrMore => true
    case OneOrMore => 1 <= n
    case Exactly(m) => n == m
    case AtLeast(m) => m <= n
    case Bounded(least, m) => least <= n <= m
  }

  /** `ast` matches exactly `s`. */
  ghost predicate Matches(ast: Ast, s: string)
    decreases ast, 0
  {
    match ast
    case Empty | Flags(_) | Assertion(_) => s == []
    case Class(chars, _) => |s| == 1 && s[0] in chars
    case Repetition(kind, body) => exists n: nat :: RoundsFit(kind, n) && MatchesRounds(body, n, s)
    case Group(_, inner) => Matches(inner, s)
    case Alternation(asts) => exists i :: 0 <= i < |asts| && Matches(asts[i], s)
    case Concat(asts) => MatchesAll(asts, s)
  }

  ghost predicate MatchesAll(asts: seq<Ast>, s: string)
    decreases asts, 0
  {
    if asts == [] then s == []
    else exists k :: 0 <= k <= |s| && Matches(asts[0], s[..k]) && MatchesAll(asts[1..], s[k..])
  }

  ghost predicate MatchesRounds(body: Ast, n: nat, s: string)
    decreases body, n + 1
  {
    if n == 0 then s == []
    else exists k :: 0 <= k <= |s| && Matches(body, s[..k]) && MatchesRounds(body, n - 1, s[k..])
  }

  lemma JoinParts(asts: seq<Ast>, p: string, r: string)
    requires asts != [] && Matches(asts[0], p) && MatchesAll(asts[1..], r)
    ensures MatchesAll(asts, p + r)
  {
    assert (p + r)[..|p|] == p && (p + r)[|p|..] == r;
  }

  lemma JoinRounds(body: Ast, n: nat, p: string, r: string)
    requires Matches(body, p) && MatchesRounds(body, n, r)
    ensures MatchesRounds(body, n + 1, p + r)
  {
    assert (p + r)[..|p|] == p && (p + r)[|p|..] == r;
  }

  // --- Start sets --------------------------------------------------------------------------------

  datatype Start = Start(chars: set<char>, nullable: bool) {
    /** This part followed by `rest`. */
    function Then(rest: Start): Start {
      if nullable then Start(chars + rest.chars, rest.nullable) else this
    }
  }

  function Of(ast: Ast): Start
    decreases ast, 0
  {
    match ast
    case Empty | Flags(_) | Assertion(_) => Start({}, true)
    case Class(chars, _) => Start(chars, false)
    case Repetition(kind, body) =>
      var start := Of(body);
      start.(nullable := start.nullable || MinRounds(kind) == 0)
    case Group(_, inner) => Of(inner)
    case Alternation(asts) => OfAny(asts)
    case Concat(asts) => OfAll(asts)
  }

  function OfAny(asts: seq<Ast>): Start
    decreases asts, 0
  {
    if asts == [] then Start({}, false)
    else
      var branch, rest := Of(asts[0]), OfAny(asts[1..]);
      Start(branch.chars + rest.chars, branch.nullable || rest.nullable)
  }

  function OfAll(asts: seq<Ast>): Start
    decreases asts, 0
  {
    if asts == [] then Start({}, true) else Of(asts[0]).Then(OfAll(asts[1..]))
  }

  /** The start set takes in every match: an empty one only of a nullable part, any other one by
      its first character. */
  ghost predicate Covers(start: Start, s: string) {
    if s == [] then start.nullable else s[0] in start.chars
  }

  /** Loops and counted repetitions included. */
  lemma {:induction false} StartSound(ast: Ast, s: string)
    requires Matches(ast, s)
    ensures Covers(Of(ast), s)
    decreases ast, 0
  {
    match ast
    case Empty | Flags(_) | Assertion(_) | Class(_, _) =>
    case Repetition(kind, body) =>
      var n: nat :| RoundsFit(kind, n) && MatchesRounds(body, n, s);
      RoundsStartSound(body, n, s);
    case Group(_, inner) => StartSound(inner, s);
    case Alternation(asts) =>
      var i :| 0 <= i < |asts| && Matches(asts[i], s);
      StartSound(asts[i], s);
      OfAnyHas(asts, i);
    case Concat(asts) => StartSoundAll(asts, s);
  }

  lemma {:induction false} StartSoundAll(asts: seq<Ast>, s: string)
    requires MatchesAll(asts, s)
    ensures Covers(OfAll(asts), s)
    decreases asts, 0
  {
    if asts != [] {
      var k :| 0 <= k <= |s| && Matches(asts[0], s[..k]) && MatchesAll(asts[1..], s[k..]);
      StartSound(asts[0], s[..k]);
      StartSoundAll(asts[1..], s[k..]);
    }
  }

  lemma {:induction false} RoundsStartSound(body: Ast, n: nat, s: string)
    requires MatchesRounds(body, n, s)
    ensures s == [] ==> n == 0 || Of(body).nullable
    ensures s != [] ==> s[0] in Of(body).chars
    decreases body, n + 1
  {
    if n != 0 {
      var k :| 0 <= k <= |s| && Matches(body, s[..k]) && MatchesRounds(body, n - 1, s[k..]);
      StartSound(body, s[..k]);
      RoundsStartSound(body, n - 1, s[k..]);
    }
  }

  lemma {:induction false} OfAnyHas(asts: seq<Ast>, i: nat)
    requires i < |asts|
    ensures Of(asts[i]).chars <= OfAny(asts).chars
    ensures Of(asts[i]).nullable ==> OfAny(asts).nullable
  {
    if i > 0 { OfAnyHas(asts[1..], i - 1); }
  }

  /** Every set is inhabited and no part is repeated zero times at most, as `[^\d\D]` and `a{0}`
      are not: then the analysis' sets are exact. Counts are not inverted, which the parser refuses. */
  predicate Inhabited(ast: Ast)
    decreases ast, 0
  {
    match ast
    case Empty | Flags(_) | Assertion(_) => true
    case Class(chars, _) => chars != {}
    case Repetition(kind, body) => Inhabited(body) && RoundsFit(kind, LeastRounds(kind))
    case Group(_, inner) => Inhabited(inner)
    case Alternation(asts) => asts != [] && forall i :: 0 <= i < |asts| ==> Inhabited(asts[i])
    case Concat(asts) => forall i :: 0 <= i < |asts| ==> Inhabited(asts[i])
  }

  /** The least positive number of rounds a repetition asks for. */
  function LeastRounds(kind: Kind): nat {
    if MinRounds(kind) == 0 then 1 else MinRounds(kind)
  }

  lemma {:induction false} SomeMatch(ast: Ast) returns (s: string)
    requires Inhabited(ast)
    ensures Matches(ast, s)
    decreases ast, 0
  {
    match ast
    case Empty | Flags(_) | Assertion(_) => s := [];
    case Class(chars, _) => var c :| c in chars; s := [c];
    case Repetition(kind, body) =>
      var b := SomeMatch(body);
      s := SomeRounds(body, LeastRounds(kind), b);
    case Group(_, inner) => s := SomeMatch(inner);
    case Alternation(asts) => s := SomeMatch(asts[0]);
    case Concat(asts) => s := SomeMatchAll(asts);
  }

  lemma {:induction false} SomeMatchAll(asts: seq<Ast>) returns (s: string)
    requires forall i :: 0 <= i < |asts| ==> Inhabited(asts[i])
    ensures MatchesAll(asts, s)
    decreases asts, 0
  {
    s := [];
    if asts != [] {
      var p := SomeMatch(asts[0]);
      var r := SomeMatchAll(asts[1..]);
      JoinParts(asts, p, r);
      s := p + r;
    }
  }

  lemma {:induction false} SomeRounds(body: Ast, n: nat, b: string) returns (s: string)
    requires Matches(body, b)
    ensures MatchesRounds(body, n, s)
    ensures b == [] ==> s == []
  {
    s := [];
    if n > 0 {
      var r := SomeRounds(body, n - 1, b);
      JoinRounds(body, n - 1, b, r);
      s := b + r;
    }
  }

  /** A nullable part of an inhabited pattern does match the empty string. */
  lemma {:induction false} NullableExact(ast: Ast)
    requires Inhabited(ast) && Of(ast).nullable
    ensures Matches(ast, [])
    decreases ast, 0
  {
    match ast
    case Empty | Flags(_) | Assertion(_) | Class(_, _) =>
    case Repetition(kind, body) =>
      if MinRounds(kind) == 0 {
        assert RoundsFit(kind, 0) && MatchesRounds(body, 0, []);
      } else {
        NullableExact(body);
        var s := SomeRounds(body, MinRounds(kind), []);
      }
    case Group(_, inner) => NullableExact(inner);
    case Alternation(asts) => NullableExactAny(asts);
    case Concat(asts) => NullableExactAll(asts);
  }

  lemma {:induction false} NullableExactAny(asts: seq<Ast>)
    requires (forall i :: 0 <= i < |asts| ==> Inhabited(asts[i])) && OfAny(asts).nullable
    ensures exists i :: 0 <= i < |asts| && Matches(asts[i], [])
    decreases asts, 0
  {
    if Of(asts[0]).nullable {
      NullableExact(asts[0]);
    } else {
      NullableExactAny(asts[1..]);
      var i :| 0 <= i < |asts[1..]| && Matches(asts[1..][i], []);
      assert Matches(asts[i + 1], []);
    }
  }

  lemma {:induction false} NullableExactAll(asts: seq<Ast>)
    requires (forall i :: 0 <= i < |asts| ==> Inhabited(asts[i])) && OfAll(asts).nullable
    ensures MatchesAll(asts, [])
    decreases asts, 0
  {
    if asts != [] {
      NullableExact(asts[0]);
      NullableExactAll(asts[1..]);
      JoinParts(asts, [], []);
    }
  }

  /** `ast` matches something that begins with `c`. */
  ghost predicate Begins(ast: Ast, c: char) {
    exists v :: Matches(ast, [c] + v)
  }

  ghost predicate BeginsAll(asts: seq<Ast>, c: char) {
    exists v :: MatchesAll(asts, [c] + v)
  }

  /** The start set of an inhabited pattern holds no character too many. */
  lemma {:induction false} StartExact(ast: Ast, c: char)
    requires Inhabited(ast) && c in Of(ast).chars
    ensures Begins(ast, c)
    decreases ast, 0
  {
    match ast
    case Empty | Flags(_) | Assertion(_) =>
    case Class(_, _) => assert Matches(ast, [c] + []);
    case Repetition(kind, body) =>
      StartExact(body, c);
      var v :| Matches(body, [c] + v);
      var n: nat := LeastRounds(kind) - 1;
      var b := SomeMatch(body);
      var r := SomeRounds(body, n, b);
      JoinRounds(body, n, [c] + v, r);
      assert [c] + v + r == [c] + (v + r);
      assert RoundsFit(kind, n + 1) && MatchesRounds(body, n + 1, [c] + (v + r));
      assert Matches(ast, [c] + (v + r));
    case Group(_, inner) =>
      StartExact(inner, c);
      var v :| Matches(inner, [c] + v);
      assert Matches(ast, [c] + v);
    case Alternation(asts) =>
      var i := StartExactAny(asts, c);
      var v :| Matches(asts[i], [c] + v);
      assert Matches(ast, [c] + v);
    case Concat(asts) =>
      StartExactAll(asts, c);
      var v :| MatchesAll(asts, [c] + v);
      assert Matches(ast, [c] + v);
  }

  lemma {:induction false} StartExactAny(asts: seq<Ast>, c: char) returns (i: nat)
    requires (forall i :: 0 <= i < |asts| ==> Inhabited(asts[i])) && c in OfAny(asts).chars
    ensures i < |asts| && Begins(asts[i], c)
    decreases asts, 0
  {
    if c in Of(asts[0]).chars {
      StartExact(asts[0], c);
      i := 0;
    } else {
      i := StartExactAny(asts[1..], c);
      i := i + 1;
    }
  }

  lemma {:induction false} StartExactAll(asts: seq<Ast>, c: char)
    requires (forall i :: 0 <= i < |asts| ==> Inhabited(asts[i])) && c in OfAll(asts).chars
    ensures BeginsAll(asts, c)
    decreases asts, 0
  {
    if c in Of(asts[0]).chars {
      StartExact(asts[0], c);
      var v :| Matches(asts[0], [c] + v);
      var r := SomeMatchAll(asts[1..]);
      JoinParts(asts, [c] + v, r);
      assert [c] + v + r == [c] + (v + r);
    } else {
      NullableExact(asts[0]);
      StartExactAll(asts[1..], c);
      var v :| MatchesAll(asts[1..], [c] + v);
      JoinParts(asts, [], [c] + v);
      assert [] + ([c] + v) == [c] + v;
    }
  }

  // --- Optional tails ----------------------------------------------------------------------------

  predicate MoreThanOnce(kind: Kind) {
    match kind
    case ZeroOrOne => false
    case ZeroOrMore | OneOrMore | AtLeast(_) => true
    case Exactly(n) => n > 1
    case Bounded(_, n) => n > 1
  }

  /** The characters a match can go on with after it has matched something and could stop. */
  function Tail(ast: Ast): set<char>
    decreases ast, 0
  {
    match ast
    case Repetition(kind, body) =>
      Tail(body) + (if MoreThanOnce(kind) then Of(body).chars else {})
    case Group(_, inner) => Tail(inner)
    case Alternation(asts) => TailAny(asts)
    case Concat(asts) => TailAll(asts, false)
    case _ => {}
  }

  function TailAny(asts: seq<Ast>): set<char>
    decreases asts, 0
  {
    if asts == [] then {} else Tail(asts[0]) + TailAny(asts[1..])
  }

  /** The tail of a sequence; `begun`: a part before it can match something. */
  function TailAll(asts: seq<Ast>, begun: bool): set<char>
    decreases asts, 0
  {
    if asts == [] then {}
    else
      var start := Of(asts[0]);
      TailAll(asts[1..], begun || start.chars != {}) +
      (if OfAll(asts[1..]).nullable
       then Tail(asts[0]) + (if start.nullable && begun then start.chars else {})
       else {})
  }

  /** `ast` matches something, and the same with `c` and maybe more after it. */
  ghost predicate GoesOn(ast: Ast, c: char) {
    exists u, v :: u != [] && Matches(ast, u) && Matches(ast, u + [c] + v)
  }

  // --- The checks inside repetitions -------------------------------------------------------------

  predicate Apart(a: set<char>, b: set<char>) {
    a * b == {}
  }

  lemma ApartAt(a: set<char>, b: set<char>, c: char)
    requires Apart(a, b)
    ensures !(c in a && c in b)
  {
    assert !(c in a * b);
  }

  /** Alternatives never start alike. */
  predicate BranchesApart(branches: seq<Ast>) {
    forall i, j :: 0 <= i < j < |branches| ==> Apart(Of(branches[i]).chars, Of(branches[j]).chars)
  }

  /** An optional part never starts like what follows it. */
  predicate SequenceApart(parts: seq<Ast>) {
    forall i :: 0 <= i < |parts| && Of(parts[i]).nullable ==>
      Apart(Of(parts[i]).chars, OfAll(parts[i + 1..]).chars)
  }

  /** A round can not go on with what the next round starts with. */
  predicate RoundsApart(body: Ast) {
    Apart(Tail(body), Of(body).chars)
  }

  function Readable(ok: bool): Check {
    if ok then Ok else Invalid
  }

  function Count(kind: Kind): nat {
    match kind
    case Exactly(n) => n
    case AtLeast(n) => n
    case Bounded(_, n) => n
    case _ => 0
  }

  /** `repeated`: inside a repetition that matches more than once. */
  function Walk(ast: Ast, repeated: bool): Check
    decreases ast, 0
  {
    match ast
    case Empty => Ok
    case Flags(readable) => Readable(readable)
    case Assertion(readable) => Readable(readable)
    case Class(_, readable) => Readable(readable)
    case Repetition(kind, body) =>
      var many := MoreThanOnce(kind);
      if Count(kind) > MAX_REPEAT then TooComplex
      else if many && repeated then TooComplex
      else if MinRounds(kind) >= 2 && Of(body).nullable then TooComplex
      else
        var inside := Walk(body, repeated || many);
        if inside != Ok then inside
        else if many && !RoundsApart(body) then TooComplex
        else Ok
    case Group(readable, inner) =>
      if !readable then Invalid else Walk(inner, repeated)
    case Alternation(asts) =>
      var each := WalkEach(asts, repeated);
      if each != Ok then each
      else if repeated && !BranchesApart(asts) then TooComplex
      else Ok
    case Concat(asts) =>
      var each := WalkEach(asts, repeated);
      if each != Ok then each
      else if repeated && !SequenceApart(asts) then TooComplex
      else Ok
  }

  function WalkEach(asts: seq<Ast>, repeated: bool): Check
    decreases asts, 0
  {
    if asts == [] then Ok
    else
      var first := Walk(asts[0], repeated);
      if first != Ok then first else WalkEach(asts[1..], repeated)
  }

  lemma {:induction false} WalkEachAt(asts: seq<Ast>, repeated: bool)
    ensures WalkEach(asts, repeated) == Ok <==>
            forall i :: 0 <= i < |asts| ==> Walk(asts[i], repeated) == Ok
  {
    if asts != [] {
      WalkEachAt(asts[1..], repeated);
      assert forall i :: 0 <= i < |asts[1..]| ==> asts[1..][i] == asts[i + 1];
      if WalkEach(asts, repeated) == Ok {
        forall i | 0 <= i < |asts| ensures Walk(asts[i], repeated) == Ok {
          if i > 0 { assert asts[1..][i - 1] == asts[i]; }
        }
      }
    }
  }

  /** What the checks leave out: a part's optional ending never starts like what follows the part
      (`(ab?)(ba)?`). */
  predicate TailsClear(ast: Ast)
    decreases ast, 0
  {
    match ast
    case Repetition(_, body) => TailsClear(body)
    case Group(_, inner) => TailsClear(inner)
    case Alternation(asts) => forall i :: 0 <= i < |asts| ==> TailsClear(asts[i])
    case Concat(asts) => TailsClearAll(asts)
    case _ => true
  }

  predicate TailsClearAll(asts: seq<Ast>)
    decreases asts, 0
  {
    asts != [] ==>
      && TailsClear(asts[0])
      && Apart(Tail(asts[0]), OfAll(asts[1..]).chars)
      && TailsClearAll(asts[1..])
  }

  // --- One character of look-ahead ---------------------------------------------------------------

  /** At the end of a match of `part`, the next character alone tells whether it goes on. */
  ghost predicate HeadClear(part: Ast, rest: seq<Ast>) {
    forall c :: BeginsAll(rest, c) ==> !GoesOn(part, c) && !(Matches(part, []) && Begins(part, c))
  }

  /** Read from the left, one character decides every choice inside `ast`: about the language only,
      no set and no check occurs in it. */
  ghost predicate OneLookahead(ast: Ast)
    decreases ast, 0
  {
    match ast
    case Repetition(_, body) => OneLookahead(body)
    case Group(_, inner) => OneLookahead(inner)
    case Alternation(asts) =>
      && (forall i :: 0 <= i < |asts| ==> OneLookahead(asts[i]))
      && (forall i, j, c :: 0 <= i < j < |asts| ==> !(Begins(asts[i], c) && Begins(asts[j], c)))
    case Concat(asts) => OneLookaheadAll(asts)
    case _ => true
  }

  ghost predicate OneLookaheadAll(asts: seq<Ast>)
    decreases asts, 0
  {
    asts != [] ==>
      OneLookahead(asts[0]) && HeadClear(asts[0], asts[1..]) && OneLookaheadAll(asts[1..])
  }

  /** Between two rounds too. */
  ghost predicate RoundLookahead(body: Ast) {
    forall c :: !(GoesOn(body, c) && Begins(body, c))
  }

  predicate NoLoops(ast: Ast)
    decreases ast, 0
  {
    match ast
    case Repetition(kind, body) => !MoreThanOnce(kind) && MinRounds(kind) <= 1 && NoLoops(body)
    case Group(_, inner) => NoLoops(inner)
    case Alternation(asts) => forall i :: 0 <= i < |asts| ==> NoLoops(asts[i])
    case Concat(asts) => forall i :: 0 <= i < |asts| ==> NoLoops(asts[i])
    case _ => true
  }

  // --- A sequence is cut in one place only -------------------------------------------------------

  /** A shorter and a longer match of the first part that can both be followed by `rest` on one
      line. */
  lemma CutClash(part: Ast, rest: seq<Ast>, p: string, d: char, w: string, r: string)
    requires Matches(part, p) && Matches(part, p + [d] + w)
    requires r != [] && r[0] == d && MatchesAll(rest, r)
    ensures !HeadClear(part, rest)
  {
    assert r == [d] + r[1..];
    assert BeginsAll(rest, d);
    if p == [] {
      assert p + [d] + w == [d] + w;
      assert Begins(part, d);
    } else {
      assert GoesOn(part, d);
    }
  }

  lemma CutShape(p: string, r: string, q: string, t: string)
    requires p + r <= q + t
    ensures |p| == |q| ==> p == q
    ensures |p| < |q| ==> p == q[..|p|]
    ensures |p| < |q| && r != [] ==> q == p + [r[0]] + q[|p| + 1..]
    ensures |q| < |p| ==> t != [] && p == q + [t[0]] + p[|q| + 1..]
  {
    var x, y := p + r, q + t;
    forall i | 0 <= i < |p| && i < |q| ensures p[i] == q[i] {
      assert x[i] == y[i];
    }
    if |p| < |q| && r != [] { assert x[|p|] == y[|p|]; }
    if |q| < |p| { assert x[|q|] == y[|q|]; }
  }

  /** Two cuts of one line, or of a line and its continuation, agree; unless the first part goes on
      where the shorter line ends. */
  lemma SameCut(part: Ast, rest: seq<Ast>, p: string, r: string, q: string, t: string)
    requires HeadClear(part, rest)
    requires Matches(part, p) && MatchesAll(rest, r)
    requires Matches(part, q) && MatchesAll(rest, t)
    requires p + r <= q + t
    ensures p == q || (r == [] && |p| < |q| && p == q[..|p|])
  {
    CutShape(p, r, q, t);
    if |p| < |q| && r != [] {
      NoClash(part, rest, p, r, q);
    } else if |q| < |p| {
      NoClash(part, rest, q, t, p);
    }
  }

  /** So a longer match never goes on as the rest does behind a shorter one. */
  lemma NoClash(part: Ast, rest: seq<Ast>, p: string, r: string, q: string)
    requires HeadClear(part, rest) && |p| < |q|
    requires Matches(part, p) && Matches(part, q) && r != [] && MatchesAll(rest, r)
    ensures q != p + [r[0]] + q[|p| + 1..]
  {
    if q == p + [r[0]] + q[|p| + 1..] {
      CutClash(part, rest, p, r[0], q[|p| + 1..], r);
    }
  }

  // --- Soundness: accepted bodies have one look-ahead --------------------------------------------

  /** Every character an accepted part can go on with after a match is in its tail set. */
  lemma {:induction false} TailSound(ast: Ast, u: string, c: char, v: string)
    requires Walk(ast, true) == Ok && TailsClear(ast)
    requires u != [] && Matches(ast, u) && Matches(ast, u + [c] + v)
    ensures c in Tail(ast)
    decreases ast, 0
  {
    match ast
    case Empty | Flags(_) | Assertion(_) | Class(_, _) =>
    case Repetition(kind, body) =>
      OneRound(kind, body, u);
      OneRound(kind, body, u + [c] + v);
      TailSound(body, u, c, v);
    case Group(_, inner) => TailSound(inner, u, c, v);
    case Alternation(asts) =>
      WalkEachAt(asts, true);
      var i :| 0 <= i < |asts| && Matches(asts[i], u);
      var j :| 0 <= j < |asts| && Matches(asts[j], u + [c] + v);
      StartSound(asts[i], u);
      StartSound(asts[j], u + [c] + v);
      assert u[0] in Of(asts[i]).chars * Of(asts[j]).chars;
      assert u[0] in Of(asts[j]).chars * Of(asts[i]).chars;
      assert i == j;
      TailSound(asts[i], u, c, v);
      TailAnyHas(asts, i);
    case Concat(asts) => TailSoundAll(asts, u, c, v, false);
  }

  /** A part that is not a loop matches something in one round. */
  lemma OneRound(kind: Kind, body: Ast, u: string)
    requires !MoreThanOnce(kind) && u != [] && Matches(Repetition(kind, body), u)
    ensures Matches(body, u)
  {
    var n: nat :| RoundsFit(kind, n) && MatchesRounds(body, n, u);
    assert n == 1;
    var k :| 0 <= k <= |u| && Matches(body, u[..k]) && MatchesRounds(body, n - 1, u[k..]);
    assert u[..k] == u;
  }

  lemma {:induction false} TailAnyHas(asts: seq<Ast>, i: nat)
    requires i < |asts|
    ensures Tail(asts[i]) <= TailAny(asts)
  {
    if i > 0 { TailAnyHas(asts[1..], i - 1); }
  }

  /** How a match of a sequence, and the same with more after it, fall into the first part and the
      rest. */
  lemma TailCut(asts: seq<Ast>, u: string, c: char, v: string) returns (p: string, r: string, q: string, t: string)
    requires asts != [] && WalkEach(asts, true) == Ok && SequenceApart(asts) && TailsClearAll(asts)
    requires MatchesAll(asts, u) && MatchesAll(asts, u + [c] + v)
    ensures p + r == u && Matches(asts[0], p) && MatchesAll(asts[1..], r)
    ensures q + t == u + [c] + v && Matches(asts[0], q) && MatchesAll(asts[1..], t)
    ensures if p == q then t == r + [c] + v else r == [] && |p| < |q| && q == p + [c] + q[|p| + 1..]
    decreases asts, 0
  {
    var s := u + [c] + v;
    p, r := CutOf(asts, u);
    q, t := CutOf(asts, s);
    HeadSound(asts);
    SameCut(asts[0], asts[1..], p, r, q, t);
    if p != q {
      assert (q + t)[|p|] == q[|p|] && s[|p|] == c;
    } else {
      SameEnd(p, r, c, v, t);
    }
  }

  lemma CutOf(asts: seq<Ast>, s: string) returns (p: string, r: string)
    requires asts != [] && MatchesAll(asts, s)
    ensures p + r == s && Matches(asts[0], p) && MatchesAll(asts[1..], r)
  {
    var k :| 0 <= k <= |s| && Matches(asts[0], s[..k]) && MatchesAll(asts[1..], s[k..]);
    p, r := s[..k], s[k..];
  }

  lemma {:induction false} TailSoundAll(asts: seq<Ast>, u: string, c: char, v: string, begun: bool)
    requires WalkEach(asts, true) == Ok && SequenceApart(asts) && TailsClearAll(asts)
    requires u != [] && MatchesAll(asts, u) && MatchesAll(asts, u + [c] + v)
    ensures c in TailAll(asts, begun)
    decreases asts, 1
  {
    var a, rest := asts[0], asts[1..];
    var p, r, q, t := TailCut(asts, u, c, v);
    RestApart(asts);
    if p != q {
      StartSoundAll(rest, r);
      TailSound(a, p, c, q[|p| + 1..]);
    } else {
      if r == [] {
        TailHasNext(asts, p, r, c, v, begun);
      } else {
        TailSoundAll(rest, r, c, v, begun || Of(a).chars != {});
      }
    }
  }

  /** The rest may be missing, or begin with `c`. */
  lemma TailHasNext(asts: seq<Ast>, p: string, r: string, c: char, v: string, begun: bool)
    requires asts != [] && p + r != [] && r == [] && Matches(asts[0], p)
    requires MatchesAll(asts[1..], r) && MatchesAll(asts[1..], r + [c] + v)
    ensures c in TailAll(asts, begun)
  {
    assert r + [c] + v == [c] + v;
    StartSound(asts[0], p);
    StartSoundAll(asts[1..], r);
    StartSoundAll(asts[1..], r + [c] + v);
    TailHasStarts(asts[1..], c);
  }

  lemma SameEnd(p: string, r: string, c: char, v: string, t: string)
    requires p + t == (p + r) + [c] + v
    ensures t == r + [c] + v
  {
    Regroup(p, r, c, v);
    assert t == (p + t)[|p|..] && r + [c] + v == (p + (r + [c] + v))[|p|..];
  }

  lemma RestApart(asts: seq<Ast>)
    requires asts != [] && SequenceApart(asts)
    ensures SequenceApart(asts[1..])
    ensures Of(asts[0]).nullable ==> Apart(Of(asts[0]).chars, OfAll(asts[1..]).chars)
  {
    forall i | 0 <= i < |asts[1..]| && Of(asts[1..][i]).nullable
      ensures Apart(Of(asts[1..][i]).chars, OfAll(asts[1..][i + 1..]).chars)
    {
      assert asts[1..][i + 1..] == asts[i + 1 + 1..];
      assert asts[1..][i] == asts[i + 1];
    }
  }

  /** After something, a sequence of optional parts can go on with every character it starts
      with. */
  lemma {:induction false} TailHasStarts(asts: seq<Ast>, c: char)
    requires OfAll(asts).nullable && c in OfAll(asts).chars
    ensures c in TailAll(asts, true)
  {
    if asts != [] && c !in Of(asts[0]).chars { TailHasStarts(asts[1..], c); }
  }

  lemma HeadSound(asts: seq<Ast>)
    requires asts != [] && WalkEach(asts, true) == Ok && SequenceApart(asts) && TailsClearAll(asts)
    ensures HeadClear(asts[0], asts[1..])
    decreases asts[0], 1
  {
    var a, rest := asts[0], asts[1..];
    RestApart(asts);
    forall c | BeginsAll(rest, c)
      ensures !GoesOn(a, c) && !(Matches(a, []) && Begins(a, c))
    {
      var w :| MatchesAll(rest, [c] + w);
      StartSoundAll(rest, [c] + w);
      if GoesOn(a, c) {
        var u, v :| u != [] && Matches(a, u) && Matches(a, u + [c] + v);
        TailSound(a, u, c, v);
        assert c in Tail(a) * OfAll(rest).chars;
      }
      if Matches(a, []) && Begins(a, c) {
        var v :| Matches(a, [c] + v);
        StartSound(a, []);
        StartSound(a, [c] + v);
        assert c in Of(a).chars * OfAll(rest).chars;
      }
    }
  }

  lemma {:induction false} LookaheadSound(ast: Ast)
    requires Walk(ast, true) == Ok && TailsClear(ast)
    ensures OneLookahead(ast)
    decreases ast, 0
  {
    match ast
    case Empty | Flags(_) | Assertion(_) | Class(_, _) =>
    case Repetition(_, body) => LookaheadSound(body);
    case Group(_, inner) => LookaheadSound(inner);
    case Alternation(asts) =>
      WalkEachAt(asts, true);
      forall i | 0 <= i < |asts| ensures OneLookahead(asts[i]) { LookaheadSound(asts[i]); }
      forall i, j, c | 0 <= i < j < |asts|
        ensures !(Begins(asts[i], c) && Begins(asts[j], c))
      {
        ApartAt(Of(asts[i]).chars, Of(asts[j]).chars, c);
        if Begins(asts[i], c) { BeginsInChars(asts[i], c); }
        if Begins(asts[j], c) { BeginsInChars(asts[j], c); }
      }
    case Concat(asts) => LookaheadSoundAll(asts);
  }

  lemma {:induction false} LookaheadSoundAll(asts: seq<Ast>)
    requires WalkEach(asts, true) == Ok && SequenceApart(asts) && TailsClearAll(asts)
    ensures OneLookaheadAll(asts)
    decreases asts, 0
  {
    if asts != [] {
      LookaheadSound(asts[0]);
      HeadSound(asts);
      RestApart(asts);
      LookaheadSoundAll(asts[1..]);
    }
  }

  lemma BeginsInChars(ast: Ast, c: char)
    requires Begins(ast, c)
    ensures c in Of(ast).chars
  {
    var v :| Matches(ast, [c] + v);
    StartSound(ast, [c] + v);
  }

  lemma RoundLookaheadSound(body: Ast)
    requires Walk(body, true) == Ok && TailsClear(body) && RoundsApart(body)
    ensures RoundLookahead(body)
  {
    forall c ensures !(GoesOn(body, c) && Begins(body, c)) {
      if GoesOn(body, c) && Begins(body, c) {
        var u, v :| u != [] && Matches(body, u) && Matches(body, u + [c] + v);
        TailSound(body, u, c, v);
        BeginsInChars(body, c);
        assert c in Tail(body) * Of(body).chars;
      }
    }
  }

  // --- Completeness: nothing with one look-ahead is refused --------------------------------------

  /** The tail set of an inhabited pattern without loops holds no character too many. */
  lemma {:induction false} TailExact(ast: Ast, c: char)
    requires Inhabited(ast) && NoLoops(ast) && c in Tail(ast)
    ensures GoesOn(ast, c)
    decreases ast, 0
  {
    match ast
    case Empty | Flags(_) | Assertion(_) | Class(_, _) =>
    case Repetition(kind, body) =>
      TailExact(body, c);
      var u, v :| u != [] && Matches(body, u) && Matches(body, u + [c] + v);
      OnceIsEnough(kind, body, u);
      OnceIsEnough(kind, body, u + [c] + v);
    case Group(_, inner) =>
      TailExact(inner, c);
      var u, v :| u != [] && Matches(inner, u) && Matches(inner, u + [c] + v);
      assert Matches(ast, u) && Matches(ast, u + [c] + v);
    case Alternation(asts) =>
      var i := TailExactAny(asts, c);
      var u, v :| u != [] && Matches(asts[i], u) && Matches(asts[i], u + [c] + v);
      assert Matches(ast, u) && Matches(ast, u + [c] + v);
    case Concat(asts) =>
      var u, v := TailExactAll(asts, c, false);
      assert Matches(ast, u) && Matches(ast, u + [c] + v);
  }

  lemma OnceIsEnough(kind: Kind, body: Ast, s: string)
    requires Inhabited(Repetition(kind, body)) && MinRounds(kind) <= 1 && Matches(body, s)
    ensures Matches(Repetition(kind, body), s)
  {
    assert MatchesRounds(body, 0, []);
    JoinRounds(body, 0, s, []);
    assert s + [] == s;
    assert RoundsFit(kind, 1) && MatchesRounds(body, 1, s);
  }

  lemma {:induction false} TailExactAny(asts: seq<Ast>, c: char) returns (i: nat)
    requires forall i :: 0 <= i < |asts| ==> Inhabited(asts[i]) && NoLoops(asts[i])
    requires c in TailAny(asts)
    ensures i < |asts| && GoesOn(asts[i], c)
    decreases asts, 0
  {
    if c in Tail(asts[0]) {
      TailExact(asts[0], c);
      i := 0;
    } else {
      i := TailExactAny(asts[1..], c);
      i := i + 1;
    }
  }

  /** Without `begun` the match before `c` is not empty; with it, something before makes it so. */
  lemma {:induction false} TailExactAll(asts: seq<Ast>, c: char, begun: bool)
    returns (u: string, v: string)
    requires forall i :: 0 <= i < |asts| ==> Inhabited(asts[i]) && NoLoops(asts[i])
    requires c in TailAll(asts, begun)
    ensures (u != [] || begun) && MatchesAll(asts, u) && MatchesAll(asts, u + [c] + v)
    decreases asts, 0
  {
    var a, rest := asts[0], asts[1..];
    var begun' := begun || Of(a).chars != {};
    if c in TailAll(rest, begun') {
      u, v := TailExactAll(rest, c, begun');
      var p := SomeMatch(a);
      if u == [] && !begun {
        var d :| d in Of(a).chars;
        StartExact(a, d);
        var w :| Matches(a, [d] + w);
        p := [d] + w;
      }
      JoinBoth(asts, p, u, c, v);
      u := p + u;
    } else {
      NullableExactAll(rest);
      if c in Tail(a) {
        TailExact(a, c);
        u, v :| u != [] && Matches(a, u) && Matches(a, u + [c] + v);
      } else {
        NullableExact(a);
        StartExact(a, c);
        u := [];
        v :| Matches(a, [c] + v);
        assert u + [c] + v == [c] + v;
      }
      JoinParts(asts, u, []);
      JoinParts(asts, u + [c] + v, []);
      assert u + [] == u && (u + [c] + v) + [] == u + [c] + v;
    }
  }

  lemma JoinBoth(asts: seq<Ast>, p: string, u: string, c: char, v: string)
    requires asts != [] && Matches(asts[0], p) && MatchesAll(asts[1..], u) && MatchesAll(asts[1..], u + [c] + v)
    ensures MatchesAll(asts, p + u) && MatchesAll(asts, (p + u) + [c] + v)
  {
    Regroup(p, u, c, v);
    JoinParts(asts, p, u);
    JoinParts(asts, p, u + [c] + v);
  }

  lemma Regroup(p: string, u: string, c: char, v: string)
    ensures p + (u + [c] + v) == (p + u) + [c] + v
  {}

  predicate AllReadable(ast: Ast)
    decreases ast, 0
  {
    match ast
    case Empty => true
    case Flags(readable) => readable
    case Assertion(readable) => readable
    case Class(_, readable) => readable
    case Repetition(_, body) => AllReadable(body)
    case Group(readable, inner) => readable && AllReadable(inner)
    case Alternation(asts) => forall i :: 0 <= i < |asts| ==> AllReadable(asts[i])
    case Concat(asts) => forall i :: 0 <= i < |asts| ==> AllReadable(asts[i])
  }

  lemma {:induction false} LookaheadComplete(ast: Ast)
    requires Inhabited(ast) && AllReadable(ast) && NoLoops(ast) && OneLookahead(ast)
    ensures Walk(ast, true) == Ok && TailsClear(ast)
    decreases ast, 0
  {
    match ast
    case Empty | Flags(_) | Assertion(_) | Class(_, _) =>
    case Repetition(kind, body) => LookaheadComplete(body);
    case Group(_, inner) => LookaheadComplete(inner);
    case Alternation(asts) =>
      forall i | 0 <= i < |asts| ensures Walk(asts[i], true) == Ok && TailsClear(asts[i]) {
        LookaheadComplete(asts[i]);
      }
      WalkEachAt(asts, true);
      forall i, j | 0 <= i < j < |asts|
        ensures Apart(Of(asts[i]).chars, Of(asts[j]).chars)
      {
        if c :| c in Of(asts[i]).chars * Of(asts[j]).chars {
          StartExact(asts[i], c);
          StartExact(asts[j], c);
        }
      }
    case Concat(asts) => LookaheadCompleteAll(asts);
  }

  lemma {:induction false} LookaheadCompleteAll(asts: seq<Ast>)
    requires forall i :: 0 <= i < |asts| ==>
      Inhabited(asts[i]) && AllReadable(asts[i]) && NoLoops(asts[i])
    requires OneLookaheadAll(asts)
    ensures WalkEach(asts, true) == Ok && SequenceApart(asts) && TailsClearAll(asts)
    decreases asts, 0
  {
    if asts != [] {
      var a, rest := asts[0], asts[1..];
      LookaheadComplete(a);
      LookaheadCompleteAll(rest);
      if c :| c in Tail(a) * OfAll(rest).chars {
        TailExact(a, c);
        StartExactAll(rest, c);
      }
      if Of(a).nullable {
        if c :| c in Of(a).chars * OfAll(rest).chars {
          NullableExact(a);
          StartExact(a, c);
          StartExactAll(rest, c);
        }
      }
      forall i | 0 <= i < |asts| && Of(asts[i]).nullable
        ensures Apart(Of(asts[i]).chars, OfAll(asts[i + 1..]).chars)
      {
        if i > 0 {
          assert asts[i] == rest[i - 1] && asts[i + 1..] == rest[i - 1 + 1..];
        }
      }
    }
  }

  lemma {:induction false} AcceptedShape(ast: Ast)
    requires Walk(ast, true) == Ok
    ensures AllReadable(ast)
    ensures Inhabited(ast) ==> NoLoops(ast)
    decreases ast, 0
  {
    match ast
    case Empty | Flags(_) | Assertion(_) | Class(_, _) =>
    case Repetition(_, body) => AcceptedShape(body);
    case Group(_, inner) => AcceptedShape(inner);
    case Alternation(asts) =>
      WalkEachAt(asts, true);
      forall i | 0 <= i < |asts| ensures AllReadable(asts[i]) && (Inhabited(asts[i]) ==> NoLoops(asts[i])) {
        AcceptedShape(asts[i]);
      }
    case Concat(asts) =>
      WalkEachAt(asts, true);
      forall i | 0 <= i < |asts| ensures AllReadable(asts[i]) && (Inhabited(asts[i]) ==> NoLoops(asts[i])) {
        AcceptedShape(asts[i]);
      }
  }

  /** The exact meaning of the checks: together with `TailsClear`, they accept a loop just when
      nothing loops inside it, one character of look-ahead decides every choice in its body and
      between its rounds, rounds it has to repeat are never empty, and its count is in bounds. */
  lemma AcceptedLoopIff(kind: Kind, body: Ast)
    requires MoreThanOnce(kind) && Inhabited(body)
    ensures Walk(Repetition(kind, body), false) == Ok && TailsClear(body) <==>
      && Count(kind) <= MAX_REPEAT
      && AllReadable(body)
      && NoLoops(body)
      && OneLookahead(body)
      && RoundLookahead(body)
      && (MinRounds(kind) >= 2 ==> !Matches(body, []))
  {
    if Of(body).nullable { NullableExact(body); }
    if Matches(body, []) { StartSound(body, []); }
    if Walk(Repetition(kind, body), false) == Ok && TailsClear(body) {
      AcceptedShape(body);
      LookaheadSound(body);
      RoundLookaheadSound(body);
    }
    if AllReadable(body) && NoLoops(body) && OneLookahead(body) && RoundLookahead(body) {
      LookaheadComplete(body);
      if c :| c in Tail(body) * Of(body).chars {
        TailExact(body, c);
        StartExact(body, c);
      }
    }
  }

  // --- What is accepted outside of loops ---------------------------------------------------------

  /** The counts are in bounds, counted rounds are never empty, and every outermost loop decides all
      choices of a round, and where it ends, by one character. Nothing else is asked of the rest. */
  ghost predicate LoopsDecided(ast: Ast)
    decreases ast, 0
  {
    match ast
    case Repetition(kind, body) =>
      && Count(kind) <= MAX_REPEAT
      && (MinRounds(kind) >= 2 ==> !Matches(body, []))
      && (if MoreThanOnce(kind) then NoLoops(body) && OneLookahead(body) && RoundLookahead(body)
          else LoopsDecided(body))
    case Group(_, inner) => LoopsDecided(inner)
    case Alternation(asts) => forall i :: 0 <= i < |asts| ==> LoopsDecided(asts[i])
    case Concat(asts) => forall i :: 0 <= i < |asts| ==> LoopsDecided(asts[i])
    case _ => true
  }

  lemma {:induction false} NoLoopTails(ast: Ast)
    requires NoLoops(ast)
    ensures LoopTailsClear(ast)
    decreases ast, 0
  {
    match ast
    case Empty | Flags(_) | Assertion(_) | Class(_, _) =>
    case Repetition(_, body) => NoLoopTails(body);
    case Group(_, inner) => NoLoopTails(inner);
    case Alternation(asts) =>
      forall i | 0 <= i < |asts| ensures LoopTailsClear(asts[i]) { NoLoopTails(asts[i]); }
    case Concat(asts) =>
      forall i | 0 <= i < |asts| ensures LoopTailsClear(asts[i]) { NoLoopTails(asts[i]); }
  }

  /** Main theorem, for every pattern: it is accepted, with clear tails in its loops, exactly if all
      of it is readable and its loops are decided. Alternatives that start alike, as in `a|ab`, and
      optional parts outside of loops are all right. */
  lemma {:induction false} AcceptedIff(ast: Ast)
    requires Inhabited(ast)
    ensures Walk(ast, false) == Ok && LoopTailsClear(ast) <==> AllReadable(ast) && LoopsDecided(ast)
    decreases ast, 0
  {
    match ast
    case Empty | Flags(_) | Assertion(_) | Class(_, _) =>
    case Repetition(kind, body) =>
      if MoreThanOnce(kind) {
        AcceptedLoopIff(kind, body);
        if NoLoops(body) { NoLoopTails(body); }
      } else {
        AcceptedIff(body);
      }
    case Group(_, inner) => AcceptedIff(inner);
    case Alternation(asts) =>
      WalkEachAt(asts, false);
      forall i | 0 <= i < |asts|
        ensures Walk(asts[i], false) == Ok && LoopTailsClear(asts[i]) <==> AllReadable(asts[i]) && LoopsDecided(asts[i])
      {
        AcceptedIff(asts[i]);
      }
    case Concat(asts) =>
      WalkEachAt(asts, false);
      forall i | 0 <= i < |asts|
        ensures Walk(asts[i], false) == Ok && LoopTailsClear(asts[i]) <==> AllReadable(asts[i]) && LoopsDecided(asts[i])
      {
        AcceptedIff(asts[i]);
      }
  }

  /** A pattern with nothing that repeats is accepted whatever its alternatives and options are, and
      whatever its sets. */
  lemma {:induction false} PlainAccepted(ast: Ast)
    requires AllReadable(ast) && NoLoops(ast)
    ensures Walk(ast, false) == Ok
    decreases ast, 0
  {
    match ast
    case Empty | Flags(_) | Assertion(_) | Class(_, _) =>
    case Repetition(_, body) => PlainAccepted(body);
    case Group(_, inner) => PlainAccepted(inner);
    case Alternation(asts) =>
      forall i | 0 <= i < |asts| ensures Walk(asts[i], false) == Ok { PlainAccepted(asts[i]); }
      WalkEachAt(asts, false);
    case Concat(asts) =>
      forall i | 0 <= i < |asts| ensures Walk(asts[i], false) == Ok { PlainAccepted(asts[i]); }
      WalkEachAt(asts, false);
  }

  // --- What is accepted, clear tails or not ------------------------------------------------------

  /** The choices the checks look at: alternatives, and optional parts before what follows them. */
  ghost predicate ChoicesDecided(ast: Ast)
    decreases ast, 0
  {
    match ast
    case Repetition(_, body) => ChoicesDecided(body)
    case Group(_, inner) => ChoicesDecided(inner)
    case Alternation(asts) =>
      && (forall i :: 0 <= i < |asts| ==> ChoicesDecided(asts[i]))
      && (forall i, j, c :: 0 <= i < j < |asts| ==> !(Begins(asts[i], c) && Begins(asts[j], c)))
    case Concat(asts) =>
      && (forall i :: 0 <= i < |asts| ==> ChoicesDecided(asts[i]))
      && (forall i :: 0 <= i < |asts| && Matches(asts[i], []) ==> StartsApart(asts[i], asts[i + 1..]))
    case _ => true
  }

  ghost predicate StartsApart(part: Ast, rest: seq<Ast>) {
    forall c :: !(Begins(part, c) && BeginsAll(rest, c))
  }

  /** For inhabited parts, the sets are apart exactly if no match begins alike. */
  lemma BranchSetsApart(a: Ast, b: Ast)
    requires Inhabited(a) && Inhabited(b)
    ensures Apart(Of(a).chars, Of(b).chars) <==> forall c :: !(Begins(a, c) && Begins(b, c))
  {
    forall c ensures Begins(a, c) && Begins(b, c) ==> c in Of(a).chars * Of(b).chars {
      if Begins(a, c) && Begins(b, c) {
        BeginsInChars(a, c);
        BeginsInChars(b, c);
      }
    }
    if c :| c in Of(a).chars * Of(b).chars {
      StartExact(a, c);
      StartExact(b, c);
    }
  }

  lemma RestSetsApart(a: Ast, rest: seq<Ast>)
    requires Inhabited(a) && forall i :: 0 <= i < |rest| ==> Inhabited(rest[i])
    ensures Apart(Of(a).chars, OfAll(rest).chars) <==> StartsApart(a, rest)
  {
    forall c ensures Begins(a, c) && BeginsAll(rest, c) ==> c in Of(a).chars * OfAll(rest).chars {
      if Begins(a, c) && BeginsAll(rest, c) {
        BeginsInChars(a, c);
        var w :| MatchesAll(rest, [c] + w);
        StartSoundAll(rest, [c] + w);
      }
    }
    if c :| c in Of(a).chars * OfAll(rest).chars {
      StartExact(a, c);
      StartExactAll(rest, c);
    }
  }

  lemma NullableIff(ast: Ast)
    requires Inhabited(ast)
    ensures Of(ast).nullable <==> Matches(ast, [])
  {
    if Of(ast).nullable { NullableExact(ast); }
    if Matches(ast, []) { StartSound(ast, []); }
  }

  lemma SequenceApartIff(asts: seq<Ast>)
    requires forall i :: 0 <= i < |asts| ==> Inhabited(asts[i])
    ensures SequenceApart(asts) <==>
      forall i :: 0 <= i < |asts| && Matches(asts[i], []) ==> StartsApart(asts[i], asts[i + 1..])
  {
    forall i | 0 <= i < |asts|
      ensures Of(asts[i]).nullable <==> Matches(asts[i], [])
      ensures Apart(Of(asts[i]).chars, OfAll(asts[i + 1..]).chars) <==> StartsApart(asts[i], asts[i + 1..])
    {
      NullableIff(asts[i]);
      RestSetsApart(asts[i], asts[i + 1..]);
    }
  }

  lemma BranchesApartIff(asts: seq<Ast>)
    requires forall i :: 0 <= i < |asts| ==> Inhabited(asts[i])
    ensures BranchesApart(asts) <==>
      forall i, j, c :: 0 <= i < j < |asts| ==> !(Begins(asts[i], c) && Begins(asts[j], c))
  {
    forall i, j | 0 <= i < j < |asts|
      ensures Apart(Of(asts[i]).chars, Of(asts[j]).chars) <==>
        forall c :: !(Begins(asts[i], c) && Begins(asts[j], c))
    {
      BranchSetsApart(asts[i], asts[j]);
    }
  }

  /** The checks inside a loop, said of the language. */
  lemma {:induction false} WalkedInLoopIff(ast: Ast)
    requires Inhabited(ast)
    ensures Walk(ast, true) == Ok <==> AllReadable(ast) && NoLoops(ast) && ChoicesDecided(ast)
    decreases ast, 0
  {
    match ast
    case Empty | Flags(_) | Assertion(_) | Class(_, _) =>
    case Repetition(_, body) => WalkedInLoopIff(body);
    case Group(_, inner) => WalkedInLoopIff(inner);
    case Alternation(asts) =>
      EachInLoopIff(ast, asts);
      BranchesApartIff(asts);
    case Concat(asts) =>
      EachInLoopIff(ast, asts);
      SequenceApartIff(asts);
  }

  lemma EachInLoopIff(ast: Ast, asts: seq<Ast>)
    requires (forall i :: 0 <= i < |asts| ==> Inhabited(asts[i])) && (ast == Alternation(asts) || ast == Concat(asts))
    ensures WalkEach(asts, true) == Ok <==>
      forall i :: 0 <= i < |asts| ==> AllReadable(asts[i]) && NoLoops(asts[i]) && ChoicesDecided(asts[i])
    decreases ast, 0, 0
  {
    WalkEachAt(asts, true);
    forall i | 0 <= i < |asts|
      ensures Walk(asts[i], true) == Ok <==> AllReadable(asts[i]) && NoLoops(asts[i]) && ChoicesDecided(asts[i])
    {
      WalkedInLoopIff(asts[i]);
    }
  }

  /** What the checks ask of loops: as `LoopsDecided`, but of a part's ending only what its tail set
      tells. */
  ghost predicate LoopsChecked(ast: Ast)
    decreases ast, 0
  {
    match ast
    case Repetition(kind, body) =>
      && Count(kind) <= MAX_REPEAT
      && (MinRounds(kind) >= 2 ==> !Matches(body, []))
      && (if MoreThanOnce(kind) then NoLoops(body) && ChoicesDecided(body) && TailApart(body) else LoopsChecked(body))
    case Group(_, inner) => LoopsChecked(inner)
    case Alternation(asts) => forall i :: 0 <= i < |asts| ==> LoopsChecked(asts[i])
    case Concat(asts) => forall i :: 0 <= i < |asts| ==> LoopsChecked(asts[i])
    case _ => true
  }

  /** No round begins with a character of the optional tail. */
  ghost predicate TailApart(body: Ast) {
    forall c :: c in Tail(body) ==> !Begins(body, c)
  }

  lemma RoundsApartIff(body: Ast)
    requires Inhabited(body)
    ensures RoundsApart(body) <==> TailApart(body)
  {
    forall c ensures Begins(body, c) <==> c in Of(body).chars {
      if c in Of(body).chars { StartExact(body, c); }
      if Begins(body, c) { BeginsInChars(body, c); }
    }
    if !TailApart(body) {
      var c :| c in Tail(body) && Begins(body, c);
      assert c in Tail(body) * Of(body).chars;
    }
  }

  /** Main theorem: exactly what is accepted, clear tails or not. */
  lemma {:induction false} AcceptedExactly(ast: Ast)
    requires Inhabited(ast)
    ensures Walk(ast, false) == Ok <==> AllReadable(ast) && LoopsChecked(ast)
    decreases ast, 0
  {
    match ast
    case Empty | Flags(_) | Assertion(_) | Class(_, _) =>
    case Repetition(kind, body) =>
      NullableIff(body);
      if MoreThanOnce(kind) {
        WalkedInLoopIff(body);
        RoundsApartIff(body);
      } else {
        AcceptedExactly(body);
      }
    case Group(_, inner) => AcceptedExactly(inner);
    case Alternation(asts) => EachAcceptedExactly(ast, asts);
    case Concat(asts) => EachAcceptedExactly(ast, asts);
  }

  lemma EachAcceptedExactly(ast: Ast, asts: seq<Ast>)
    requires (forall i :: 0 <= i < |asts| ==> Inhabited(asts[i])) && (ast == Alternation(asts) || ast == Concat(asts))
    ensures WalkEach(asts, false) == Ok <==>
      forall i :: 0 <= i < |asts| ==> AllReadable(asts[i]) && LoopsChecked(asts[i])
    decreases ast, 0, 0
  {
    WalkEachAt(asts, false);
    forall i | 0 <= i < |asts|
      ensures Walk(asts[i], false) == Ok <==> AllReadable(asts[i]) && LoopsChecked(asts[i])
    {
      AcceptedExactly(asts[i]);
    }
  }

  // --- Which refusal is given --------------------------------------------------------------------

  /** The same pattern with every part spelled alike for both engines. */
  function Readably(ast: Ast): Ast
    decreases ast, 0
  {
    match ast
    case Empty => Empty
    case Flags(_) => Flags(true)
    case Assertion(_) => Assertion(true)
    case Class(chars, _) => Class(chars, true)
    case Repetition(kind, body) => Repetition(kind, Readably(body))
    case Group(_, inner) => Group(true, Readably(inner))
    case Alternation(asts) => Alternation(ReadablyAll(asts))
    case Concat(asts) => Concat(ReadablyAll(asts))
  }

  function ReadablyAll(asts: seq<Ast>): (all: seq<Ast>)
    ensures |all| == |asts|
    decreases asts, 0
  {
    if asts == [] then [] else [Readably(asts[0])] + ReadablyAll(asts[1..])
  }

  lemma {:induction false} ReadablyAt(asts: seq<Ast>, i: nat)
    requires i < |asts|
    ensures ReadablyAll(asts)[i] == Readably(asts[i])
    ensures ReadablyAll(asts)[i..] == ReadablyAll(asts[i..])
  {
    if i > 0 {
      ReadablyAt(asts[1..], i - 1);
      assert asts[1..][i - 1..] == asts[i..];
      assert ReadablyAll(asts)[i..] == ReadablyAll(asts[1..])[i - 1..];
    } else {
      assert asts[0..] == asts;
    }
  }

  lemma {:induction false} SameSets(ast: Ast)
    ensures Of(Readably(ast)) == Of(ast) && Tail(Readably(ast)) == Tail(ast)
    decreases ast, 0
  {
    match ast
    case Empty | Flags(_) | Assertion(_) | Class(_, _) =>
    case Repetition(_, body) => SameSets(body);
    case Group(_, inner) => SameSets(inner);
    case Alternation(asts) => SameSetsAll(asts, false);
    case Concat(asts) => SameSetsAll(asts, false);
  }

  lemma {:induction false} SameSetsAll(asts: seq<Ast>, begun: bool)
    ensures OfAny(ReadablyAll(asts)) == OfAny(asts) && OfAll(ReadablyAll(asts)) == OfAll(asts)
    ensures TailAny(ReadablyAll(asts)) == TailAny(asts) && TailAll(ReadablyAll(asts), begun) == TailAll(asts, begun)
    decreases asts, 0
  {
    if asts != [] {
      SameSets(asts[0]);
      SameSetsAll(asts[1..], begun || Of(asts[0]).chars != {});
      assert ReadablyAll(asts)[1..] == ReadablyAll(asts[1..]);
    }
  }

  lemma SameApart(asts: seq<Ast>)
    ensures BranchesApart(ReadablyAll(asts)) <==> BranchesApart(asts)
    ensures SequenceApart(ReadablyAll(asts)) <==> SequenceApart(asts)
  {
    var all := ReadablyAll(asts);
    forall i | 0 <= i < |asts|
      ensures Of(all[i]) == Of(asts[i]) && OfAll(all[i + 1..]) == OfAll(asts[i + 1..])
    {
      ReadablyAt(asts, i);
      SameSets(asts[i]);
      if i + 1 < |asts| { ReadablyAt(asts, i + 1); }
      SameSetsAll(asts[i + 1..], false);
    }
  }

  /** A pattern is called invalid only for a part that is not readable. */
  lemma {:induction false} InvalidMeans(ast: Ast, repeated: bool)
    ensures Walk(ast, repeated) == Invalid ==> !AllReadable(ast)
    decreases ast, 0
  {
    match ast
    case Empty | Flags(_) | Assertion(_) | Class(_, _) =>
    case Repetition(kind, body) => InvalidMeans(body, repeated || MoreThanOnce(kind));
    case Group(_, inner) => InvalidMeans(inner, repeated);
    case Alternation(asts) => InvalidMeansEach(asts, repeated);
    case Concat(asts) => InvalidMeansEach(asts, repeated);
  }

  lemma {:induction false} InvalidMeansEach(asts: seq<Ast>, repeated: bool)
    ensures WalkEach(asts, repeated) == Invalid ==> exists i :: 0 <= i < |asts| && !AllReadable(asts[i])
    decreases asts, 0
  {
    if asts != [] {
      InvalidMeans(asts[0], repeated);
      InvalidMeansEach(asts[1..], repeated);
      if WalkEach(asts[1..], repeated) == Invalid {
        var i :| 0 <= i < |asts[1..]| && !AllReadable(asts[1..][i]);
        assert asts[i + 1] == asts[1..][i];
      }
    }
  }

  /** Nothing becomes too complex, or stops being so, by being readable. */
  ghost predicate KeepsKind(check: Check, readably: Check) {
    readably == if check == Invalid then readably else check
  }

  lemma LoopKeepsKind(kind: Kind, body: Ast, other: Ast, repeated: bool)
    requires KeepsKind(Walk(body, repeated || MoreThanOnce(kind)), Walk(other, repeated || MoreThanOnce(kind)))
    requires Of(other) == Of(body) && Tail(other) == Tail(body)
    ensures KeepsKind(Walk(Repetition(kind, body), repeated), Walk(Repetition(kind, other), repeated))
  {
  }

  lemma {:induction false} ComplexMeans(ast: Ast, repeated: bool)
    ensures KeepsKind(Walk(ast, repeated), Walk(Readably(ast), repeated))
    decreases ast, 0
  {
    match ast
    case Empty | Flags(_) | Assertion(_) | Class(_, _) =>
    case Repetition(kind, body) =>
      ComplexMeans(body, repeated || MoreThanOnce(kind));
      SameSets(body);
      LoopKeepsKind(kind, body, Readably(body), repeated);
    case Group(_, inner) => ComplexMeans(inner, repeated);
    case Alternation(asts) =>
      ComplexMeansEach(asts, repeated);
      SameApart(asts);
    case Concat(asts) =>
      ComplexMeansEach(asts, repeated);
      SameApart(asts);
  }

  lemma {:induction false} ComplexMeansEach(asts: seq<Ast>, repeated: bool)
    ensures KeepsKind(WalkEach(asts, repeated), WalkEach(ReadablyAll(asts), repeated))
    decreases asts, 0
  {
    if asts != [] {
      ComplexMeans(asts[0], repeated);
      ComplexMeansEach(asts[1..], repeated);
      assert ReadablyAll(asts)[1..] == ReadablyAll(asts[1..]);
    }
  }

  /** A pattern is called invalid only for a part that is not readable, and too complex only if it
      still is when all its parts are. */
  lemma RefusalKinds(ast: Ast, repeated: bool)
    ensures Walk(ast, repeated) == Invalid ==> !AllReadable(ast)
    ensures Walk(ast, repeated) == TooComplex ==> Walk(Readably(ast), repeated) == TooComplex
  {
    InvalidMeans(ast, repeated);
    ComplexMeans(ast, repeated);
  }

  // --- One way to split a line -------------------------------------------------------------------

  function Flat(pieces: seq<string>): string {
    if pieces == [] then [] else pieces[0] + Flat(pieces[1..])
  }

  /** `rounds` are rounds of `body` that each match something. */
  ghost predicate Splits(body: Ast, rounds: seq<string>) {
    forall i :: 0 <= i < |rounds| ==> rounds[i] != [] && Matches(body, rounds[i])
  }

  /** No line splits into rounds of `body` in two ways. */
  ghost predicate UniqueRounds(body: Ast) {
    forall rounds, others :: Splits(body, rounds) && Splits(body, others) && Flat(rounds) == Flat(others)
      ==> rounds == others
  }

  lemma {:induction false} SameRounds(body: Ast, rounds: seq<string>, others: seq<string>)
    requires RoundLookahead(body)
    requires Splits(body, rounds) && Splits(body, others) && Flat(rounds) == Flat(others)
    ensures rounds == others
  {
    if rounds != [] && others != [] {
      FirstRound(body, rounds, others);
      FirstRound(body, others, rounds);
      assert Flat(rounds[1..]) == Flat(rounds)[|rounds[0]|..];
      assert Flat(others[1..]) == Flat(others)[|others[0]|..];
      SameRounds(body, rounds[1..], others[1..]);
      assert rounds == [rounds[0]] + rounds[1..] && others == [others[0]] + others[1..];
    }
  }

  lemma FirstRound(body: Ast, rounds: seq<string>, others: seq<string>)
    requires RoundLookahead(body) && rounds != [] && others != []
    requires Splits(body, rounds) && Splits(body, others) && Flat(rounds) == Flat(others)
    ensures |rounds[0]| >= |others[0]|
    ensures |rounds[0]| == |others[0]| ==> rounds[0] == others[0]
  {
    var a, b := rounds[0], others[0];
    var r := Flat(rounds[1..]);
    CutShape(a, r, b, Flat(others[1..]));
    if |a| < |b| {
      var next := rounds[1];
      assert r == next + Flat(rounds[1..][1..]);
      assert next == [r[0]] + next[1..];
      assert Begins(body, r[0]);
      assert GoesOn(body, r[0]);
    }
  }

  /** Within every loop, at any depth, no line splits into rounds in two ways. */
  ghost predicate LoopsUnique(ast: Ast)
    decreases ast, 0
  {
    match ast
    case Repetition(kind, body) => LoopsUnique(body) && (MoreThanOnce(kind) ==> UniqueRounds(body))
    case Group(_, inner) => LoopsUnique(inner)
    case Alternation(asts) => forall i :: 0 <= i < |asts| ==> LoopsUnique(asts[i])
    case Concat(asts) => forall i :: 0 <= i < |asts| ==> LoopsUnique(asts[i])
    case _ => true
  }

  /** The condition, asked of loop bodies only. */
  predicate LoopTailsClear(ast: Ast)
    decreases ast, 0
  {
    match ast
    case Repetition(kind, body) => LoopTailsClear(body) && (MoreThanOnce(kind) ==> TailsClear(body))
    case Group(_, inner) => LoopTailsClear(inner)
    case Alternation(asts) => forall i :: 0 <= i < |asts| ==> LoopTailsClear(asts[i])
    case Concat(asts) => forall i :: 0 <= i < |asts| ==> LoopTailsClear(asts[i])
    case _ => true
  }

  /** Main theorem: in an accepted pattern whose loop bodies have clear tails, every loop splits
      every line in one way at most. Nothing is assumed of the sets or the counts. */
  lemma {:induction false} AcceptedLoopsUnique(ast: Ast, repeated: bool)
    requires Walk(ast, repeated) == Ok && LoopTailsClear(ast)
    ensures LoopsUnique(ast)
    decreases ast, 0
  {
    match ast
    case Empty | Flags(_) | Assertion(_) | Class(_, _) =>
    case Repetition(kind, body) =>
      AcceptedLoopsUnique(body, repeated || MoreThanOnce(kind));
      if MoreThanOnce(kind) {
        RoundLookaheadSound(body);
        forall rounds, others |
          Splits(body, rounds) && Splits(body, others) && Flat(rounds) == Flat(others)
          ensures rounds == others
        {
          SameRounds(body, rounds, others);
        }
      }
    case Group(_, inner) => AcceptedLoopsUnique(inner, repeated);
    case Alternation(asts) =>
      WalkEachAt(asts, repeated);
      forall i | 0 <= i < |asts| ensures LoopsUnique(asts[i]) { AcceptedLoopsUnique(asts[i], repeated); }
    case Concat(asts) =>
      WalkEachAt(asts, repeated);
      forall i | 0 <= i < |asts| ensures LoopsUnique(asts[i]) { AcceptedLoopsUnique(asts[i], repeated); }
  }

  /** `pieces[i]` is what part `i` matches. */
  ghost predicate PartsMatch(asts: seq<Ast>, pieces: seq<string>) {
    |pieces| == |asts| && forall i :: 0 <= i < |asts| ==> Matches(asts[i], pieces[i])
  }

  lemma {:induction false} PartsMatchAll(asts: seq<Ast>, pieces: seq<string>)
    requires PartsMatch(asts, pieces)
    ensures MatchesAll(asts, Flat(pieces))
  {
    if asts != [] {
      PartsMatchAll(asts[1..], pieces[1..]);
      JoinParts(asts, pieces[0], Flat(pieces[1..]));
    }
  }

  /** Inside an accepted body, a sequence cuts a line between its parts in one way, and one branch
      of an alternation takes it. */
  lemma {:induction false} SequenceCutOnce(asts: seq<Ast>, pieces: seq<string>, others: seq<string>)
    requires Walk(Concat(asts), true) == Ok && TailsClearAll(asts)
    requires PartsMatch(asts, pieces) && PartsMatch(asts, others) && Flat(pieces) == Flat(others)
    ensures pieces == others
  {
    if asts != [] {
      var a, rest := asts[0], asts[1..];
      PartsMatchAll(rest, pieces[1..]);
      PartsMatchAll(rest, others[1..]);
      HeadSound(asts);
      RestApart(asts);
      SameCut(a, rest, pieces[0], Flat(pieces[1..]), others[0], Flat(others[1..]));
      SameCut(a, rest, others[0], Flat(others[1..]), pieces[0], Flat(pieces[1..]));
      assert Flat(pieces[1..]) == Flat(pieces)[|pieces[0]|..];
      assert Flat(others[1..]) == Flat(others)[|others[0]|..];
      SequenceCutOnce(rest, pieces[1..], others[1..]);
      assert pieces == [pieces[0]] + pieces[1..] && others == [others[0]] + others[1..];
    }
  }

  lemma BranchTakenOnce(asts: seq<Ast>, i: nat, j: nat, s: string)
    requires Walk(Alternation(asts), true) == Ok && i < |asts| && j < |asts|
    requires s != [] && Matches(asts[i], s) && Matches(asts[j], s)
    ensures i == j
  {
    StartSound(asts[i], s);
    StartSound(asts[j], s);
    assert s[0] in Of(asts[i]).chars * Of(asts[j]).chars;
    assert s[0] in Of(asts[j]).chars * Of(asts[i]).chars;
  }

  // --- The condition is needed, and not exact ----------------------------------------------------

  function Letter(c: char): Ast { Class({c}, true) }

  function Maybe(ast: Ast): Ast { Repetition(ZeroOrOne, ast) }

  lemma {:induction false} MaybeMatches(ast: Ast, s: string)
    ensures Matches(Maybe(ast), s) <==> s == [] || Matches(ast, s)
  {
    assert MatchesRounds(ast, 0, []);
    if s == [] {
      assert RoundsFit(ZeroOrOne, 0) && MatchesRounds(ast, 0, s);
    } else if Matches(ast, s) {
      JoinRounds(ast, 0, s, []);
      assert s + [] == s;
      assert RoundsFit(ZeroOrOne, 1) && MatchesRounds(ast, 1, s);
    } else if Matches(Maybe(ast), s) {
      OneRound(ZeroOrOne, ast, s);
    }
  }

  /** `x` then `y`. */
  function Two(x: Ast, y: Ast): Ast { Concat([x, y]) }

  lemma TwoMatches(x: Ast, y: Ast, p: string, r: string)
    requires Matches(x, p) && Matches(y, r)
    ensures Matches(Two(x, y), p + r)
  {
    assert MatchesAll([], []);
    JoinParts([y], r, []);
    assert r + [] == r;
    assert [x, y][1..] == [y];
    JoinParts([x, y], p, r);
  }

  /** `(ab?)(ba)?` */
  const GAP_BODY := OptionalTails('a', 'b', 'a')

  /** The checks accept `((ab?)(ba)?)+`, and "aba" is one round of it or two. */
  lemma GapAccepted()
    ensures Walk(Repetition(OneOrMore, GAP_BODY), false) == Ok && !TailsClear(GAP_BODY)
    ensures !UniqueRounds(GAP_BODY)
  {
    OptionalTailsSets('a', 'b', 'a');
    GapWays(Letter('a'), Letter('b'), "a", "b");
  }

  lemma GapWays(x: Ast, y: Ast, p: string, r: string)
    requires Matches(x, p) && Matches(y, r) && p != []
    ensures !UniqueRounds(Two(Two(x, Maybe(y)), Maybe(Two(y, x))))
  {
    OptionalEnd(x, y, p, r);
    TwoMatches(y, x, r, p);
    GapWaysOf(Two(x, Maybe(y)), Two(y, x), p, r);
  }

  lemma GapWaysOf(xy: Ast, yx: Ast, p: string, r: string)
    requires Matches(xy, p) && Matches(xy, p + r) && Matches(yx, r + p) && p != []
    ensures !UniqueRounds(Two(xy, Maybe(yx)))
  {
    OptionalEnd(xy, yx, p, r + p);
    OptionalEnd(xy, yx, p + r, r + p);
    assert p + (r + p) == (p + r) + p;
    TwoWays(Two(xy, Maybe(yx)), p + (r + p), p + r, p);
  }

  lemma OptionalEnd(x: Ast, y: Ast, p: string, r: string)
    requires Matches(x, p) && Matches(y, r)
    ensures Matches(Two(x, Maybe(y)), p) && Matches(Two(x, Maybe(y)), p + r)
  {
    MaybeMatches(y, []);
    MaybeMatches(y, r);
    TwoMatches(x, Maybe(y), p, []);
    TwoMatches(x, Maybe(y), p, r);
    assert p + [] == p;
  }

  lemma TwoWays(body: Ast, whole: string, first: string, second: string)
    requires Matches(body, whole) && Matches(body, first) && Matches(body, second)
    requires first != [] && second != [] && whole == first + second
    ensures !UniqueRounds(body)
  {
    var one, two := [whole], [first, second];
    assert one[1..] == [] && two[1..] == [second] && [second][1..] == [];
    assert Flat([second]) == second + [] && Flat(one) == whole + [];
    assert Flat(one) == Flat(two);
    assert Splits(body, one) && Splits(body, two) && |one| != |two|;
  }

  /** The sets of two parts in a row. */
  lemma TwoSets(x: Ast, y: Ast)
    ensures Of(Two(x, y)) == Of(x).Then(Of(y))
    ensures Of(x).chars != {} && !Of(x).nullable ==>
      Tail(Two(x, y)) == Tail(y) + (if Of(y).nullable then Tail(x) + Of(y).chars else {})
  {
    assert [x, y][1..] == [y] && [x, y][0] == x;
    LastSets(y);
  }

  lemma LastSets(y: Ast)
    ensures OfAll([y]) == Of(y)
    ensures TailAll([y], true) == Tail(y) + (if Of(y).nullable then Of(y).chars else {})
  {
    assert [y][1..] == [] && [y][0] == y;
    assert OfAll([]) == Start({}, true) && TailAll([], true) == {};
    assert Of(y).Then(Start({}, true)) == Of(y);
  }

  lemma TwoWalked(x: Ast, y: Ast)
    requires Walk(x, true) == Ok && Walk(y, true) == Ok && !Of(x).nullable
    ensures Walk(Two(x, y), true) == Ok
  {
    var parts := [x, y];
    assert parts[1..] == [y] && parts[2..] == [];
    WalkEachAt(parts, true);
    assert OfAll(parts[2..]).chars == {};
  }

  lemma TwoTailsClash(x: Ast, y: Ast, c: char)
    requires c in Tail(x) && c in Of(y).chars
    ensures !TailsClear(Two(x, y))
  {
    assert [x, y][1..] == [y];
    assert c in Tail(x) * OfAll([y]).chars;
  }

  lemma MaybeSets(x: Ast)
    requires Walk(x, true) == Ok
    ensures Of(Maybe(x)) == Start(Of(x).chars, true) && Tail(Maybe(x)) == Tail(x) && Walk(Maybe(x), true) == Ok
  {
  }

  /** `(xy?)(yz)?`: the checks see only that it begins with `x` and may go on with `y`. */
  function OptionalTails(x: char, y: char, z: char): Ast {
    Two(Two(Letter(x), Maybe(Letter(y))), Maybe(Two(Letter(y), Letter(z))))
  }

  lemma OptionalTailsSets(x: char, y: char, z: char)
    requires x != y
    ensures Walk(Repetition(OneOrMore, OptionalTails(x, y, z)), false) == Ok && !TailsClear(OptionalTails(x, y, z))
  {
    var a, b, c := Letter(x), Letter(y), Letter(z);
    var ab, bc := Two(a, Maybe(b)), Two(b, c);
    MaybeSets(b);
    TwoSets(a, Maybe(b));
    TwoWalked(a, Maybe(b));
    TwoSets(b, c);
    TwoWalked(b, c);
    MaybeSets(bc);
    TwoSets(ab, Maybe(bc));
    TwoWalked(ab, Maybe(bc));
    TwoTailsClash(ab, Maybe(bc), y);
  }

  /** Every match of `ast` has `c` in front and nowhere else. */
  ghost predicate MarkedBy(ast: Ast, c: char) {
    forall s :: Matches(ast, s) ==> s != [] && s[0] == c && c !in s[1..]
  }

  ghost predicate Without(ast: Ast, c: char) {
    forall s :: Matches(ast, s) ==> c !in s
  }

  lemma TwoCut(x: Ast, y: Ast, s: string) returns (p: string, r: string)
    requires Matches(Two(x, y), s)
    ensures s == p + r && Matches(x, p) && Matches(y, r)
  {
    var t;
    p, r := CutOf([x, y], s);
    assert [x, y][1..] == [y] && [y][1..] == [];
    t, r := CutOf([y], r);
    assert r == [] && t + r == t;
    r := t;
  }

  lemma TwoMarked(x: Ast, y: Ast, c: char)
    requires Without(y, c)
    ensures MarkedBy(x, c) ==> MarkedBy(Two(x, y), c)
    ensures Without(x, c) ==> Without(Two(x, y), c)
  {
    forall s | Matches(Two(x, y), s)
      ensures MarkedBy(x, c) ==> s != [] && s[0] == c && c !in s[1..]
      ensures Without(x, c) ==> c !in s
    {
      var p, r := TwoCut(x, y, s);
      if p != [] { assert s[1..] == p[1..] + r; }
    }
  }

  lemma MaybeWithout(ast: Ast, c: char)
    requires Without(ast, c)
    ensures Without(Maybe(ast), c)
  {
    forall s | Matches(Maybe(ast), s) ensures c !in s { MaybeMatches(ast, s); }
  }

  lemma AfterFirst(u: string, d: char, v: string)
    requires u != []
    ensures d in (u + [d] + v)[1..]
  {
    assert (u + [d] + v)[1..] == u[1..] + [d] + v;
  }

  /** A loop whose rounds are marked splits every line in one way, whatever its tails. */
  lemma MarkedUnique(body: Ast, c: char)
    requires MarkedBy(body, c)
    ensures UniqueRounds(body)
  {
    forall d ensures !(GoesOn(body, d) && Begins(body, d)) {
      if GoesOn(body, d) && Begins(body, d) {
        var w :| Matches(body, [d] + w);
        var u, v :| u != [] && Matches(body, u) && Matches(body, u + [d] + v);
        AfterFirst(u, d, v);
      }
    }
    forall rounds, others |
      Splits(body, rounds) && Splits(body, others) && Flat(rounds) == Flat(others)
      ensures rounds == others
    {
      SameRounds(body, rounds, others);
    }
  }

  /** `(ab?)(bc)?` */
  const MARKED_BODY := OptionalTails('a', 'b', 'c')

  /** The condition can fail where the rounds are unique all the same: `((ab?)(bc)?)+`. */
  lemma ClearTailsNotNeeded()
    ensures Walk(Repetition(OneOrMore, MARKED_BODY), false) == Ok && !TailsClear(MARKED_BODY)
    ensures UniqueRounds(MARKED_BODY)
  {
    OptionalTailsSets('a', 'b', 'c');
    OptionalTailsUnique('a', 'b', 'c');
  }

  lemma OptionalTailsUnique(x: char, y: char, z: char)
    requires x != y && x != z
    ensures UniqueRounds(OptionalTails(x, y, z))
  {
    MarkedShape(Letter(x), Letter(y), Letter(z), x);
    MarkedUnique(OptionalTails(x, y, z), x);
  }

  lemma MarkedShape(x: Ast, y: Ast, z: Ast, c: char)
    requires MarkedBy(x, c) && Without(y, c) && Without(z, c)
    ensures MarkedBy(Two(Two(x, Maybe(y)), Maybe(Two(y, z))), c)
  {
    MaybeWithout(y, c);
    TwoMarked(x, Maybe(y), c);
    TwoMarked(y, z, c);
    MaybeWithout(Two(y, z), c);
    TwoMarked(Two(x, Maybe(y)), Maybe(Two(y, z)), c);
  }

  // --- The checks as loops -----------------------------------------------------------------------

  /** `optional_tail`: the parts of a sequence from the back, up to the first that has to match. */
  method OptionalTail(ast: Ast) returns (tail: set<char>)
    ensures tail == Tail(ast)
    decreases ast
  {
    match ast
    case Repetition(kind, body) =>
      tail := OptionalTail(body);
      if MoreThanOnce(kind) {
        tail := tail + Of(body).chars;
      }
    case Group(_, inner) =>
      tail := OptionalTail(inner);
    case Alternation(asts) =>
      tail := {};
      for index := |asts| downto 0
        invariant tail == TailAny(asts[index..])
      {
        var more := OptionalTail(asts[index]);
        tail := tail + more;
        assert asts[index..][1..] == asts[index + 1..];
      }
      assert asts[0..] == asts;
    case Concat(asts) =>
      tail := OptionalTailOfSequence(asts);
    case _ =>
      tail := {};
  }

  /** A part before `index` can match something. */
  predicate Begun(asts: seq<Ast>, index: nat)
    requires index <= |asts|
  {
    exists before :: 0 <= before < index && Of(asts[before]).chars != {}
  }

  method OptionalTailOfSequence(asts: seq<Ast>) returns (tail: set<char>)
    ensures tail == TailAll(asts, false)
    decreases asts
  {
    tail := {};
    var index := |asts|;
    assert asts[index..] == [];
    while index > 0
      invariant 0 <= index <= |asts|
      invariant tail == TailAll(asts[index..], Begun(asts, index))
      invariant OfAll(asts[index..]).nullable
    {
      index := index - 1;
      assert asts[index..][1..] == asts[index + 1..];
      assert Begun(asts, index + 1) == (Begun(asts, index) || Of(asts[index]).chars != {});
      var more := OptionalTail(asts[index]);
      tail := tail + more;
      var part := Of(asts[index]);
      if !part.nullable {
        TailStops(asts, index);
        break;
      }
      if Begun(asts, index) {
        tail := tail + part.chars;
      }
    }
    assert asts[0..] == asts;
  }

  /** Nothing before a part that has to match adds to the tail. */
  lemma {:induction false} TailStops(asts: seq<Ast>, index: nat)
    requires index < |asts| && !OfAll(asts[index..]).nullable
    ensures TailAll(asts, false) == TailAll(asts[index..], Begun(asts, index))
  {
    TailStopsFrom(asts, 0, index);
    assert asts[0..] == asts;
  }

  lemma {:induction false} TailStopsFrom(asts: seq<Ast>, from: nat, index: nat)
    requires from <= index < |asts| && !OfAll(asts[index..]).nullable
    ensures TailAll(asts[from..], Begun(asts, from)) == TailAll(asts[index..], Begun(asts, index))
    ensures !OfAll(asts[from..]).nullable
    decreases index - from
  {
    if from < index {
      TailStopsFrom(asts, from + 1, index);
      assert asts[from..][1..] == asts[from + 1..];
      assert Begun(asts, from + 1) == (Begun(asts, from) || Of(asts[from]).chars != {});
    }
  }

  method CheckBranches(branches: seq<Ast>) returns (check: Check)
    ensures check == if BranchesApart(branches) then Ok else TooComplex
  {
    var seen: set<char> := {};
    for i := 0 to |branches|
      invariant BranchesApart(branches[..i])
      invariant forall j :: 0 <= j < i ==> Of(branches[j]).chars <= seen
      invariant forall c :: c in seen ==> exists j :: 0 <= j < i && c in Of(branches[j]).chars
    {
      var chars := Of(branches[i]).chars;
      if chars * seen != {} {
        var c :| c in chars * seen;
        ghost var j :| 0 <= j < i && c in Of(branches[j]).chars;
        assert c in Of(branches[j]).chars * Of(branches[i]).chars;
        return TooComplex;
      }
      forall j | 0 <= j < i ensures Apart(Of(branches[j]).chars, chars) {
        assert Of(branches[j]).chars * chars <= chars * seen;
      }
      seen := seen + chars;
    }
    assert branches[..|branches|] == branches;
    check := Ok;
  }

  method CheckSequence(parts: seq<Ast>) returns (check: Check)
    ensures check == if SequenceApart(parts) then Ok else TooComplex
  {
    var rest := Start({}, true);
    assert parts[|parts|..] == [];
    for i := |parts| downto 0
      invariant rest == OfAll(parts[i..])
      invariant forall k :: i <= k < |parts| && Of(parts[k]).nullable ==>
        Apart(Of(parts[k]).chars, OfAll(parts[k + 1..]).chars)
    {
      var start := Of(parts[i]);
      if start.nullable && start.chars * rest.chars != {} {
        return TooComplex;
      }
      assert parts[i..][1..] == parts[i + 1..];
      rest := start.Then(rest);
    }
    check := Ok;
  }
}
