/** Comparing numbers and texts, and sorting by an order. */
module Ordering {

  datatype Order = Less | Equal | Greater

  function Flip(o: Order): Order {
    match o
    case Less => Greater
    case Equal => Equal
    case Greater => Less
  }

  /** The first comparison that decides. */
  function Then(first: Order, next: Order): Order { if first == Equal then next else first }

  function CompareInt(a: int, b: int): Order { if a < b then Less else if a == b then Equal else Greater }

  /** Texts compare by their first different character, a shorter one first. */
  function CompareText(a: string, b: string): Order {
    if a == [] then (if b == [] then Equal else Less)
    else if b == [] then Greater
    else if a[0] < b[0] then Less
    else if b[0] < a[0] then Greater
    else CompareText(a[1..], b[1..])
  }

  lemma {:induction false} TextFlips(a: string, b: string)
    ensures CompareText(b, a) == Flip(CompareText(a, b))
  {
    if a != [] && b != [] { TextFlips(a[1..], b[1..]); }
  }

  lemma {:induction false} TextEqual(a: string, b: string)
    ensures CompareText(a, b) == Equal <==> a == b
  {
    if a != [] && b != [] && a[0] == b[0] {
      TextEqual(a[1..], b[1..]);
      assert a == [a[0]] + a[1..] && b == [b[0]] + b[1..];
    }
  }

  /** Up to `n` the texts are the same, and there `a` ends or has the lower character. */
  predicate LowerAt(a: string, b: string, n: nat) {
    n <= |a| && n < |b| && a[..n] == b[..n] && (n == |a| || a[n] < b[n])
  }

  lemma LowerShorter(a: string, b: string, n: nat)
    requires a != [] && b != [] && a[0] == b[0] && LowerAt(a, b, n)
    ensures n > 0 && LowerAt(a[1..], b[1..], n - 1)
  {
    assert a[1..][..n - 1] == a[..n][1..] && b[1..][..n - 1] == b[..n][1..];
  }

  lemma LowerLonger(a: string, b: string, n: nat)
    requires a != [] && b != [] && a[0] == b[0] && LowerAt(a[1..], b[1..], n)
    ensures LowerAt(a, b, n + 1)
  {
    assert a[..n + 1] == [a[0]] + a[1..][..n] && b[..n + 1] == [b[0]] + b[1..][..n];
  }

  lemma LowerStart(a: string, b: string, n: nat)
    requires a != [] && b != [] && LowerAt(a, b, n)
    ensures a[0] <= b[0]
  {
    if n > 0 { assert a[..n][0] == b[..n][0]; }
  }

  /** The order of texts is the one of dictionaries. */
  lemma {:induction false} TextLess(a: string, b: string)
    ensures CompareText(a, b) == Less <==> exists n: nat :: LowerAt(a, b, n)
  {
    if n: nat :| LowerAt(a, b, n) {
      if a != [] { LowerStart(a, b, n); }
      if a != [] && a[0] == b[0] {
        LowerShorter(a, b, n);
        TextLess(a[1..], b[1..]);
      }
    } else if CompareText(a, b) == Less {
      if a == [] || a[0] < b[0] {
        assert LowerAt(a, b, 0);
      } else {
        TextLess(a[1..], b[1..]);
        var n: nat :| LowerAt(a[1..], b[1..], n);
        LowerLonger(a, b, n);
      }
    }
  }

  lemma {:induction false} TextTransitive(a: string, b: string, c: string)
    requires CompareText(a, b) != Greater && CompareText(b, c) != Greater
    ensures CompareText(a, c) != Greater
    ensures CompareText(a, c) == Equal ==> CompareText(a, b) == Equal && CompareText(b, c) == Equal
  {
    if a != [] && b != [] && c != [] && a[0] == b[0] == c[0] { TextTransitive(a[1..], b[1..], c[1..]); }
  }

  // --- Sorting -----------------------------------------------------------------------------------

  ghost predicate Total<T(!new)>(le: (T, T) -> bool) { forall a, b :: le(a, b) || le(b, a) }

  ghost predicate Transitive<T(!new)>(le: (T, T) -> bool) { forall a, b, c :: le(a, b) && le(b, c) ==> le(a, c) }

  ghost predicate Sorted<T>(s: seq<T>, le: (T, T) -> bool) { forall i, j :: 0 <= i < j < |s| ==> le(s[i], s[j]) }

  function Insert<T>(x: T, s: seq<T>, le: (T, T) -> bool): seq<T> {
    if s == [] then [x] else if le(x, s[0]) then [x] + s else [s[0]] + Insert(x, s[1..], le)
  }

  function Sort<T>(s: seq<T>, le: (T, T) -> bool): seq<T> {
    if s == [] then [] else Insert(s[0], Sort(s[1..], le), le)
  }

  lemma {:induction false} InsertHolds<T>(x: T, s: seq<T>, le: (T, T) -> bool)
    ensures multiset(Insert(x, s, le)) == multiset{x} + multiset(s)
  {
    if s != [] && !le(x, s[0]) {
      InsertHolds(x, s[1..], le);
      assert s == [s[0]] + s[1..];
    }
  }

  lemma {:induction false} SortHolds<T>(s: seq<T>, le: (T, T) -> bool)
    ensures multiset(Sort(s, le)) == multiset(s)
  {
    if s != [] {
      SortHolds(s[1..], le);
      InsertHolds(s[0], Sort(s[1..], le), le);
      assert s == [s[0]] + s[1..];
    }
  }

  lemma {:induction false} InsertSorts<T(!new)>(x: T, s: seq<T>, le: (T, T) -> bool)
    requires Total(le) && Transitive(le) && Sorted(s, le)
    ensures Sorted(Insert(x, s, le), le)
  {
    if s != [] {
      if le(x, s[0]) {
        forall j | 0 <= j < |s| ensures le(x, s[j]) {
          if j > 0 { assert le(s[0], s[j]); }
        }
      } else {
        var rest := Insert(x, s[1..], le);
        InsertSorts(x, s[1..], le);
        InsertHolds(x, s[1..], le);
        forall j | 0 <= j < |rest| ensures le(s[0], rest[j]) {
          assert rest[j] in multiset(rest);
          if rest[j] != x {
            assert rest[j] in s[1..];
          }
        }
      }
    }
  }

  lemma {:induction false} SortSorts<T(!new)>(s: seq<T>, le: (T, T) -> bool)
    requires Total(le) && Transitive(le)
    ensures Sorted(Sort(s, le), le)
  {
    if s != [] {
      SortSorts(s[1..], le);
      InsertSorts(s[0], Sort(s[1..], le), le);
    }
  }

  /** No two elements of `s` are level. */
  ghost predicate Strict<T(!new)>(s: seq<T>, le: (T, T) -> bool) {
    forall i, j :: 0 <= i < |s| && 0 <= j < |s| && le(s[i], s[j]) && le(s[j], s[i]) ==> s[i] == s[j]
  }

  lemma IndexIn<T>(s: seq<T>, x: T) returns (i: nat)
    requires x in multiset(s)
    ensures i < |s| && s[i] == x
  {
    i :| 0 <= i < |s| && s[i] == x;
  }

  lemma SameFirst<T(!new)>(s: seq<T>, t: seq<T>, le: (T, T) -> bool)
    requires Sorted(s, le) && Sorted(t, le) && multiset(s) == multiset(t) && s != [] && t != []
    requires Strict(s, le)
    ensures s[0] == t[0]
  {
    assert s[0] in multiset(s) && t[0] in multiset(t);
    var i := IndexIn(t, s[0]);
    var j := IndexIn(s, t[0]);
    if i > 0 && j > 0 {
      assert le(t[0], t[i]) && le(s[0], s[j]);
    }
  }

  lemma SameRest<T>(x: T, s: seq<T>, t: seq<T>)
    requires multiset([x] + s) == multiset([x] + t)
    ensures multiset(s) == multiset(t)
  {
    assert multiset(s) == multiset([x] + s) - multiset{x};
    assert multiset(t) == multiset([x] + t) - multiset{x};
  }

  /** Sorted lists of the same elements are the same, when no two of them are level. */
  lemma {:induction false} SortedOnce<T(!new)>(s: seq<T>, t: seq<T>, le: (T, T) -> bool)
    requires Sorted(s, le) && Sorted(t, le) && multiset(s) == multiset(t) && Strict(s, le)
    ensures s == t
  {
    assert |s| == |multiset(s)| == |multiset(t)| == |t|;
    if s != [] {
      SameFirst(s, t, le);
      assert s == [s[0]] + s[1..] && t == [s[0]] + t[1..];
      SameRest(s[0], s[1..], t[1..]);
      SortedOnce(s[1..], t[1..], le);
    }
  }
}
