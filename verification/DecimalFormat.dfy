/** Writing a number with one to three decimals (`dotnet_number` of `config.rs`), from the decimal
    digits of its magnitude on. */
module DecimalFormat {
  import opened Numerals

  type Digits = seq<nat>

  predicate AreDigits(ds: Digits) { forall i :: 0 <= i < |ds| ==> ds[i] < 10 }

  function Number(ds: Digits): nat {
    if ds == [] then 0 else Number(ds[..|ds| - 1]) * 10 + ds[|ds| - 1]
  }

  // --- Arithmetic of digits ----------------------------------------------------------------------

  lemma NumberAppend(ds: Digits, d: nat)
    ensures Number(ds + [d]) == Number(ds) * 10 + d
  {
    assert (ds + [d])[..|ds|] == ds;
  }

  lemma Distribute(a: nat, b: nat, c: nat)
    ensures (a * b) * 10 + c * 10 == (a * b + c) * 10
    ensures a * (10 * b) == (a * b) * 10
  {
  }

  lemma {:induction false} NumberJoin(a: Digits, b: Digits)
    ensures Number(a + b) == Number(a) * Power10(|b|) + Number(b)
  {
    if b == [] {
      assert a + b == a && Power10(0) == 1;
    } else {
      var n := |b| - 1;
      NumberJoin(a, b[..n]);
      assert a + b == (a + b[..n]) + [b[n]] && b == b[..n] + [b[n]];
      NumberAppend(a + b[..n], b[n]);
      NumberAppend(b[..n], b[n]);
      Distribute(Number(a), Power10(n), Number(b[..n]));
    }
  }

  lemma {:induction false} NumberBelow(ds: Digits)
    requires AreDigits(ds)
    ensures Number(ds) < Power10(|ds|)
  {
    if ds == [] {
      assert Power10(0) == 1;
    } else {
      NumberBelow(ds[..|ds| - 1]);
    }
  }

  lemma {:induction false} ZerosNumber(n: nat)
    ensures Number(seq(n, _ => 0)) == 0
  {
    if n > 0 {
      ZerosNumber(n - 1);
      assert seq(n, _ => 0)[..n - 1] == seq(n - 1, _ => 0);
    }
  }

  /** `n / p` rounded, halves up. */
  function HalfUp(n: nat, p: nat): nat
    requires p > 0
  {
    (2 * n + p) / (2 * p)
  }

  /** `n` divided by the `f`-th power of ten, in thousandths rounded half up. */
  function Thousandths(n: nat, f: nat): nat {
    if f <= 3 then n * Power10(3 - f)
    else HalfUp(n, Power10(f - 3))
  }

  /** The rounding is the only number of thousandths within half a thousandth of `n` over the `f`-th
      power of ten, the larger one of two. */
  lemma ThousandthsIs(n: nat, f: nat, t: nat)
    ensures t == Thousandths(n, f) <==> (2 * t - 1) * Power10(f) <= 2000 * n < (2 * t + 1) * Power10(f)
  {
    if f <= 3 {
      ThreePlaces(f);
      Whole(n, t, Power10(f), Power10(3 - f));
    } else {
      PowerSum(3, f - 3);
      ThreePlaces(0);
      HalfUpIs(n, Power10(f - 3), t);
      Thousandfold(2 * t - 1, Power10(f - 3), Power10(f), 2 * n);
      Thousandfold(2 * t + 1, Power10(f - 3), Power10(f), 2 * n);
    }
  }

  lemma HalfUpIs(n: nat, p: nat, t: nat)
    requires p > 0
    ensures t == HalfUp(n, p) <==> (2 * t - 1) * p <= 2 * n < (2 * t + 1) * p
  {
    Quotient(2 * n + p, 2 * p, t);
    assert 2 * p * t == 2 * t * p;
    assert (2 * t - 1) * p == 2 * t * p - p && (2 * t + 1) * p == 2 * t * p + p;
    assert 2 * p * (t + 1) == 2 * t * p + 2 * p;
  }

  lemma {:induction false} PowerSum(a: nat, b: nat)
    ensures Power10(a + b) == Power10(a) * Power10(b)
  {
    if a > 0 {
      PowerSum(a - 1, b);
      Tenfold(Power10(a - 1), Power10(b));
    }
  }

  lemma Tenfold(x: nat, y: nat)
    ensures 10 * x * y == 10 * (x * y)
  {
  }

  lemma ThreePlaces(f: nat)
    requires f <= 3
    ensures Power10(f) * Power10(3 - f) == 1000
  {
    assert Power10(0) == 1 && Power10(1) == 10 && Power10(2) == 100 && Power10(3) == 1000;
  }

  lemma Thousandfold(x: int, p: nat, q: nat, m: nat)
    requires q == 1000 * p
    ensures x * q == 1000 * (x * p)
    ensures x * p <= m <==> x * q <= 1000 * m
  {
    assert x * q == x * (1000 * p) == 1000 * (x * p);
  }

  /** Between two odd multiples of `p` stands one even one. */
  lemma Whole(n: nat, t: nat, p: nat, r: nat)
    requires p * r == 1000 && p > 0
    ensures t == n * r <==> (2 * t - 1) * p <= 2000 * n < (2 * t + 1) * p
  {
    var m := n * r;
    assert 2000 * n == 2 * m * p by { assert n * (p * r) == n * r * p; }
    Between(m, t, p);
  }

  lemma Between(m: nat, t: nat, p: nat)
    requires p > 0
    ensures t == m <==> (2 * t - 1) * p <= 2 * m * p < (2 * t + 1) * p
  {
    assert (2 * t - 1) * p == 2 * t * p - p && (2 * t + 1) * p == 2 * t * p + p;
    if t < m { Grow(p, 2 * t + 1, 2 * m); }
    if m < t { Grow(p, 2 * m + 1, 2 * t); }
  }

  lemma Quotient(a: nat, b: nat, q: nat)
    requires b > 0
    ensures q == a / b <==> b * q <= a < b * (q + 1)
  {
    assert a == b * (a / b) + a % b;
    var d := a / b;
    if b * q <= a < b * (q + 1) {
      if q < d { Grow(b, q + 1, d); }
      if d < q { Grow(b, d + 1, q); }
    }
  }

  lemma Grow(b: nat, x: nat, y: nat)
    requires x <= y
    ensures b * x <= b * y
  {
    assert b * y == b * x + b * (y - x);
  }

  // --- Placing the digits ------------------------------------------------------------------------

  function Zeros(n: nat): Digits { seq(n, _ => 0) }

  function Over(a: int, b: int): nat { if a > b then a - b else 0 }

  /** The digits around the point: `point` of them before it. */
  method Place(digits: Digits, point: int) returns (integer: Digits, fraction: Digits)
    requires digits != [] && AreDigits(digits)
    ensures AreDigits(integer) && AreDigits(fraction) && integer != []
    ensures |fraction| == Over(|digits|, point)
    ensures Number(integer + fraction) == Number(digits) * Power10(Over(point, |digits|))
  {
    assert Power10(0) == 1;
    if point > 0 {
      integer, fraction := PlaceAround(digits, point);
      NumberJoin(digits, Zeros(Over(point, |digits|)));
      ZerosNumber(Over(point, |digits|));
    } else {
      integer, fraction := [0], Zeros(-point) + digits;
      assert integer + fraction == Zeros(1 - point) + digits;
      NumberJoin(Zeros(1 - point), digits);
      ZerosNumber(1 - point);
    }
  }

  /** The loop for a point among or behind the digits. */
  method PlaceAround(digits: Digits, point: nat) returns (integer: Digits, fraction: Digits)
    requires point > 0 && AreDigits(digits)
    ensures AreDigits(integer) && AreDigits(fraction) && |integer| == point
    ensures integer + fraction == digits + Zeros(Over(point, |digits|))
  {
    ghost var all := digits + Zeros(Over(point, |digits|));
    var end := if point > |digits| then point else |digits|;
    integer, fraction := [], [];
    for i := 0 to end
      invariant |integer| == if i < point then i else point
      invariant |fraction| == i - |integer| && integer + fraction == all[..i]
    {
      var digit := if i < |digits| then digits[i] else 0;
      assert all[..i + 1] == all[..i] + [digit];
      if i < point {
        assert fraction == [] && integer + fraction == integer;
        integer := integer + [digit];
      } else {
        assert integer + fraction + [digit] == integer + (fraction + [digit]);
        fraction := fraction + [digit];
      }
    }
    assert all[..end] == all && AreDigits(integer + fraction);
    assert integer == (integer + fraction)[..point] && fraction == (integer + fraction)[point..];
  }

  // --- Rounding ----------------------------------------------------------------------------------

  function Bit(b: bool): nat { if b then 1 else 0 }

  lemma NumberCons(d: nat, ds: Digits)
    ensures Number([d] + ds) == d * Power10(|ds|) + Number(ds)
  {
    NumberJoin([d], ds);
    assert Number([d]) == d;
  }

  /** What is still to be added `k` digits up. */
  function Carried(carry: bool, k: nat): nat { if carry then Power10(k) else 0 }

  /** The carry goes up through the digits as long as they are nines. */
  method Carry(ds: Digits, into: bool) returns (out: Digits, carry: bool)
    requires AreDigits(ds)
    ensures AreDigits(out) && |out| == |ds|
    ensures Number(out) + Carried(carry, |ds|) == Number(ds) + Bit(into)
  {
    out, carry := ds, into;
    var k := |ds|;
    assert Power10(0) == 1 && ds[k..] == [];
    while carry && k > 0
      invariant 0 <= k <= |ds| && |out| == |ds| && AreDigits(out) && out[..k] == ds[..k]
      invariant Number(out[k..]) + Carried(carry, |ds| - k) == Number(ds[k..]) + Bit(into)
    {
      k := k - 1;
      assert out[k] == out[..k + 1][k] == ds[k];
      CarryOne(ds, out, k);
      assert out[..k] == out[..k + 1][..k] == ds[..k];
      if out[k] == 9 {
        out := out[k := 0];
      } else {
        out := out[k := out[k] + 1];
        carry := false;
      }
    }
    CarryEnds(ds, out, k, Carried(carry, |ds| - k), Bit(into));
    if carry { assert |ds| - k == |ds|; }
  }

  lemma CarryEnds(ds: Digits, out: Digits, k: nat, carried: nat, more: nat)
    requires k <= |ds| == |out| && out[..k] == ds[..k] && Number(out[k..]) + carried == Number(ds[k..]) + more
    ensures Number(out) + carried == Number(ds) + more
  {
    assert out == out[..k] + out[k..] && ds == ds[..k] + ds[k..];
    NumberJoin(out[..k], out[k..]);
    NumberJoin(ds[..k], ds[k..]);
  }

  lemma FromDigit(ds: Digits, k: nat)
    requires k < |ds|
    ensures Number(ds[k..]) == ds[k] * Power10(|ds| - k - 1) + Number(ds[k + 1..])
  {
    assert ds[k..] == [ds[k]] + ds[k + 1..];
    NumberCons(ds[k], ds[k + 1..]);
  }

  /** A nine that takes the carry passes it on, another digit keeps it. */
  lemma CarryOne(ds: Digits, out: Digits, k: nat)
    requires k < |ds| == |out| && out[k] == ds[k]
    ensures ds[k] == 9 ==>
      Number(out[k := 0][k..]) + Power10(|ds| - k) ==
      Number(ds[k..]) - Number(ds[k + 1..]) + Number(out[k + 1..]) + Power10(|ds| - k - 1)
    ensures Number(out[k := out[k] + 1][k..]) ==
      Number(ds[k..]) - Number(ds[k + 1..]) + Number(out[k + 1..]) + Power10(|ds| - k - 1)
  {
    var zero, more := out[k := 0], out[k := out[k] + 1];
    assert zero[k + 1..] == out[k + 1..] && more[k + 1..] == out[k + 1..];
    FromDigit(ds, k);
    FromDigit(zero, k);
    FromDigit(more, k);
    OneMore(ds[k], Power10(|ds| - k - 1));
  }

  lemma OneMore(d: nat, p: nat)
    ensures (d + 1) * p == d * p + p && 0 * p == 0
  {
  }

  /** The fraction with three digits: cut, or filled up. */
  function Resized(fraction: Digits): Digits {
    if |fraction| >= 3 then fraction[..3] else fraction + Zeros(3 - |fraction|)
  }

  /** Looking at the fourth digit is rounding to the nearest thousandth, halves up. */
  lemma FourthDigitDecides(integer: Digits, fraction: Digits)
    requires AreDigits(integer) && AreDigits(fraction)
    ensures Thousandths(Number(integer + fraction), |fraction|) ==
      Number(integer + Resized(fraction)) + Bit(|fraction| > 3 && fraction[3] >= 5)
  {
    if |fraction| <= 3 {
      ZerosNumber(3 - |fraction|);
      NumberJoin(integer + fraction, Zeros(3 - |fraction|));
      assert integer + Resized(fraction) == integer + fraction + Zeros(3 - |fraction|);
    } else {
      assert integer + fraction == (integer + fraction[..3]) + fraction[3..];
      RestDecides(integer + fraction[..3], fraction[3..]);
    }
  }

  lemma RestDecides(kept: Digits, rest: Digits)
    requires AreDigits(rest) && rest != []
    ensures Thousandths(Number(kept + rest), 3 + |rest|) == Number(kept) + Bit(rest[0] >= 5)
  {
    NumberJoin(kept, rest);
    HalfDecides(rest);
    RoundedQuotient(Number(kept), Number(rest), Power10(|rest|), rest[0] >= 5);
  }

  lemma HalfDecides(rest: Digits)
    requires AreDigits(rest) && rest != []
    ensures Number(rest) < Power10(|rest|)
    ensures rest[0] >= 5 <==> 2 * Number(rest) >= Power10(|rest|)
  {
    NumberBelow(rest);
    NumberBelow(rest[1..]);
    assert rest == [rest[0]] + rest[1..];
    NumberCons(rest[0], rest[1..]);
    FirstDecides(rest[0], Power10(|rest| - 1), Number(rest[1..]));
  }

  lemma FirstDecides(d: nat, p: nat, r: nat)
    requires r < p
    ensures d >= 5 <==> 2 * (d * p + r) >= 10 * p
  {
    if d >= 5 { Grow(p, 5, d); } else { Grow(p, d, 4); }
  }

  lemma RoundedQuotient(q: nat, r: nat, p: nat, up: bool)
    requires r < p && (up <==> 2 * r >= p)
    ensures HalfUp(q * p + r, p) == q + Bit(up)
  {
    var t := q + Bit(up);
    assert 2 * p * t == 2 * (q * p) + 2 * p * Bit(up);
    assert 2 * p * (t + 1) == 2 * p * t + 2 * p;
    Quotient(2 * (q * p + r) + p, 2 * p, t);
  }

  /** A carry out of the integer part becomes its first digit. */
  method CarryInteger(integer: Digits, into: bool) returns (i: Digits)
    requires AreDigits(integer)
    ensures AreDigits(i) && |i| >= |integer| && Number(i) == Number(integer) + Bit(into)
  {
    var carry;
    i, carry := Carry(integer, into);
    if carry {
      NumberCons(1, i);
      i := [1] + i;
    }
  }

  /** The rounding of `dotnet_number`. */
  method Round(integer: Digits, fraction: Digits) returns (i: Digits, f: Digits)
    requires AreDigits(integer) && AreDigits(fraction)
    ensures AreDigits(i) && AreDigits(f) && |f| == 3 && |i| >= |integer|
    ensures Number(i + f) == Thousandths(Number(integer + fraction), |fraction|)
  {
    FourthDigitDecides(integer, fraction);
    var up := |fraction| > 3 && fraction[3] >= 5;
    var carry;
    f, carry := Carry(Resized(fraction), up);
    i := CarryInteger(integer, carry);
    RoundedJoin(integer, Resized(fraction), i, f, Bit(up), carry);
  }

  lemma RoundedJoin(integer: Digits, fraction: Digits, i: Digits, f: Digits, more: nat, carry: bool)
    requires |f| == |fraction| && Number(f) + Carried(carry, |f|) == Number(fraction) + more
    requires Number(i) == Number(integer) + Bit(carry)
    ensures Number(i + f) == Number(integer + fraction) + more
  {
    NumberJoin(integer, fraction);
    NumberJoin(i, f);
    CarriesAdd(Number(integer), Number(fraction), Number(i), Number(f), Power10(|f|), more, carry);
  }

  lemma CarriesAdd(a: nat, b: nat, i: nat, f: nat, p: nat, more: nat, carry: bool)
    requires f + (if carry then p else 0) == b + more && i == a + Bit(carry)
    ensures i * p + f == a * p + b + more
  {
    if carry { assert (a + 1) * p == a * p + p; }
  }

  // --- Writing -----------------------------------------------------------------------------------

  function Chars(ds: Digits): string
    requires AreDigits(ds)
  {
    seq(|ds|, i requires 0 <= i < |ds| => DigitChar(ds[i]))
  }

  /** The fraction of `t` thousandths, without needless zeros at its end. */
  function FractionText(t: nat): string
    requires t < 1000
  {
    var a, b, c := t / 100, t / 10 % 10, t % 10;
    if b == 0 && c == 0 then [DigitChar(a)]
    else if c == 0 then [DigitChar(a), DigitChar(b)]
    else [DigitChar(a), DigitChar(b), DigitChar(c)]
  }

  lemma Hundreds(t: nat)
    requires t < 1000
    ensures t == 100 * (t / 100) + 10 * (t / 10 % 10) + t % 10 && t / 100 < 10
  {
  }

  /** `t` thousandths, in decimals. */
  function Shown(negative: bool, t: nat): string {
    (if negative && t > 0 then "-" else "") + Unsigned(t)
  }

  function Unsigned(t: nat): string { Decimal(t / 1000) + "." + FractionText(t % 1000) }

  /** Digits without a zero in front are the decimal numeral of their number. */
  lemma {:induction false} CharsAreDecimal(ds: Digits)
    requires AreDigits(ds) && ds != [] && (|ds| > 1 ==> ds[0] != 0)
    ensures Chars(ds) == Decimal(Number(ds))
  {
    var n := |ds| - 1;
    assert ds == ds[..n] + [ds[n]];
    NumberAppend(ds[..n], ds[n]);
    if n > 0 {
      CharsAreDecimal(ds[..n]);
      LeadingDigit(ds[..n]);
      assert Chars(ds) == Chars(ds[..n]) + [DigitChar(ds[n])];
      TenFold(Number(ds[..n]), ds[n]);
    } else {
      assert Number(ds[..0]) == 0;
    }
  }

  lemma {:induction false} LeadingDigit(ds: Digits)
    requires ds != [] && ds[0] != 0
    ensures Number(ds) > 0
  {
    if |ds| > 1 { LeadingDigit(ds[..|ds| - 1]); } else { assert Number(ds[..0]) == 0; }
  }

  lemma TenFold(a: nat, d: nat)
    requires d < 10
    ensures (a * 10 + d) / 10 == a && (a * 10 + d) % 10 == d
  {
  }

  /** Drops the zeros at the end of the fraction, but not its first digit. */
  method TrimFraction(fraction: Digits) returns (trimmed: Digits)
    requires |fraction| == 3 && AreDigits(fraction)
    ensures AreDigits(trimmed) && Number(fraction) < 1000 && Chars(trimmed) == FractionText(Number(fraction))
  {
    trimmed := fraction;
    var a, b, c := fraction[0], fraction[1], fraction[2];
    ThreeDigits(fraction);
    while |trimmed| > 1 && trimmed[|trimmed| - 1] == 0
      invariant 1 <= |trimmed| <= 3 && trimmed == fraction[..|trimmed|]
      invariant |trimmed| < 3 ==> c == 0
      invariant |trimmed| < 2 ==> b == 0
    {
      trimmed := trimmed[..|trimmed| - 1];
    }
  }

  lemma ThreeDigits(ds: Digits)
    requires |ds| == 3 && AreDigits(ds)
    ensures Number(ds) == 100 * ds[0] + 10 * ds[1] + ds[2] < 1000
    ensures Number(ds) / 100 == ds[0] && Number(ds) / 10 % 10 == ds[1] && Number(ds) % 10 == ds[2]
  {
    assert ds[..2][..1] == ds[..1] && ds[..1][..0] == [];
    assert Number(ds) == Number(ds[..2]) * 10 + ds[2];
    assert Number(ds[..2]) == Number(ds[..1]) * 10 + ds[1];
    assert Number(ds[..1]) == ds[0];
  }

  /** Drops the zeros in front of the integer part, but not its last digit. */
  method TrimInteger(integer: Digits) returns (trimmed: Digits)
    requires integer != [] && AreDigits(integer)
    ensures trimmed != [] && AreDigits(trimmed) && (|trimmed| > 1 ==> trimmed[0] != 0)
    ensures Number(trimmed) == Number(integer)
  {
    var k := 0;
    assert integer[0..] == integer;
    while k < |integer| - 1 && integer[k] == 0
      invariant 0 <= k < |integer| && Number(integer[k..]) == Number(integer)
    {
      assert integer[k..] == [integer[k]] + integer[k + 1..];
      NumberCons(integer[k], integer[k + 1..]);
      k := k + 1;
    }
    trimmed := integer[k..];
  }

  // --- What is written is the number ---------------------------------------------------------------

  lemma DecimalStarts(n: nat)
    ensures Decimal(n) != [] && AllDigits(Decimal(n)) && (|Decimal(n)| > 1 ==> Decimal(n)[0] != '0')
  {
    DecimalValue(n);
    if n >= 10 {
      DecimalStarts(n / 10);
      DecimalValue(n / 10);
      assert Decimal(n)[0] == Decimal(n / 10)[0];
    }
  }

  /** A sign only before what is not zero, no zero in front but a lone one, one to three decimals,
      and no zero at their end but a lone one. */
  ghost predicate WellWritten(text: string, zero: bool) {
    exists sign, integer, fraction ::
      text == sign + (integer + "." + fraction) && SignOk(sign, zero) && IntegerOk(integer) && FractionOk(fraction)
  }

  predicate SignOk(sign: string, zero: bool) { sign == "" || (sign == "-" && !zero) }

  predicate IntegerOk(s: string) { AllDigits(s) && s != [] && (|s| > 1 ==> s[0] != '0') }

  predicate FractionOk(s: string) { AllDigits(s) && 1 <= |s| <= 3 && (|s| > 1 ==> s[|s| - 1] != '0') }

  lemma ShownShape(negative: bool, t: nat)
    ensures WellWritten(Shown(negative, t), t == 0)
  {
    var sign := if negative && t > 0 then "-" else "";
    DecimalStarts(t / 1000);
    FractionShape(t % 1000);
    assert Shown(negative, t) == sign + (Decimal(t / 1000) + "." + FractionText(t % 1000));
    assert SignOk(sign, t == 0) && IntegerOk(Decimal(t / 1000)) && FractionOk(FractionText(t % 1000));
  }

  lemma FractionShape(t: nat)
    requires t < 1000
    ensures FractionOk(FractionText(t))
  {
    Hundreds(t);
  }

  lemma OneDigit(a: nat)
    requires a < 10
    ensures Value([DigitChar(a)]) == a
  {
    assert [DigitChar(a)][..0] == [];
  }

  lemma TwoDigits(a: nat, b: nat)
    requires a < 10 && b < 10
    ensures Value([DigitChar(a), DigitChar(b)]) == 10 * a + b
  {
    OneDigit(a);
    assert [DigitChar(a), DigitChar(b)][..1] == [DigitChar(a)];
  }

  lemma FractionValue(t: nat)
    requires t < 1000
    ensures var f := FractionText(t);
      AllDigits(f) && 1 <= |f| <= 3 && Value(f) * Power10(3 - |f|) == t
  {
    Hundreds(t);
    var a, b, c := t / 100, t / 10 % 10, t % 10;
    OneDigit(a);
    TwoDigits(a, b);
    assert [DigitChar(a), DigitChar(b), DigitChar(c)][..2] == [DigitChar(a), DigitChar(b)];
    assert Power10(0) == 1 && Power10(1) == 10 && Power10(2) == 100;
  }

  /** The text is `t` thousandths in decimals, with a sign exactly if the number is negative and not
      zero. */
  ghost predicate Says(text: string, negative: bool, t: nat) {
    exists integer, fraction :: SaysIn(text, negative, t, integer, fraction)
  }

  ghost predicate SaysIn(text: string, negative: bool, t: nat, integer: string, fraction: string) {
    && text == (if negative && t > 0 then "-" else "") + (integer + "." + fraction)
    && IntegerOk(integer) && FractionOk(fraction)
    && t == Value(integer) * 1000 + Value(fraction) * Power10(3 - |fraction|)
  }

  lemma ShownSays(negative: bool, t: nat)
    ensures Says(Shown(negative, t), negative, t)
  {
    DecimalStarts(t / 1000);
    DecimalValue(t / 1000);
    FractionShape(t % 1000);
    FractionValue(t % 1000);
    assert SaysIn(Shown(negative, t), negative, t, Decimal(t / 1000), FractionText(t % 1000));
  }

  /** A floating-point number as its significant digits give it (the program takes 15): one digit,
      the point, the others, times a power of ten. */
  datatype Float = NaN | Infinite(positive: bool) | Finite(negative: bool, digits: Digits, exponent: int)

  ghost predicate ValidFloat(value: Float) {
    value.Finite? ==> value.digits != [] && AreDigits(value.digits)
  }

  /** The magnitude of a finite number, in thousandths rounded half up. */
  function Rounded(digits: Digits, exponent: int): nat {
    Thousandths(Number(digits) * Power10(Over(exponent + 1, |digits|)), Over(|digits|, exponent + 1))
  }

  /** `t` thousandths are within half a thousandth of the digits' number times that power of ten which
      puts the point behind the first digit and `exponent` more; of two, `t` is the larger. */
  predicate Nearest(t: nat, digits: Digits, exponent: int)
    requires AreDigits(digits)
  {
    var n, power := Number(digits), exponent + 1 - |digits|;
    if power >= 0 then 2 * t - 1 <= 2000 * (n * Power10(power)) < 2 * t + 1
    else (2 * t - 1) * Power10(-power) <= 2000 * n < (2 * t + 1) * Power10(-power)
  }

  /** Main theorem: exactly that number of thousandths is written. */
  lemma RoundedIs(digits: Digits, exponent: int, t: nat)
    requires AreDigits(digits)
    ensures t == Rounded(digits, exponent) <==> Nearest(t, digits, exponent)
  {
    var power := exponent + 1 - |digits|;
    assert Power10(0) == 1;
    if power >= 0 {
      ThousandthsIs(Number(digits) * Power10(power), 0, t);
    } else {
      ThousandthsIs(Number(digits) * Power10(0), -power, t);
    }
  }

  /** `dotnet_number`. Main theorem: the text is the number rounded half away from zero to three
      decimals, however many carries that takes. */
  method DotnetNumber(value: Float) returns (text: string)
    requires ValidFloat(value)
    ensures text == match value
      case NaN => "NaN"
      case Infinite(positive) => if positive then "Infinity" else "-Infinity"
      case Finite(negative, digits, exponent) => Shown(negative, Rounded(digits, exponent))
    ensures value.Finite? ==>
      exists t: nat :: Nearest(t, value.digits, value.exponent) && Says(text, value.negative, t)
  {
    if value.NaN? {
      return "NaN";
    }
    if value.Infinite? {
      return if value.positive then "Infinity" else "-Infinity";
    }
    text := Finitely(value.negative, value.digits, value.exponent);
    RoundedIs(value.digits, value.exponent, Rounded(value.digits, value.exponent));
    ShownSays(value.negative, Rounded(value.digits, value.exponent));
  }

  method Finitely(negative: bool, digits: Digits, exponent: int) returns (text: string)
    requires digits != [] && AreDigits(digits)
    ensures text == Shown(negative, Rounded(digits, exponent))
  {
    var integer, fraction := Place(digits, exponent + 1);
    integer, fraction := Round(integer, fraction);
    SplitThousands(integer, fraction);
    text := WriteOut(negative, integer, fraction);
  }

  lemma SplitThousands(integer: Digits, fraction: Digits)
    requires AreDigits(fraction) && |fraction| == 3
    ensures Number(integer + fraction) / 1000 == Number(integer)
    ensures Number(integer + fraction) % 1000 == Number(fraction)
  {
    NumberJoin(integer, fraction);
    assert Power10(3) == 1000;
    ThreeDigits(fraction);
    Thousand(Number(integer), Number(fraction));
  }

  /** The end of `dotnet_number`: the rounded digits without needless zeros, and the sign. */
  method WriteOut(negative: bool, whole: Digits, part: Digits) returns (text: string)
    requires AreDigits(whole) && AreDigits(part) && whole != [] && |part| == 3
    requires Number(whole + part) / 1000 == Number(whole) && Number(whole + part) % 1000 == Number(part)
    ensures text == Shown(negative, Number(whole + part))
  {
    var fraction := TrimFraction(part);
    var integer := TrimInteger(whole);
    CharsAreDecimal(integer);
    var isZero := AllZero(integer) && AllZero(fraction);
    ZeroDigits(integer);
    ZeroFraction(fraction, Number(part));
    text := Chars(integer) + "." + Chars(fraction);
    if negative && !isZero {
      text := "-" + text;
    } else {
      assert "" + text == text;
    }
  }

  predicate AllZero(ds: Digits) { forall i :: 0 <= i < |ds| ==> ds[i] == 0 }

  lemma Thousand(whole: nat, part: nat)
    requires part < 1000
    ensures (whole * 1000 + part) / 1000 == whole && (whole * 1000 + part) % 1000 == part
  {
  }

  lemma {:induction false} ZeroDigits(ds: Digits)
    ensures AllZero(ds) <==> Number(ds) == 0
  {
    if ds != [] {
      ZeroDigits(ds[..|ds| - 1]);
      assert AllZero(ds) <==> AllZero(ds[..|ds| - 1]) && ds[|ds| - 1] == 0;
    }
  }

  lemma ZeroFraction(ds: Digits, t: nat)
    requires AreDigits(ds) && t < 1000 && Chars(ds) == FractionText(t)
    ensures AllZero(ds) <==> t == 0
  {
    forall i | 0 <= i < |ds| ensures DigitChar(ds[i]) == FractionText(t)[i] { assert Chars(ds)[i] == DigitChar(ds[i]); }
    assert |ds| == |Chars(ds)|;
    if t == 0 { assert ds[0] == 0; }
    if t != 0 {
      Hundreds(t);
      assert t / 100 != 0 || t / 10 % 10 != 0 || t % 10 != 0;
      assert ds[0] == t / 100;
      if t / 10 % 10 != 0 { assert ds[1] == t / 10 % 10; }
      if t % 10 != 0 { assert ds[2] == t % 10; }
    }
  }

  // --- What is written can be told apart -----------------------------------------------------------

  lemma DigitTold(a: nat, b: nat)
    requires a < 10 && b < 10 && DigitChar(a) == DigitChar(b)
    ensures a == b
  {
  }

  lemma FractionTold(t: nat, u: nat)
    requires t < 1000 && u < 1000 && FractionText(t) == FractionText(u)
    ensures t == u
  {
    var f, g := FractionText(t), FractionText(u);
    Hundreds(t);
    Hundreds(u);
    assert |f| == |g| && f[0] == g[0];
    DigitTold(t / 100, u / 100);
    if |f| > 1 {
      assert f[1] == g[1];
      DigitTold(t / 10 % 10, u / 10 % 10);
    }
    if |f| > 2 {
      assert f[2] == g[2];
      DigitTold(t % 10, u % 10);
    }
  }

  lemma PointTold(a: string, b: string, c: string, d: string)
    requires a + "." + b == c + "." + d && AllDigits(a) && AllDigits(c)
    ensures a == c && b == d
  {
    var s, t := a + "." + b, c + "." + d;
    assert s[|a|] == '.' && t[|c|] == '.';
    forall i | 0 <= i < |a| ensures s[i] != '.' { assert s[i] == a[i]; }
    forall i | 0 <= i < |c| ensures t[i] != '.' { assert t[i] == c[i]; }
    assert |a| == |c|;
    assert a == s[..|a|] && c == t[..|c|];
    assert b == s[|a| + 1..] && d == t[|c| + 1..];
  }

  lemma SignTold(minus: bool, s: string, minus': bool, t: string)
    requires s != [] && t != [] && IsDigit(s[0]) && IsDigit(t[0])
    requires (if minus then "-" else "") + s == (if minus' then "-" else "") + t
    ensures minus == minus' && s == t
  {
    var x, y := (if minus then "-" else "") + s, (if minus' then "-" else "") + t;
    assert x[0] == (if minus then '-' else s[0]) && y[0] == (if minus' then '-' else t[0]);
    assert s == x[if minus then 1 else 0..] && t == y[if minus' then 1 else 0..];
  }

  /** Main theorem: two numbers are written alike exactly if they round to the same thousandths,
      with the same sign unless that is zero. */
  lemma ShownTold(negative: bool, t: nat, negative': bool, u: nat)
    ensures Shown(negative, t) == Shown(negative', u) <==> t == u && (t == 0 || negative == negative')
  {
    if Shown(negative, t) == Shown(negative', u) {
      DecimalStarts(t / 1000);
      DecimalStarts(u / 1000);
      assert Unsigned(t)[0] == Decimal(t / 1000)[0] && Unsigned(u)[0] == Decimal(u / 1000)[0];
      SignTold(negative && t > 0, Unsigned(t), negative' && u > 0, Unsigned(u));
      PointTold(Decimal(t / 1000), FractionText(t % 1000), Decimal(u / 1000), FractionText(u % 1000));
      DecimalInjective(t / 1000, u / 1000);
      FractionTold(t % 1000, u % 1000);
    }
  }
}
