/** Lengths in UTF-16 code units: how keychain entries and the parts of console lines are measured. */
module Utf16 {
  function UnitsOf(c: char): (n: nat)
    ensures 1 <= n <= 2
  {
    if c as int >= 0x1_0000 then 2 else 1
  }

  function Units(text: string): nat {
    if text == [] then 0 else UnitsOf(text[0]) + Units(text[1..])
  }

  lemma {:induction false} UnitsJoin(a: string, b: string)
    ensures Units(a + b) == Units(a) + Units(b)
  {
    if a == [] {
      assert a + b == b;
    } else {
      UnitsJoin(a[1..], b);
      assert (a + b)[1..] == a[1..] + b;
    }
  }

  lemma UnitsNext(text: string, n: nat)
    requires n < |text|
    ensures Units(text[..n + 1]) == Units(text[..n]) + UnitsOf(text[n])
  {
    UnitsJoin(text[..n], [text[n]]);
    assert text[..n + 1] == text[..n] + [text[n]];
    assert Units([text[n]]) == UnitsOf(text[n]);
  }
}
