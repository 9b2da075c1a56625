/** Decimal numbers as the standard library prints and reads them. */
module Decimal {
  import opened Bits

  predicate IsDigit(c: char) {
    '0' <= c <= '9'
  }

  predicate AllDigits(s: string) {
    forall i | 0 <= i < |s| :: IsDigit(s[i])
  }

  function Digit(d: nat): (c: char)
    requires d < 10
    ensures IsDigit(c) && DigitValue(c) == d
  {
    '0' + d as char
  }

  const DIGITS := "0123456789"

  lemma DigitIs(d: nat)
    requires d < 10
    ensures Digit(d) == DIGITS[d]
  {}

  function DigitValue(c: char): (d: nat)
    requires IsDigit(c)
    ensures d < 10
  {
    (c - '0') as nat
  }

  function Print(n: nat): (s: string)
    ensures s != []
  {
    if n < 10 then [Digit(n)] else Print(n / 10) + [Digit(n % 10)]
  }

  function Value(s: string): nat
    requires AllDigits(s)
  {
    if s == [] then 0 else 10 * Value(s[..|s| - 1]) + DigitValue(s[|s| - 1])
  }

  lemma {:induction false} ValueOfPrint(n: nat)
    ensures AllDigits(Print(n)) && Value(Print(n)) == n
  {
    if n >= 10 {
      ValueOfPrint(n / 10);
      assert Print(n)[..|Print(n)| - 1] == Print(n / 10);
    }
  }

  lemma PrintInjective(m: nat, n: nat)
    requires Print(m) == Print(n)
    ensures m == n
  {
    ValueOfPrint(m);
    ValueOfPrint(n);
  }

  /** Leading zeros do not count. */
  lemma {:induction false} LeadingZero(s: string)
    requires AllDigits(s)
    ensures AllDigits("0" + s) && Value("0" + s) == Value(s)
  {
    if s != [] {
      var n := |s| - 1;
      LeadingZero(s[..n]);
      assert ("0" + s)[..n + 1] == "0" + s[..n];
    }
  }

  function Pow10(n: nat): (p: nat)
    ensures p > 0
  {
    if n == 0 then 1 else 10 * Pow10(n - 1)
  }

  /** A number without its last n digits. */
  function Cut(b: nat, n: nat): nat {
    if n == 0 then b else Cut(b / 10, n - 1)
  }

  lemma {:induction false} CutDivides(b: nat, n: nat)
    ensures Cut(b, n) == b / Pow10(n)
  {
    if n == 0 {
      assert b / 1 == b;
    } else {
      CutDivides(b / 10, n - 1);
      DivTwice(b, 10, Pow10(n - 1));
    }
  }

  /** The digit at position k from the right is the one at the k-th power of ten. */
  lemma {:induction false} PrintAt(b: nat, k: nat)
    requires k < |Print(b)|
    ensures Print(b)[|Print(b)| - 1 - k] == DIGITS[b / Pow10(k) % 10]
  {
    CutDivides(b, k);
    hide Pow10;
    DigitAt(b, k);
    DigitIs(Cut(b, k) % 10);
  }

  lemma {:induction false} DigitAt(b: nat, k: nat)
    requires k < |Print(b)|
    ensures Print(b)[|Print(b)| - 1 - k] == Digit(Cut(b, k) % 10)
  {
    if k > 0 {
      DigitAt(b / 10, k - 1);
    }
  }

  /** Only zero starts with a zero. */
  lemma {:induction false} NoLeadingZero(b: nat)
    ensures Print(b)[0] == '0' <==> b == 0
  {
    if b >= 10 {
      NoLeadingZero(b / 10);
    }
  }
}
