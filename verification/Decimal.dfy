/** Decimal numerals as the host list library reads them (`int(s)`) and writes them (`%0*d`). */
module Decimal {

  predicate IsDigit(c: char) {
    '0' <= c <= '9'
  }

  predicate AllDigits(s: string) {
    forall i :: 0 <= i < |s| ==> IsDigit(s[i])
  }

  /** A non-empty run of digits: what `[0-9]+` matches. */
  predicate IsNumeral(s: string) {
    s != "" && AllDigits(s)
  }

  function DigitChar(d: nat): char
    requires d < 10
  {
    ('0' as int + d) as char
  }

  function DigitValue(c: char): nat
    requires IsDigit(c)
  {
    c as int - '0' as int
  }

  /** `int(s)` of a digit string. */
  function Value(s: string): nat
    requires AllDigits(s)
  {
    if s == "" then 0 else 10 * Value(s[..|s| - 1]) + DigitValue(s[|s| - 1])
  }

  /** `%d`: the shortest numeral of `n`. */
  function Shortest(n: nat): string {
    if n < 10 then [DigitChar(n)] else Shortest(n / 10) + [DigitChar(n % 10)]
  }

  /** Numerals are positional: what stands behind counts its own digits' worth less. */
  lemma {:induction false} ValueOfBoth(a: string, b: string)
    requires AllDigits(a) && AllDigits(b)
    ensures AllDigits(a + b) && Value(a + b) == Value(a) * TenTo(|b|) + Value(b)
    decreases |b|
  {
    if b == "" {
      assert a + b == a;
    } else {
      var k := |b| - 1;
      ValueOfBoth(a, b[..k]);
      assert (a + b)[..|a| + k] == a + b[..k] && (a + b)[|a| + k] == b[k];
      TenTimes(Value(a), TenTo(k));
    }
  }

  lemma {:induction false} TenTimes(a: nat, b: nat)
    ensures 10 * (a * b) == a * (10 * b)
  {
  }

  function Zeros(k: nat): string {
    seq(k, _ => '0')
  }

  /** `%0*d`: the shortest numeral of `n`, padded with zeros up to `width`. */
  function Padded(width: nat, n: nat): string {
    var s := Shortest(n);
    if |s| < width then Zeros(width - |s|) + s else s
  }

  lemma {:induction false} ShortestIsNumeral(n: nat)
    ensures IsNumeral(Shortest(n)) && Value(Shortest(n)) == n
  {
    if n >= 10 {
      ShortestIsNumeral(n / 10);
      assert Shortest(n)[..|Shortest(n)| - 1] == Shortest(n / 10);
    }
  }

  lemma {:induction false} LeadingZeros(k: nat, s: string)
    requires AllDigits(s)
    ensures AllDigits(Zeros(k) + s) && Value(Zeros(k) + s) == Value(s)
    decreases |s|, k
  {
    var t := Zeros(k) + s;
    if s != "" {
      LeadingZeros(k, s[..|s| - 1]);
      assert t[..|t| - 1] == Zeros(k) + s[..|s| - 1];
    } else if k > 0 {
      LeadingZeros(k - 1, s);
      assert t[..|t| - 1] == Zeros(k - 1) + s;
    }
  }

  /** Printing then reading gives the number back, at least `width` digits long. */
  lemma {:induction false} ReadPadded(width: nat, n: nat)
    ensures IsNumeral(Padded(width, n)) && Value(Padded(width, n)) == n
    ensures |Padded(width, n)| >= width
  {
    ShortestIsNumeral(n);
    if |Shortest(n)| < width {
      LeadingZeros(width - |Shortest(n)|, Shortest(n));
    }
  }

  /** Reading then printing at the numeral's own width gives the numeral back, leading zeros included. */
  lemma {:induction false} PrintValue(s: string)
    requires IsNumeral(s)
    ensures Padded(|s|, Value(s)) == s
  {
    var t := s[..|s| - 1];
    var d := DigitValue(s[|s| - 1]);
    assert s == t + [DigitChar(d)];
    if t == "" {
      assert Value(t) == 0;
      assert Value(s) == d;
      assert Shortest(d) == [DigitChar(d)];
    } else {
      PrintValue(t);
    }
  }

  function TenTo(k: nat): nat {
    if k == 0 then 1 else 10 * TenTo(k - 1)
  }

  /** Numbers below a power of ten need no more digits than it has zeros. */
  lemma {:induction false} FewDigits(n: nat, k: nat)
    requires k > 0 && n < TenTo(k)
    ensures |Shortest(n)| <= k && |Padded(k, n)| == k
  {
    if n >= 10 {
      FewDigits(n / 10, k - 1);
    }
  }
}
