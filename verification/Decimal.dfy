/** Decimal printing, zero padding and `parseInt`. */
module Decimal {
  import opened Wrappers
  import opened Text

  predicate IsDigit(c: char) {
    '0' <= c <= '9'
  }

  function Digit(d: nat): (c: char)
    requires d < 10
    ensures IsDigit(c) && ValueOf(c) == d
  {
    '0' + d as char
  }

  function ValueOf(c: char): nat
    requires IsDigit(c)
  {
    (c - '0') as int
  }

  predicate Digits(s: string) {
    forall i :: 0 <= i < |s| ==> IsDigit(s[i])
  }

  /** `String(n)`. */
  function Print(n: nat): (s: string)
    ensures Digits(s) && |s| >= 1
  {
    if n < 10 then [Digit(n)] else Print(n / 10) + [Digit(n % 10)]
  }

  /** `String(n).padStart(width, '0')`. */
  function Padded(n: nat, width: nat): (s: string)
    ensures Digits(s) && |s| >= 1
  {
    Zeros(if |Print(n)| < width then width - |Print(n)| else 0) + Print(n)
  }

  function Zeros(k: nat): (s: string)
    ensures Digits(s) && |s| == k
  {
    seq(k, i => '0')
  }

  function Value(s: string): nat
    requires Digits(s)
  {
    if s == "" then 0 else Value(s[..|s| - 1]) * 10 + ValueOf(s[|s| - 1])
  }

  function LeadingDigits(s: string): (n: nat)
    ensures n <= |s| && Digits(s[..n])
  {
    if s == "" || !IsDigit(s[0]) then 0
    else
      var n := LeadingDigits(s[1..]);
      assert s[..n + 1] == [s[0]] + s[1..][..n];
      n + 1
  }

  /** `parseInt`, for strings without sign, white space or radix prefix; None is NaN. */
  function ParseInt(s: string): Option<nat> {
    if LeadingDigits(s) == 0 then None else Some(Value(s[..LeadingDigits(s)]))
  }

  lemma {:induction false} AllLeading(s: string)
    requires Digits(s)
    ensures LeadingDigits(s) == |s|
  {
    if s != "" { AllLeading(s[1..]); }
  }

  lemma {:induction false} ValuePrint(n: nat)
    ensures Value(Print(n)) == n
  {
    if n >= 10 {
      ValuePrint(n / 10);
      var s := Print(n);
      assert s[..|s| - 1] == Print(n / 10);
    }
  }

  lemma {:induction false} ValueZeros(k: nat, s: string)
    requires Digits(s)
    ensures Digits(Zeros(k) + s) && Value(Zeros(k) + s) == Value(s)
    decreases |s|, k
  {
    var z := Zeros(k) + s;
    if s != "" {
      ValueZeros(k, s[..|s| - 1]);
      assert z[..|z| - 1] == Zeros(k) + s[..|s| - 1];
    } else if k > 0 {
      ValueZeros(k - 1, "");
      assert z[..|z| - 1] == Zeros(k - 1) + "";
    }
  }

  /** Parsing undoes printing, with any padding. */
  lemma ParsePadded(n: nat, width: nat)
    ensures ParseInt(Padded(n, width)) == Some(n)
  {
    var s := Padded(n, width);
    AllLeading(s);
    assert s[..|s|] == s;
    ValuePrint(n);
    ValueZeros(if |Print(n)| < width then width - |Print(n)| else 0, Print(n));
  }

  lemma ParsePrint(n: nat)
    ensures ParseInt(Print(n)) == Some(n)
  {
    var s := Print(n);
    AllLeading(s);
    assert s[..|s|] == s;
    ValuePrint(n);
  }

  // ---------- The order of four-digit numbers ----------

  function FourDigits(n: nat): string
    requires n <= 9999
  {
    [Digit(n / 1000), Digit(n / 100 % 10), Digit(n / 10 % 10), Digit(n % 10)]
  }

  /** The last digit of a padded number can be peeled off. */
  lemma PaddedPeel(n: nat, width: nat)
    requires width >= 2
    ensures Padded(n, width) == Padded(n / 10, width - 1) + [Digit(n % 10)]
  {
    if n < 10 {
      assert Print(n / 10) == [Digit(0)];
      assert Zeros(width - 1) == Zeros(width - 2) + [Digit(0)];
    } else {
      assert Print(n) == Print(n / 10) + [Digit(n % 10)];
    }
  }

  lemma Quotients(n: nat)
    ensures n / 10 / 10 == n / 100 && n / 100 / 10 == n / 1000
    ensures n <= 9999 ==> n / 1000 < 10
    ensures n == 1000 * (n / 1000) + 100 * (n / 100 % 10) + 10 * (n / 10 % 10) + n % 10
  {
  }

  lemma PaddedIsFourDigits(n: nat)
    requires n <= 9999
    ensures Padded(n, 4) == FourDigits(n)
  {
    hide Padded, Digit;
    Quotients(n);
    PaddedPeel(n, 4);
    PaddedPeel(n / 10, 3);
    PaddedPeel(n / 100, 2);
    OneDigit(n / 1000);
  }

  lemma OneDigit(n: nat)
    requires n < 10
    ensures Padded(n, 1) == [Digit(n)]
  {
    assert Zeros(0) == "";
  }

  lemma LeqCons(a: char, s: string, b: char, t: string)
    ensures Leq([a] + s, [b] + t) <==> a < b || (a == b && Leq(s, t))
  {
    assert ([a] + s)[1..] == s && ([b] + t)[1..] == t;
  }

  lemma LeqFour(a3: nat, a2: nat, a1: nat, a0: nat, b3: nat, b2: nat, b1: nat, b0: nat)
    requires a3 < 10 && a2 < 10 && a1 < 10 && a0 < 10 && b3 < 10 && b2 < 10 && b1 < 10 && b0 < 10
    ensures Leq([Digit(a3), Digit(a2), Digit(a1), Digit(a0)], [Digit(b3), Digit(b2), Digit(b1), Digit(b0)])
            <==> 1000 * a3 + 100 * a2 + 10 * a1 + a0 <= 1000 * b3 + 100 * b2 + 10 * b1 + b0
  {
    var s1, t1 := [Digit(a0)], [Digit(b0)];
    var s2, t2 := [Digit(a1), Digit(a0)], [Digit(b1), Digit(b0)];
    var s3, t3 := [Digit(a2), Digit(a1), Digit(a0)], [Digit(b2), Digit(b1), Digit(b0)];
    assert s1 == [Digit(a0)] + "" && t1 == [Digit(b0)] + "";
    assert s2 == [Digit(a1)] + s1 && t2 == [Digit(b1)] + t1;
    assert s3 == [Digit(a2)] + s2 && t3 == [Digit(b2)] + t2;
    assert [Digit(a3), Digit(a2), Digit(a1), Digit(a0)] == [Digit(a3)] + s3;
    assert [Digit(b3), Digit(b2), Digit(b1), Digit(b0)] == [Digit(b3)] + t3;
    LeqCons(Digit(a0), "", Digit(b0), "");
    LeqCons(Digit(a1), s1, Digit(b1), t1);
    LeqCons(Digit(a2), s2, Digit(b2), t2);
    LeqCons(Digit(a3), s3, Digit(b3), t3);
  }

  /** Up to 9999, the order of the padded strings is the order of the numbers. */
  lemma PaddedOrder(a: nat, b: nat)
    requires a <= 9999 && b <= 9999
    ensures Leq(Padded(a, 4), Padded(b, 4)) <==> a <= b
  {
    hide Padded, Digit, Leq;
    PaddedIsFourDigits(a);
    PaddedIsFourDigits(b);
    Quotients(a);
    Quotients(b);
    LeqFour(a / 1000, a / 100 % 10, a / 10 % 10, a % 10, b / 1000, b / 100 % 10, b / 10 % 10, b % 10);
  }

  /** The first five-digit number sorts between the least and the greatest four-digit one. */
  lemma TenThousandSorts()
    ensures Padded(10000, 4) == "10000"
    ensures Leq("0001", "10000") && Leq("10000", "9999") && "10000" != "9999"
    ensures Padded(1, 4) == "0001" && Padded(9999, 4) == "9999"
  {
    PaddedIsFourDigits(1);
    PaddedIsFourDigits(9999);
    assert Print(100) == "100";
    assert Print(1000) == "1000";
    assert Print(10000) == "10000";
  }
}
