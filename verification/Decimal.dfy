/** Decimal numerals, as `str(n)` and `f"{n:010d}"` print them. */
module Decimal {
  predicate IsDigit(c: char) { '0' <= c <= '9' }

  predicate AllDigits(s: string) { forall i | 0 <= i < |s| :: IsDigit(s[i]) }

  function Digit(d: nat): char
    requires d < 10
  {
    ('0' as int + d) as char
  }

  function Print(n: nat): string {
    if n < 10 then [Digit(n)] else Print(n / 10) + [Digit(n % 10)]
  }

  function Zeros(n: nat): string {
    if n == 0 then "" else "0" + Zeros(n - 1)
  }

  function PadTo(width: nat, n: nat): string {
    var digits := Print(n);
    if |digits| < width then Zeros(width - |digits|) + digits else digits
  }

  /** The number a run of digits spells. */
  function Parse(s: string): nat
    requires AllDigits(s)
  {
    if s == "" then 0
    else
      assert IsDigit(s[|s| - 1]);
      Parse(s[..|s| - 1]) * 10 + (s[|s| - 1] as int - '0' as int)
  }

  lemma {:induction false} ParsePrint(n: nat)
    ensures AllDigits(Print(n)) && Print(n) != "" && Parse(Print(n)) == n
  {
    if n >= 10 {
      ParsePrint(n / 10);
      assert Print(n)[..|Print(n)| - 1] == Print(n / 10);
    } else {
      assert Print(n)[..0] == "";
    }
  }

  lemma {:induction false} ParseZeros(k: nat, s: string)
    requires AllDigits(s)
    ensures |Zeros(k)| == k && AllDigits(Zeros(k) + s) && Parse(Zeros(k) + s) == Parse(s)
    decreases k, |s|
  {
    if s == "" {
      if k > 0 {
        ParseZeros(k - 1, "");
        ZerosEnd(k);
        assert Zeros(k) + "" == Zeros(k - 1) + "0";
        assert (Zeros(k) + "")[..k - 1] == Zeros(k - 1) + "";
      }
    } else {
      ParseZeros(k, s[..|s| - 1]);
      assert (Zeros(k) + s)[..k + |s| - 1] == Zeros(k) + s[..|s| - 1];
    }
  }

  lemma {:induction false} ZerosEnd(k: nat)
    requires k > 0
    ensures Zeros(k) == Zeros(k - 1) + "0" && |Zeros(k)| == k
  {
    if k > 1 { ZerosEnd(k - 1); }
  }

  lemma ParsePad(width: nat, n: nat)
    ensures AllDigits(PadTo(width, n)) && Parse(PadTo(width, n)) == n
  {
    ParsePrint(n);
    if |Print(n)| < width { ParseZeros(width - |Print(n)|, Print(n)); }
  }

  function Pow10(k: nat): nat { if k == 0 then 1 else 10 * Pow10(k - 1) }

  lemma {:induction false} PrintWidth(n: nat, k: nat)
    requires k > 0
    ensures |Print(n)| <= k <==> n < Pow10(k)
  {
    if k == 1 {
      assert Pow10(1) == 10;
      if n >= 10 { ParsePrint(n / 10); }
    } else if n >= 10 {
      PrintWidth(n / 10, k - 1);
    } else {
      PrintWidth(n, k - 1);
    }
  }

  /** A padded field keeps its width exactly when the number fits it. */
  lemma PadWidth(width: nat, n: nat)
    requires width > 0
    ensures |PadTo(width, n)| == width <==> n < Pow10(width)
  {
    PrintWidth(n, width);
    ParsePrint(n);
    if |Print(n)| < width { ParseZeros(width - |Print(n)|, Print(n)); }
  }

  function LeadingDigits(s: string): (d: string)
    ensures AllDigits(d) && d <= s
  {
    if s != "" && IsDigit(s[0]) then [s[0]] + LeadingDigits(s[1..]) else ""
  }

  function TrailingDigits(s: string): (d: string)
    ensures AllDigits(d) && |d| <= |s| && s[|s| - |d|..] == d
  {
    if s != "" && IsDigit(s[|s| - 1]) then TrailingDigits(s[..|s| - 1]) + [s[|s| - 1]] else ""
  }

  lemma {:induction false} LeadingDigitsOf(d: string, rest: string)
    requires AllDigits(d) && rest != "" && !IsDigit(rest[0])
    ensures LeadingDigits(d + rest) == d
  {
    if d == "" {
      assert d + rest == rest;
    } else {
      LeadingDigitsOf(d[1..], rest);
      assert (d + rest)[1..] == d[1..] + rest;
    }
  }

  lemma {:induction false} TrailingDigitsOf(before: string, d: string)
    requires AllDigits(d) && before != "" && !IsDigit(before[|before| - 1])
    ensures TrailingDigits(before + d) == d
  {
    if d == "" {
      assert before + d == before;
    } else {
      TrailingDigitsOf(before, d[..|d| - 1]);
      assert (before + d)[..|before + d| - 1] == before + d[..|d| - 1];
    }
  }
}
