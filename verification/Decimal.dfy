/** Decimal digits: the reading and printing of natural numbers that the other modules share. */
module Decimal {

  predicate IsDigit(c: char) {
    '0' <= c <= '9'
  }

  predicate AllDigits(s: string) {
    forall i :: 0 <= i < |s| ==> IsDigit(s[i])
  }

  function DigitValue(c: char): (d: nat)
    requires IsDigit(c)
    ensures d < 10
  {
    c as int - '0' as int
  }

  function DigitChar(d: nat): (c: char)
    requires d < 10
    ensures IsDigit(c) && DigitValue(c) == d
  {
    ('0' as int + d) as char
  }

  /** The number a run of digits denotes; leading zeros are allowed, no digits denote zero. */
  function ToNat(s: string): nat
    requires AllDigits(s)
  {
    if s == "" then 0 else 10 * ToNat(s[..|s| - 1]) + DigitValue(s[|s| - 1])
  }

  /** Canonical decimal printing: no leading zero, except for zero itself. */
  function Print(n: nat): (s: string)
    ensures s != "" && AllDigits(s)
    ensures |s| > 1 ==> s[0] != '0'
  {
    if n < 10 then [DigitChar(n)] else Print(n / 10) + [DigitChar(n % 10)]
  }

  lemma {:induction false} BelowPowerOfTen(s: string)
    requires AllDigits(s)
    ensures ToNat(s) < Pow10(|s|)
  {
    if s != "" {
      BelowPowerOfTen(s[..|s| - 1]);
    }
  }

  lemma {:induction false} LeadingZero(s: string)
    requires AllDigits(s)
    ensures AllDigits("0" + s) && ToNat("0" + s) == ToNat(s)
  {
    if s == "" {
      assert "0" + s == "0";
      assert ToNat("0"[..0]) == 0;
    } else {
      LeadingZero(s[..|s| - 1]);
      assert ("0" + s)[..|s|] == "0" + s[..|s| - 1];
    }
  }

  /** The first digit counts most: each digit counts ten times as much as the next one. */
  lemma {:induction false} FirstDigitCountsMost(s: string)
    requires s != "" && AllDigits(s)
    ensures AllDigits(s[1..])
    ensures ToNat(s) == DigitValue(s[0]) * Pow10(|s| - 1) + ToNat(s[1..])
  {
    hide ToNat, Pow10, DigitValue;
    if |s| == 1 {
      OnlyDigit(s);
    } else {
      var front, last := s[..|s| - 1], s[|s| - 1];
      FirstDigitCountsMost(front);
      assert s == front + [last] && s[1..] == front[1..] + [last];
      OneMoreDigit(front, last);
      OneMoreDigit(front[1..], last);
      TenTimes(DigitValue(s[0]), |s| - 2);
    }
  }

  lemma OnlyDigit(s: string)
    requires |s| == 1 && AllDigits(s)
    ensures ToNat(s) == DigitValue(s[0]) * Pow10(0) + ToNat(s[1..])
  {
    assert s[..0] == "" && s[1..] == "";
  }

  lemma OneMoreDigit(front: string, last: char)
    requires AllDigits(front) && IsDigit(last)
    ensures AllDigits(front + [last]) && ToNat(front + [last]) == 10 * ToNat(front) + DigitValue(last)
  {
    hide DigitValue;
    assert (front + [last])[..|front|] == front;
  }

  lemma TenTimes(d: nat, k: nat)
    ensures 10 * (d * Pow10(k)) == d * Pow10(k + 1)
  {
  }

  /** A digit stands for how far it is from zero. */
  lemma DigitsInOrder(c: char)
    requires IsDigit(c)
    ensures "0123456789"[DigitValue(c)] == c
  {
  }

  /** The digits a text starts with. */
  function DigitPrefix(s: string): (digits: string)
    ensures AllDigits(digits) && digits <= s
    ensures |digits| < |s| ==> !IsDigit(s[|digits|])
  {
    if s != "" && IsDigit(s[0]) then [s[0]] + DigitPrefix(s[1..]) else ""
  }

  lemma {:induction false} DigitPrefixOfRun(run: string, rest: string)
    requires AllDigits(run) && (rest != "" ==> !IsDigit(rest[0]))
    ensures DigitPrefix(run + rest) == run
  {
    if run == "" {
      assert run + rest == rest;
    } else {
      DigitPrefixOfRun(run[1..], rest);
      assert (run + rest)[1..] == run[1..] + rest;
    }
  }

  lemma {:induction false} PrintThenRead(n: nat)
    ensures ToNat(Print(n)) == n
  {
    if n >= 10 {
      PrintThenRead(n / 10);
      assert Print(n)[..|Print(n)| - 1] == Print(n / 10);
    }
  }

  lemma {:induction false} ReadThenPrint(s: string)
    requires s != "" && AllDigits(s) && (|s| > 1 ==> s[0] != '0')
    ensures Print(ToNat(s)) == s
  {
    if |s| > 1 {
      var front := s[..|s| - 1];
      ReadThenPrint(front);
      ReadPositive(front);
      assert s == front + [s[|s| - 1]];
    }
  }

  lemma {:induction false} ReadPositive(s: string)
    requires s != "" && AllDigits(s) && s[0] != '0'
    ensures ToNat(s) > 0
  {
    if |s| > 1 {
      ReadPositive(s[..|s| - 1]);
    }
  }

  /** At most `k` digits denote a number below `bound`, where `bound` is ten to the power `k`. */
  lemma {:induction false} PrintLength(n: nat, k: nat)
    requires k > 0
    ensures |Print(n)| <= k <==> n < Pow10(k)
    decreases k
  {
    if n >= 10 && k > 1 {
      PrintLength(n / 10, k - 1);
    } else if k > 1 {
      Pow10AtLeastTen(k - 1);
    }
  }

  function Pow10(k: nat): nat {
    if k == 0 then 1 else 10 * Pow10(k - 1)
  }

  lemma Pow10AtLeastTen(k: nat)
    requires k > 0
    ensures Pow10(k) >= 10
  {
  }
}
