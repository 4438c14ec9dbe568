/**
 * Decimal numerals as Rust's formatter writes them and its integer parser reads them.
 */
module Decimal {
  import opened Prelude

  predicate AllDigits(s: string) {
    forall i | 0 <= i < |s| :: IsDigit(s[i])
  }

  function DigitChar(d: nat): (c: char)
    requires d < 10
    ensures IsDigit(c) && Value(c) == d
  {
    '0' + d as char
  }

  function Value(c: char): nat
    requires IsDigit(c)
  {
    (c - '0') as nat
  }

  function Dec(n: nat): (s: string)
    ensures s != "" && AllDigits(s) && (n != 0 ==> s[0] != '0')
  {
    if n < 10 then [DigitChar(n)] else Dec(n / 10) + [DigitChar(n % 10)]
  }

  function Num(s: string): nat
    requires AllDigits(s)
  {
    if s == "" then 0 else 10 * Num(s[..|s| - 1]) + Value(s[|s| - 1])
  }

  function Pow10(k: nat): nat {
    if k == 0 then 1 else 10 * Pow10(k - 1)
  }

  function Zeros(k: nat): (s: string)
    ensures |s| == k && AllDigits(s) && forall i | 0 <= i < k :: s[i] == '0'
  {
    if k == 0 then "" else Zeros(k - 1) + "0"
  }

  /** Zero-padded on the left to at least `width`. */
  function Padded(n: nat, width: nat): (s: string)
    ensures AllDigits(s) && |s| == if |Dec(n)| < width then width else |Dec(n)|
  {
    Zeros(if |Dec(n)| < width then width - |Dec(n)| else 0) + Dec(n)
  }

  lemma {:induction false} NumDec(n: nat)
    ensures Num(Dec(n)) == n
  {
    if n >= 10 {
      NumDec(n / 10);
      var s := Dec(n);
      assert s[..|s| - 1] == Dec(n / 10);
    }
  }

  lemma {:induction false} NumZeros(k: nat, s: string)
    requires AllDigits(s)
    ensures Num(Zeros(k) + s) == Num(s)
    decreases |s|, k
  {
    var t := Zeros(k) + s;
    if s != "" {
      NumZeros(k, s[..|s| - 1]);
      assert t[..|t| - 1] == Zeros(k) + s[..|s| - 1];
    } else if k > 0 {
      NumZeros(k - 1, s);
      assert t[..|t| - 1] == Zeros(k - 1) + s;
    }
  }

  lemma {:induction false} NumPadded(n: nat, width: nat)
    ensures Num(Padded(n, width)) == n
  {
    NumDec(n);
    NumZeros(if |Dec(n)| < width then width - |Dec(n)| else 0, Dec(n));
  }

  lemma {:induction false} DecLength(n: nat, k: nat)
    requires k > 0
    ensures |Dec(n)| <= k <==> n < Pow10(k)
    decreases k
  {
    if n >= 10 && k > 1 {
      DecLength(n / 10, k - 1);
    } else if k > 1 {
      DecLength(n, k - 1);
    }
  }

  lemma {:induction false} TwoDigits(n: nat)
    requires n < 100
    ensures Padded(n, 2) == [DigitChar(n / 10), DigitChar(n % 10)]
  {
    if n < 10 {
      assert Zeros(1) == "0";
      assert Dec(n) == [DigitChar(n)];
    } else {
      assert Dec(n / 10) == [DigitChar(n / 10)];
      assert Zeros(0) == "";
    }
  }

  /** Without the zeros at the end. */
  function Trimmed(s: string): (r: string)
    ensures |r| <= |s| && r == s[..|r|] && (r != "" ==> r[|r| - 1] != '0')
  {
    if s != "" && s[|s| - 1] == '0' then Trimmed(s[..|s| - 1]) else s
  }

  lemma {:induction false} TrimmedAndZeros(s: string)
    ensures Trimmed(s) + Zeros(|s| - |Trimmed(s)|) == s
  {
    if s != "" && s[|s| - 1] == '0' {
      TrimmedAndZeros(s[..|s| - 1]);
    }
  }
}
