// Decimal sizes: what fmt and to_string print, and what stoi reads back.
module Decimals {
  import opened Tablets

  predicate IsDigit(c: char) {
    '0' <= c <= '9'
  }

  function DigitChar(d: nat): (c: char)
    requires d < 10
    ensures IsDigit(c) && DigitValue(c) == d
  {
    ('0' as int + d) as char
  }

  function DigitValue(c: char): (d: nat)
    requires IsDigit(c)
    ensures d < 10
  {
    c as int - '0' as int
  }

  lemma DigitsAsWritten(d: nat)
    requires d < 10
    ensures DigitChar(d) == "0123456789"[d]
  {
  }

  predicate AllDigits(s: string) {
    forall i :: 0 <= i < |s| ==> IsDigit(s[i])
  }

  function Decimal(n: nat): (s: string)
    ensures s != "" && AllDigits(s)
  {
    if n < 10 then [DigitChar(n)] else Decimal(n / 10) + [DigitChar(n % 10)]
  }

  function DigitsValue(s: string): nat
    requires AllDigits(s)
  {
    if s == "" then 0 else 10 * DigitsValue(s[..|s| - 1]) + DigitValue(s[|s| - 1])
  }

  lemma {:induction false} DecimalReadsBack(n: nat)
    ensures DigitsValue(Decimal(n)) == n
  {
    if n < 10 {
      assert Decimal(n)[..0] == "";
      assert DigitsValue(Decimal(n)[..0]) == 0;
    } else {
      DecimalReadsBack(n / 10);
      assert Decimal(n)[..|Decimal(n)| - 1] == Decimal(n / 10);
    }
  }

  lemma DecimalInjective(m: nat, n: nat)
    requires Decimal(m) == Decimal(n)
    ensures m == n
  {
    DecimalReadsBack(m);
    DecimalReadsBack(n);
  }

  /** No digit string is shorter than the decimal form of its value. */
  lemma {:induction false} DecimalShortest(s: string)
    requires AllDigits(s) && s != ""
    ensures |Decimal(DigitsValue(s))| <= |s|
  {
    var init, d := s[..|s| - 1], DigitValue(s[|s| - 1]);
    if init == "" {
    } else {
      DecimalShortest(init);
      var v := DigitsValue(init);
      if v != 0 {
        assert (10 * v + d) / 10 == v && (10 * v + d) % 10 == d;
      }
    }
  }

  // ---- stoi followed by the string constructor ----

  const INT_LIMIT: nat := 0x8000_0000

  // A token holds no blank, CR or LF; these are the other characters stoi skips.
  function SkipBlanks(s: string): (r: string)
    ensures |r| <= |s| && r == s[|s| - |r|..]
  {
    if s != "" && s[0] in {'\t', '\U{000B}', '\U{000C}'} then SkipBlanks(s[1..]) else s
  }

  function DigitRun(s: string): (n: nat)
    ensures n <= |s| && AllDigits(s[..n])
    ensures n < |s| ==> !IsDigit(s[n])
  {
    if s == "" || !IsDigit(s[0]) then 0
    else
      var n := 1 + DigitRun(s[1..]);
      assert s[..n] == [s[0]] + s[1..][..n - 1];
      assert n < |s| ==> s[n] == s[1..][n - 1];
      n
  }

  /** A size token: None stands for the exception that ends the process
      (no digits, out of range for int, or a negative length). */
  function SizeOf(token: string): Option<nat> {
    var t := SkipBlanks(token);
    var signed := t != "" && t[0] in {'+', '-'};
    var body := if signed then t[1..] else t;
    var n := DigitRun(body);
    if n == 0 then None
    else
      var v := DigitsValue(body[..n]);
      if signed && t[0] == '-' && v != 0 then None
      else if v >= INT_LIMIT then None
      else Some(v)
  }

  lemma SizeOfDecimal(n: nat)
    ensures SizeOf(Decimal(n)) == if n < INT_LIMIT then Some(n) else None
  {
    var s := Decimal(n);
    assert IsDigit(s[0]);
    var k := DigitRun(s);
    assert k == |s|;
    assert s[..k] == s;
    DecimalReadsBack(n);
  }
}
