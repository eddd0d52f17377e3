// Decimal integers as std::from_chars reads and std::to_string prints them, in 32 bits.
module Decimal {
  predicate InInt(n: int) { -0x8000_0000 <= n < 0x8000_0000 }

  predicate IsDigit(c: char) { '0' <= c <= '9' }

  function DigitOf(c: char): nat
    requires IsDigit(c)
  {
    (c - '0') as nat
  }

  function DigitChar(d: nat): (c: char)
    requires d < 10
    ensures IsDigit(c) && DigitOf(c) == d
  {
    '0' + d as char
  }

  predicate AllDigits(s: string) {
    forall i :: 0 <= i < |s| ==> IsDigit(s[i])
  }

  // Leading digits of a text.
  function LeadingDigits(s: string): (d: string)
    ensures AllDigits(d)
  {
    if s == [] || !IsDigit(s[0]) then [] else [s[0]] + LeadingDigits(s[1..])
  }

  function ValueOf(d: string): nat
    requires AllDigits(d)
  {
    if d == [] then 0 else 10 * ValueOf(d[..|d| - 1]) + DigitOf(d[|d| - 1])
  }

  // Reads an optional minus sign and digits; what follows is ignored, and a text without a
  // number, or with one that does not fit, leaves the zero it started from.
  function ParseInt(s: string): (n: int)
    ensures InInt(n)
  {
    var negative := s != [] && s[0] == '-';
    var d := LeadingDigits(if negative then s[1..] else s);
    var m: int := ValueOf(d);
    var n := if negative then -m else m;
    if d != [] && InInt(n) then n else 0
  }

  function PrintNat(n: nat): (s: string)
    ensures s != [] && AllDigits(s)
  {
    if n < 10 then [DigitChar(n)] else PrintNat(n / 10) + [DigitChar(n % 10)]
  }

  function PrintInt(n: int): string {
    if n < 0 then "-" + PrintNat(-n) else PrintNat(n)
  }

  lemma {:induction false} PrintedValue(n: nat)
    ensures ValueOf(PrintNat(n)) == n
  {
    if n < 10 {
      assert [DigitChar(n)][..0] == [];
    } else {
      PrintedValue(n / 10);
      var s := PrintNat(n / 10);
      assert (s + [DigitChar(n % 10)])[..|s|] == s;
    }
  }

  // No zeros in front.
  lemma {:induction false} PrintedShort(n: nat)
    ensures (PrintNat(n)[0] == '0' <==> n == 0) && (|PrintNat(n)| == 1 <==> n < 10)
  {
    if n >= 10 {
      PrintedShort(n / 10);
    }
  }

  lemma {:induction false} AllLeading(s: string)
    requires AllDigits(s)
    ensures LeadingDigits(s) == s
  {
    if s != [] {
      AllLeading(s[1..]);
    }
  }

  lemma ParseInvertsPrint(n: int)
    requires InInt(n)
    ensures ParseInt(PrintInt(n)) == n
  {
    var m := if n < 0 then -n else n;
    PrintedValue(m);
    AllLeading(PrintNat(m));
    assert ("-" + PrintNat(m))[1..] == PrintNat(m);
    hide PrintNat, ValueOf, LeadingDigits;
  }

  lemma {:induction false} DigitsEnd(d: string, rest: string)
    requires AllDigits(d) && (rest == [] || !IsDigit(rest[0]))
    ensures LeadingDigits(d + rest) == d
  {
    if d != [] {
      DigitsEnd(d[1..], rest);
      assert (d + rest)[1..] == d[1..] + rest;
    } else {
      assert d + rest == rest;
    }
  }

  // How any text reads: a sign, the digits up to the first character that is none, and the rest,
  // which has no effect.
  lemma TextReads(minus: bool, d: string, rest: string)
    requires AllDigits(d) && (rest == [] || !IsDigit(rest[0]))
    requires !minus && d == [] && rest != [] ==> rest[0] != '-'
    ensures var m: int := ValueOf(d);
      var n := if minus then -m else m;
      ParseInt((if minus then "-" else "") + d + rest) == if d != [] && InInt(n) then n else 0
  {
    hide ParseInt, ValueOf, LeadingDigits;
    DigitsEnd(d, rest);
    var sign := if minus then "-" else "";
    assert sign + d + rest == sign + (d + rest);
    SignedReads(minus, d + rest);
  }

  lemma SignedReads(minus: bool, t: string)
    requires !minus && t != [] ==> t[0] != '-'
    ensures var m: int := ValueOf(LeadingDigits(t));
      var n := if minus then -m else m;
      ParseInt((if minus then "-" else "") + t) == if LeadingDigits(t) != [] && InInt(n) then n else 0
  {
    hide ValueOf, LeadingDigits;
    assert ("-" + t)[1..] == t && "" + t == t;
  }
}
