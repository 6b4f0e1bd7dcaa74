/**
 Ruby's conversions between integers and decimal text: `String#to_i` (the
 lenient parse applied to `max` and to the result of `fqdn_rand`) and
 `Integer#to_s` (the text substituted into the hostname).
 */
module IntegerText {

  predicate IsDigit(c: char) { '0' <= c <= '9' }

  predicate AllDigits(s: string) { forall k :: 0 <= k < |s| ==> IsDigit(s[k]) }

  /** The white space `to_i` skips before the number. */
  predicate IsSpace(c: char) { c == ' ' || c == '\t' || c == '\n' || c == '\U{B}' || c == '\U{C}' || c == '\r' }

  function DigitChar(d: nat): (c: char)
    requires d < 10
    ensures IsDigit(c)
  {
    (48 + d) as char
  }

  function DigitValue(c: char): (d: nat)
    requires IsDigit(c)
    ensures d < 10 && DigitChar(d) == c
  {
    c as int - 48
  }

  /** `Integer#to_s` for a non-negative integer: its shortest decimal
      digits, so never a leading zero except for 0 itself. */
  function NatToS(n: nat): (s: string)
    ensures |s| >= 1 && AllDigits(s)
    ensures s[0] == '0' ==> n == 0 && s == "0"
    decreases n
  {
    if n < 10 then [DigitChar(n)] else NatToS(n / 10) + [DigitChar(n % 10)]
  }

  /** `Integer#to_s`: a minus sign before the digits of a negative number. */
  function IntToS(i: int): (s: string)
    ensures |s| >= 1
    ensures i < 0 <==> s[0] == '-'
    ensures i >= 0 ==> AllDigits(s)
  {
    if i < 0 then "-" + NatToS(-i) else NatToS(i)
  }

  /** The number written by a string of digits, most significant first. */
  function DigitsValue(d: string): nat
    requires AllDigits(d)
  {
    if |d| == 0 then 0 else DigitsValue(d[..|d| - 1]) * 10 + DigitValue(d[|d| - 1])
  }

  /** The longest prefix made of digits. */
  function LeadingDigits(s: string): (d: string)
    ensures |d| <= |s| && d == s[..|d|]
    ensures AllDigits(d)
    ensures |d| == |s| || !IsDigit(s[|d|])
  {
    if |s| > 0 && IsDigit(s[0]) then [s[0]] + LeadingDigits(s[1..]) else ""
  }

  /** What is left after the leading white space. */
  function SkipSpace(s: string): (t: string)
    ensures |t| <= |s| && t == s[|s| - |t|..]
    ensures |t| == 0 || !IsSpace(t[0])
    ensures forall k :: 0 <= k < |s| - |t| ==> IsSpace(s[k])
  {
    if |s| > 0 && IsSpace(s[0]) then SkipSpace(s[1..]) else s
  }

  /** The base-10 radix prefix `to_i` accepts after the sign: "0d" or "0D". */
  predicate HasDecimalPrefix(u: string)
  {
    |u| >= 2 && u[0] == '0' && (u[1] == 'd' || u[1] == 'D')
  }

  /** What is left after an optional "0d" or "0D": a suffix of `u`. */
  function SkipDecimalPrefix(u: string): (v: string)
    ensures |v| <= |u| && v == u[|u| - |v|..]
    ensures HasDecimalPrefix(u) <==> |v| == |u| - 2
    ensures !HasDecimalPrefix(u) <==> v == u
  {
    if HasDecimalPrefix(u) then u[2..] else u
  }

  /** `String#to_i`: after optional white space, an optional sign and an
      optional "0d" prefix, the value of the leading digits; a string with no
      digit there reads as 0. */
  function StrToI(s: string): (i: int)
    ensures (forall k :: 0 <= k < |s| ==> !IsDigit(s[k])) ==> i == 0
  {
    var t := SkipSpace(s);
    var u := if |t| > 0 && (t[0] == '-' || t[0] == '+') then t[1..] else t;
    var v := SkipDecimalPrefix(u);
    assert |v| > 0 ==> v[0] == s[|s| - |v|];
    var n := DigitsValue(LeadingDigits(v));
    if |t| > 0 && t[0] == '-' then -(n as int) else n
  }

  /** Reading back the digits `NatToS` writes gives the number. */
  lemma {:induction false} DigitsValueOfNatToS(n: nat)
    ensures DigitsValue(NatToS(n)) == n
    decreases n
  {
    var s := NatToS(n);
    if n >= 10 {
      DigitsValueOfNatToS(n / 10);
      assert s[..|s| - 1] == NatToS(n / 10);
    }
  }

  /** A string of digits is its own longest digit prefix. */
  lemma {:induction false} LeadingDigitsOfDigits(d: string)
    requires AllDigits(d)
    ensures LeadingDigits(d) == d
    decreases |d|
  {
    if |d| > 0 {
      LeadingDigitsOfDigits(d[1..]);
    }
  }

  /** A string made only of digits reads as the number they write, leading
      zeros included. */
  lemma StrToIOfDigits(d: string)
    requires AllDigits(d)
    ensures StrToI(d) == DigitsValue(d)
  {
    assert SkipSpace(d) == d by {
      if |d| > 0 { assert IsDigit(d[0]); }
    }
    assert d == [] || (d[0] != '-' && d[0] != '+');
    assert SkipDecimalPrefix(d) == d by {
      if |d| >= 2 { assert IsDigit(d[1]); }
    }
    LeadingDigitsOfDigits(d);
  }

  /** `i.to_s.to_i == i` for every integer. */
  lemma StrToIOfIntToS(i: int)
    ensures StrToI(IntToS(i)) == i
  {
    var n: nat := if i < 0 then -i else i;
    var d := NatToS(n);
    LeadingDigitsOfDigits(d);
    DigitsValueOfNatToS(n);
    var s := IntToS(i);
    assert !IsSpace(s[0]);
    assert SkipSpace(s) == s;
    assert !HasDecimalPrefix(d) by {
      if |d| >= 2 { assert IsDigit(d[1]); }
    }
    if i < 0 {
      assert s == "-" + d;
      assert s[1..] == d;
    } else {
      assert s == d;
      assert IsDigit(s[0]);
    }
  }

  /** A "0d" or "0D" radix prefix is skipped: the digits after it are read. */
  lemma DecimalPrefixReadsDigits(d: string, s: string)
    requires AllDigits(d)
    requires s == "0d" + d || s == "0D" + d
    ensures StrToI(s) == DigitsValue(d)
  {
    assert !IsSpace(s[0]);
    assert SkipSpace(s) == s;
    assert HasDecimalPrefix(s);
    assert s[2..] == d;
    LeadingDigitsOfDigits(d);
  }
}
