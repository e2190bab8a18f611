/** Base-10 integer literals: the reading the calculator's token scanner
    applies to a word, and the rendering Java uses when it appends an
    `int` to a string. */
module Decimal {

  datatype Option<T> = None | Some(value: T)

  predicate IsDigit(c: char)
  {
    '0' <= c <= '9'
  }

  predicate AllDigits(s: string)
  {
    forall i :: 0 <= i < |s| ==> IsDigit(s[i])
  }

  function DigitValue(c: char): (d: nat)
    requires IsDigit(c)
    ensures d < 10
  {
    c as int - '0' as int
  }

  function DigitChar(d: nat): (c: char)
    requires d < 10
    ensures IsDigit(c) && DigitValue(c) == d
  {
    ('0' as int + d) as char
  }

  /** The number a string of digits denotes, most significant digit first. */
  function DigitsValue(s: string): nat
    requires AllDigits(s)
    decreases |s|
  {
    if s == [] then 0 else DigitsValue(s[..|s| - 1]) * 10 + DigitValue(s[|s| - 1])
  }

  /** An optionally signed run of one or more ASCII digits, read in base 10. */
  function ParseInt(w: string): (r: Option<int>)
    ensures r.Some? <==>
      w != [] && var ds := if w[0] == '-' || w[0] == '+' then w[1..] else w; ds != [] && AllDigits(ds)
    ensures r.Some? && w[0] == '-' ==> r.value <= 0
    ensures r.Some? && w[0] != '-' ==> r.value >= 0
  {
    if w != [] && (w[0] == '-' || w[0] == '+') then
      var ds := w[1..];
      if ds != [] && AllDigits(ds) then
        Some(if w[0] == '-' then -(DigitsValue(ds) as int) else DigitsValue(ds) as int)
      else
        None
    else if w != [] && AllDigits(w) then
      Some(DigitsValue(w) as int)
    else
      None
  }

  /** The shortest digit string for `n`: no leading zero except for 0 itself. */
  function NatToString(n: nat): (s: string)
    ensures s != [] && AllDigits(s)
    ensures s[0] == '0' <==> n == 0
    ensures n == 0 ==> s == "0"
  {
    if n < 10 then [DigitChar(n)] else NatToString(n / 10) + [DigitChar(n % 10)]
  }

  /** Java's decimal rendering of an integer: a minus sign for negatives, then the digits. */
  function IntToString(n: int): (s: string)
    ensures s != []
    ensures forall i :: 0 <= i < |s| ==> IsDigit(s[i]) || (i == 0 && s[i] == '-')
    ensures s[0] == '-' <==> n < 0
    ensures var ds := if n < 0 then s[1..] else s; ds != [] && AllDigits(ds) && (ds[0] == '0' ==> ds == "0")
  {
    if n < 0 then "-" + NatToString(-n) else NatToString(n)
  }

  lemma {:induction false} NatToStringValue(n: nat)
    ensures DigitsValue(NatToString(n)) == n
  {
    if n >= 10 {
      var s := NatToString(n);
      NatToStringValue(n / 10);
      assert s[..|s| - 1] == NatToString(n / 10);
    }
  }

  /** Reading back a rendered integer gives the integer. */
  lemma ParseIntToString(n: int)
    ensures ParseInt(IntToString(n)) == Some(n)
  {
    if n < 0 {
      NatToStringValue(-n);
      assert IntToString(n)[1..] == NatToString(-n);
    } else {
      NatToStringValue(n);
    }
  }

  predicate AllZeros(s: string)
  {
    forall k :: 0 <= k < |s| ==> s[k] == '0'
  }

  lemma {:induction false} ZerosValue(zeros: string)
    requires AllZeros(zeros)
    ensures AllDigits(zeros) && DigitsValue(zeros) == 0
    decreases |zeros|
  {
    if zeros != [] {
      ZerosValue(zeros[..|zeros| - 1]);
    }
  }

  /** Leading zeros do not change the value of a digit string. */
  lemma {:induction false} LeadingZerosValue(zeros: string, ds: string)
    requires AllZeros(zeros) && AllDigits(ds)
    ensures AllDigits(zeros + ds) && DigitsValue(zeros + ds) == DigitsValue(ds)
    decreases |ds|
  {
    var s := zeros + ds;
    if ds == [] {
      ZerosValue(zeros);
      assert s == zeros;
    } else {
      LeadingZerosValue(zeros, ds[..|ds| - 1]);
      assert s[..|s| - 1] == zeros + ds[..|ds| - 1];
      assert s[|s| - 1] == ds[|ds| - 1];
    }
  }

  /** An optional sign in front of a digit string. */
  lemma ParseSigned(sign: string, ds: string)
    requires sign == "" || sign == "+" || sign == "-"
    requires ds != [] && AllDigits(ds)
    ensures ParseInt(sign + ds) == Some(if sign == "-" then -(DigitsValue(ds) as int) else DigitsValue(ds) as int)
  {
    var w := sign + ds;
    if sign == "" {
      assert w == ds && IsDigit(w[0]);
    } else {
      assert w[0] == sign[0] && w[1..] == ds;
    }
  }

  /** A literal with an optional sign and leading zeros, such as `+5`, `007`
      or `-0`, has the value of its digits, negated after a `-`. */
  lemma ParseIntPadded(sign: string, zeros: string, n: nat)
    requires sign == "" || sign == "+" || sign == "-"
    requires AllZeros(zeros)
    ensures ParseInt(sign + (zeros + NatToString(n))) == Some(if sign == "-" then -(n as int) else n as int)
  {
    var ds := PaddedDigits(zeros, n);
    ParseSigned(sign, ds);
  }

  lemma PaddedDigits(zeros: string, n: nat) returns (ds: string)
    requires AllZeros(zeros)
    ensures ds == zeros + NatToString(n)
    ensures ds != [] && AllDigits(ds) && DigitsValue(ds) == n
  {
    ds := zeros + NatToString(n);
    LeadingZerosValue(zeros, NatToString(n));
    NatToStringValue(n);
  }
}
