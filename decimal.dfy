/** Decimal text of integers: the digits `kputw` writes for an `int`, and the
    integer `sscanf("%d")` reads back from the front of a string. */
module Decimal {
  import opened Wrappers

  predicate IsDigit(c: char)
  {
    '0' <= c <= '9'
  }

  /** C's isspace in the "C" locale: blank, \t, \n, \v, \f and \r. */
  predicate IsSpace(c: char)
  {
    c == ' ' || '\t' <= c <= '\r'
  }

  predicate AllDigits(s: string)
  {
    forall c :: c in s ==> IsDigit(c)
  }

  function DigitChar(d: nat): (c: char)
    requires d < 10
    ensures IsDigit(c)
  {
    ('0' as int + d) as char
  }

  function DigitValue(c: char): (d: nat)
    requires IsDigit(c)
    ensures d < 10 && DigitChar(d) == c
  {
    c as int - '0' as int
  }

  function Pow10(k: nat): (r: nat)
    ensures r >= 1
  {
    if k == 0 then 1 else 10 * Pow10(k - 1)
  }

  /** The decimal digits of x, most significant first, with no leading zero. */
  function NatDigits(x: nat): (s: string)
    ensures |s| >= 1 && AllDigits(s)
    ensures x > 0 ==> s[0] != '0'
  {
    if x < 10 then [DigitChar(x)] else NatDigits(x / 10) + [DigitChar(x % 10)]
  }

  /** The text `kputw` appends for x: a '-' before the digits of |x| when x is negative, "0" for zero. */
  function Dec(x: int): (s: string)
    ensures |s| >= 1 && (IsDigit(s[0]) || s[0] == '-')
  {
    if x < 0 then "-" + NatDigits(-x) else NatDigits(x)
  }

  /** The text holds nothing but digits and the sign. */
  lemma DecChars(x: int)
    ensures forall c :: c in Dec(x) ==> IsDigit(c) || c == '-'
  {
    if x < 0 {
      assert forall c :: c in Dec(x) ==> c == '-' || c in NatDigits(-x);
    }
  }

  /** The value of a digit string, most significant digit first (empty string: 0). */
  function DigitsValue(s: string): nat
    requires AllDigits(s)
  {
    if s == [] then 0 else DigitsValue(s[..|s| - 1]) * 10 + DigitValue(s[|s| - 1])
  }

  function Zeros(k: nat): (s: string)
    ensures |s| == k && AllDigits(s)
  {
    if k == 0 then [] else "0" + Zeros(k - 1)
  }

  /** Leading white space, as `%d` skips it. */
  function SkipSpace(s: string): (t: string)
    ensures |t| <= |s| && t == s[|s| - |t|..]
    ensures t == [] || !IsSpace(t[0])
  {
    if |s| > 0 && IsSpace(s[0]) then SkipSpace(s[1..]) else s
  }

  /** The longest prefix of s made of digits. */
  function DigitRun(s: string): (d: string)
    ensures |d| <= |s| && d == s[..|d|] && AllDigits(d)
    ensures |d| == |s| || !IsDigit(s[|d|])
  {
    if |s| > 0 && IsDigit(s[0]) then [s[0]] + DigitRun(s[1..]) else []
  }

  /** `sscanf(s, "%d", &v) == 1`: white space, an optional sign, then at least one
      digit; the text after the longest run of digits is ignored. */
  function ScanInt(s: string): Option<int>
  {
    ScanSigned(SkipSpace(s))
  }

  /** An optional sign, then the digits. */
  function ScanSigned(t: string): Option<int>
  {
    if |t| > 0 && t[0] == '-' then
      (match ScanDigits(t[1..]) case None => None case Some(v) => Some(-(v as int)))
    else if |t| > 0 && t[0] == '+' then
      (match ScanDigits(t[1..]) case None => None case Some(v) => Some(v))
    else
      (match ScanDigits(t) case None => None case Some(v) => Some(v))
  }

  /** The value of the longest run of leading digits, if there is one. */
  function ScanDigits(t: string): Option<nat>
  {
    var d := DigitRun(t);
    if d == [] then None else Some(DigitsValue(d))
  }

  /** Reading the digits back gives the number. */
  lemma {:induction false} NatDigitsValue(x: nat)
    ensures DigitsValue(NatDigits(x)) == x
  {
    if x >= 10 {
      var s := NatDigits(x / 10) + [DigitChar(x % 10)];
      assert s[..|s| - 1] == NatDigits(x / 10);
      NatDigitsValue(x / 10);
    }
  }

  /** Leading zeros do not change the value of a digit string. */
  lemma {:induction false} ZerosValue(k: nat, s: string)
    requires AllDigits(s)
    ensures DigitsValue(Zeros(k) + s) == DigitsValue(s)
  {
    if s == [] {
      ZerosValueZero(k);
      assert Zeros(k) + s == Zeros(k);
    } else {
      var init := s[..|s| - 1];
      assert (Zeros(k) + s)[..|Zeros(k) + s| - 1] == Zeros(k) + init;
      ZerosValue(k, init);
    }
  }

  lemma {:induction false} ZerosValueZero(k: nat)
    ensures DigitsValue(Zeros(k)) == 0
  {
    if k > 0 {
      assert Zeros(k) == Zeros(k - 1) + "0" by { ZerosSnoc(k - 1); }
      assert Zeros(k)[..k - 1] == Zeros(k - 1);
      ZerosValueZero(k - 1);
    }
  }

  lemma {:induction false} ZerosSnoc(k: nat)
    ensures Zeros(k + 1) == Zeros(k) + "0"
  {
    if k > 0 {
      ZerosSnoc(k - 1);
    }
  }

  /** A number below 10^k has at most k digits. */
  lemma {:induction false} NatDigitsLength(x: nat, k: nat)
    requires k >= 1 && x < Pow10(k)
    ensures |NatDigits(x)| <= k
  {
    if x >= 10 {
      NatDigitsLength(x / 10, k - 1);
    }
  }

  /** The digit run of a digit string followed by a non-digit is that digit string. */
  lemma {:induction false} DigitRunOfDigits(d: string, rest: string)
    requires AllDigits(d)
    requires rest == [] || !IsDigit(rest[0])
    ensures DigitRun(d + rest) == d
  {
    if d != [] {
      assert (d + rest)[1..] == d[1..] + rest;
      DigitRunOfDigits(d[1..], rest);
    }
  }

  /** `sscanf("%d")` reads back what `kputw` wrote, whatever non-digit text follows. */
  lemma ScanDec(x: int, rest: string)
    requires rest == [] || !IsDigit(rest[0])
    ensures ScanInt(Dec(x) + rest) == Some(x)
  {
    if x < 0 {
      var m: nat := -x;
      var d := NatDigits(m);
      assert Dec(x) == "-" + d;
      ScanNegative(m, rest);
    } else {
      var d := NatDigits(x);
      assert Dec(x) == d;
      ScanUnsigned(x, rest);
    }
  }

  /** The digits of m followed by a non-digit read back as m. */
  lemma ScanDigitsOf(m: nat, rest: string)
    requires rest == [] || !IsDigit(rest[0])
    ensures ScanDigits(NatDigits(m) + rest) == Some(m)
  {
    DigitRunOfDigits(NatDigits(m), rest);
    NatDigitsValue(m);
  }

  /** Text that does not start with white space is scanned as it stands. */
  lemma SkipNoSpace(s: string)
    requires s == [] || !IsSpace(s[0])
    ensures SkipSpace(s) == s
  {
  }

  lemma ScanUnsigned(m: nat, rest: string)
    requires rest == [] || !IsDigit(rest[0])
    ensures ScanInt(NatDigits(m) + rest) == Some(m)
  {
    var s := NatDigits(m) + rest;
    assert s[0] == NatDigits(m)[0] && NatDigits(m)[0] in NatDigits(m);
    SkipNoSpace(s);
    ScanDigitsOf(m, rest);
  }

  lemma ScanNegative(m: nat, rest: string)
    requires m > 0
    requires rest == [] || !IsDigit(rest[0])
    ensures ScanInt("-" + NatDigits(m) + rest) == Some(-(m as int))
  {
    var s := "-" + NatDigits(m) + rest;
    SkipNoSpace(s);
    assert s[0] == '-' && s[1..] == NatDigits(m) + rest;
    ScanDigitsOf(m, rest);
  }
}
