/**
 * Decimal text of 32-bit integers as the .NET runtime writes it (int.ToString) and reads it
 * back (int.Parse), with the signs '-' and '+' of a culture that uses those.
 */
module Decimal {
  import opened Wrappers

  const Int32Min: int := -0x8000_0000
  const Int32Max: int := 0x7FFF_FFFF

  predicate InInt32(n: int) {
    Int32Min <= n <= Int32Max
  }

  predicate IsDigit(c: char) {
    '0' <= c <= '9'
  }

  predicate AllDigits(s: string) {
    forall i :: 0 <= i < |s| ==> IsDigit(s[i])
  }

  function DigitValue(c: char): (d: nat)
    requires IsDigit(c)
    ensures d < 10
  {
    c as int - '0' as int
  }

  function DigitChar(d: int): (c: char)
    requires 0 <= d < 10
    ensures IsDigit(c) && DigitValue(c) == d
  {
    ('0' as int + d) as char
  }

  /** The digits of n, most significant first, without leading zeros. */
  function NatToString(n: nat): (s: string)
    ensures |s| > 0 && AllDigits(s)
    ensures n < 10 <==> |s| == 1
    decreases n
  {
    if n < 10 then [DigitChar(n)] else NatToString(n / 10) + [DigitChar(n % 10)]
  }

  /** int.ToString(): a minus sign for negative values, then the digits of the magnitude. */
  function IntToString(n: int): (s: string)
    ensures |s| > 0
    ensures n < 0 <==> s[0] == '-'
    ensures forall i :: 0 < i < |s| ==> IsDigit(s[i])
  {
    if n < 0 then "-" + NatToString(-n) else NatToString(n)
  }

  /** The value of a run of decimal digits, read most significant first. */
  function DigitsValue(s: string): nat
    requires AllDigits(s)
  {
    if s == [] then 0 else DigitsValue(s[..|s| - 1]) * 10 + DigitValue(s[|s| - 1])
  }

  /** The characters int.Parse skips before and after the number (U+0009 to U+000D and space). */
  predicate IsWhite(c: char) {
    c == ' ' || '\t' <= c <= '\r'
  }

  function TrimStart(s: string): (t: string)
    ensures |t| <= |s| && t == s[|s| - |t|..]
    ensures t == [] || !IsWhite(t[0])
  {
    if s != [] && IsWhite(s[0]) then TrimStart(s[1..]) else s
  }

  function TrimEnd(s: string): (t: string)
    ensures |t| <= |s| && t == s[..|t|]
    ensures t == [] || !IsWhite(t[|t| - 1])
    ensures forall j | |t| <= j < |s| :: IsWhite(s[j])
  {
    if s != [] && IsWhite(s[|s| - 1]) then TrimEnd(s[..|s| - 1]) else s
  }

  /** The NUL characters int.Parse tolerates at the very end of its text, taken off. */
  function TrimNuls(s: string): (t: string)
    ensures |t| <= |s| && t == s[..|t|]
    ensures t == [] || t[|t| - 1] != '\0'
    ensures forall j | |t| <= j < |s| :: s[j] == '\0'
  {
    if s != [] && s[|s| - 1] == '\0' then TrimNuls(s[..|s| - 1]) else s
  }

  /** The exceptions int.Parse throws: FormatException and OverflowException. */
  datatype ParseError = FormatError | OverflowError

  /**
   * int.Parse(s): optional surrounding white space, an optional leading sign, then one or
   * more decimal digits whose value fits in 32 bits; NUL characters may follow at the end.
   */
  function ParseInt(s: string): (r: Result<int, ParseError>)
    ensures r.Success? ==> InInt32(r.value)
  {
    ParseSigned(TrimEnd(TrimStart(TrimNuls(s))))
  }

  /** The core of int.Parse once the padding is gone: an optional sign, then the digits. */
  function ParseSigned(t: string): (r: Result<int, ParseError>)
    ensures r.Success? ==> InInt32(r.value)
  {
    var signed := t != [] && (t[0] == '-' || t[0] == '+');
    var digits := if signed then t[1..] else t;
    if digits == [] || !AllDigits(digits) then Failure(FormatError)
    else
      var m: int := DigitsValue(digits);
      var v := if signed && t[0] == '-' then -m else m;
      if InInt32(v) then Success(v) else Failure(OverflowError)
  }

  lemma {:induction false} NatToStringValue(n: nat)
    ensures DigitsValue(NatToString(n)) == n
    decreases n
  {
    if n >= 10 {
      var s := NatToString(n / 10);
      NatToStringValue(n / 10);
      var t := s + [DigitChar(n % 10)];
      assert t[..|t| - 1] == s;
    }
  }

  /** Without any padding, int.Parse reads the sign and digits int.ToString wrote. */
  lemma ParseSignedToString(n: int)
    requires InInt32(n)
    ensures ParseSigned(IntToString(n)) == Success(n)
  {
    var s := IntToString(n);
    if n < 0 {
      NatToStringValue(-n);
      assert s[1..] == NatToString(-n);
    } else {
      NatToStringValue(n);
    }
  }

  /** The text int.ToString writes has no padding to trim. */
  lemma ToStringUnpadded(n: int)
    ensures var s := IntToString(n);
      TrimNuls(s) == s && TrimStart(s) == s && TrimEnd(s) == s && IsDigit(s[|s| - 1])
  {
    var s := IntToString(n);
    if n >= 0 {
      assert s == NatToString(n);
    }
  }

  /** int.Parse reads back exactly what int.ToString wrote, for every 32-bit value. */
  lemma ParseIntToString(n: int)
    requires InInt32(n)
    ensures ParseInt(IntToString(n)) == Success(n)
  {
    ToStringUnpadded(n);
    ParseSignedToString(n);
  }

  /** k NUL characters. */
  function Nuls(k: nat): (t: string)
    ensures |t| == k && forall j | 0 <= j < k :: t[j] == '\0'
  {
    if k == 0 then [] else Nuls(k - 1) + ['\0']
  }

  lemma {:induction false} TrimNulsPadded(s: string, k: nat)
    requires s != [] && s[|s| - 1] != '\0'
    ensures TrimNuls(s + Nuls(k)) == s
  {
    if k == 0 {
      assert s + Nuls(0) == s;
    } else {
      assert s + Nuls(k) == (s + Nuls(k - 1)) + ['\0'];
      assert (s + Nuls(k))[..|s + Nuls(k)| - 1] == s + Nuls(k - 1);
      TrimNulsPadded(s, k - 1);
    }
  }

  /** NUL characters after the number do not disturb int.Parse. */
  lemma ParseIgnoresTrailingNuls(n: int, k: nat)
    requires InInt32(n)
    ensures ParseInt(IntToString(n) + Nuls(k)) == Success(n)
  {
    var s := IntToString(n);
    ToStringUnpadded(n);
    TrimNulsPadded(s, k);
    ParseSignedToString(n);
  }

  /** A single character that is neither a digit, a sign, white space nor NUL is no number. */
  lemma ParseRejectsLetter(c: char)
    requires !IsDigit(c) && !IsWhite(c) && c != '\0' && c != '-' && c != '+'
    ensures ParseInt([c]) == Failure(FormatError)
  {
    assert TrimNuls([c]) == [c];
    assert TrimStart([c]) == [c];
    assert TrimEnd([c]) == [c];
    assert !AllDigits([c]) by {
      assert !IsDigit([c][0]);
    }
  }

  /**
   * A text holding, after its first character, a character that is neither a digit, nor
   * white space, nor NUL never parses.
   */
  lemma ParseRejectsNonDigit(s: string, i: int)
    requires 0 < i < |s| && !IsDigit(s[i]) && !IsWhite(s[i]) && s[i] != '\0'
    requires !IsWhite(s[0])
    ensures ParseInt(s).Failure?
  {
    var u := TrimNuls(s);
    assert i < |u| && u[0] == s[0] && u[i] == s[i];
    assert TrimStart(u) == u;
    var t := TrimEnd(u);
    assert i < |t| && t[0] == s[0] && t[i] == s[i];
    var digits := if t[0] == '-' || t[0] == '+' then t[1..] else t;
    if t[0] == '-' || t[0] == '+' {
      assert digits[i - 1] == s[i];
    } else {
      assert digits[i] == s[i];
    }
  }
}
