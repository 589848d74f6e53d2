/**
 Decimal text for the adapters' integers: the `[\d]+` groups of their patterns, `Int32.ToString()`
 as `String.Format` applies it, and `Int32.Parse` with its default number style
 (surrounding whitespace, an optional sign, ASCII digits, the 32-bit range).
 */
module Decimal {
  import opened Results
  import opened Text

  predicate IsDigit(c: char) {
    '0' <= c <= '9'
  }

  predicate AllDigits(s: string) {
    forall i :: 0 <= i < |s| ==> IsDigit(s[i])
  }

  /** One or more ASCII digits: the `[\d]+` group. */
  predicate IsDigits(s: string) {
    |s| > 0 && AllDigits(s)
  }

  /** Digits as `ToString()` writes them: no superfluous leading zero. */
  predicate IsCanonical(s: string) {
    IsDigits(s) && (s[0] == '0' ==> s == "0")
  }

  function DigitValue(c: char): nat
    requires IsDigit(c)
  {
    c as int - '0' as int
  }

  function DigitChar(d: nat): (c: char)
    requires d < 10
    ensures IsDigit(c) && DigitValue(c) == d
  {
    ('0' as int + d) as char
  }

  /** The number a digit string denotes, most significant digit first. */
  function Value(s: string): nat
    requires AllDigits(s)
  {
    if s == [] then 0 else Value(s[..|s| - 1]) * 10 + DigitValue(s[|s| - 1])
  }

  /** The decimal text of a natural number. */
  function NatToString(n: nat): (s: string)
    ensures IsCanonical(s) && Value(s) == n
  {
    if n < 10 then [DigitChar(n)]
    else
      var p := NatToString(n / 10);
      var s := p + [DigitChar(n % 10)];
      assert s[..|s| - 1] == p;
      s
  }

  lemma {:induction false} ValuePositive(s: string)
    requires IsDigits(s) && s[0] != '0'
    ensures Value(s) >= 1
  {
    if |s| > 1 {
      ValuePositive(s[..|s| - 1]);
    }
  }

  /** The converse round trip: canonical digits are the text of their own value. */
  lemma {:induction false} NatToStringOfValue(s: string)
    requires IsCanonical(s)
    ensures NatToString(Value(s)) == s
  {
    if |s| > 1 {
      var p := s[..|s| - 1];
      ValuePositive(p);
      NatToStringOfValue(p);
      assert Value(s) / 10 == Value(p) && Value(s) % 10 == DigitValue(s[|s| - 1]);
      assert s == p + [s[|s| - 1]];
    }
  }

  /** `Int32.ToString()` with the invariant culture: a minus sign before negative numbers. */
  function IntToString(i: int): (s: string)
    ensures |s| > 0
    ensures 0 <= i ==> IsCanonical(s) && Value(s) == i
    ensures i < 0 ==> s[0] == '-' && IsCanonical(s[1..]) && Value(s[1..]) == -i
  {
    if i < 0 then "-" + NatToString(-i) else NatToString(i)
  }

  const Int32Min: int := -0x8000_0000
  const Int32Max: int := 0x7FFF_FFFF

  predicate InInt32(i: int) {
    Int32Min <= i <= Int32Max
  }

  /** The exceptions `Int32.Parse` throws on text it cannot convert. */
  datatype NumberError = FormatError(text: string) | OverflowError(text: string)

  /** An optional sign followed by one or more digits. */
  predicate IsSignedDigits(t: string) {
    IsDigits(t) || (|t| > 1 && (t[0] == '-' || t[0] == '+') && IsDigits(t[1..]))
  }

  /** The value of signed digit text. */
  function SignedValue(t: string): int
    requires IsSignedDigits(t)
  {
    var magnitude: int := if IsDigits(t) then Value(t) else Value(t[1..]);
    if !IsDigits(t) && t[0] == '-' then -magnitude else magnitude
  }

  /** `s` without the run of NUL characters at its end. */
  function DropTrailingNuls(s: string): (r: string)
    ensures |r| <= |s|
    ensures r == [] || r[|r| - 1] != '\0'
  {
    if s != [] && s[|s| - 1] == '\0' then DropTrailingNuls(s[..|s| - 1]) else s
  }

  /** `DropTrailingNuls` keeps a prefix of its input and removes NUL characters only. */
  lemma {:induction false} DropTrailingNulsCuts(s: string)
    ensures var r := DropTrailingNuls(s);
      r == s[..|r|] && forall k :: |r| <= k < |s| ==> s[k] == '\0'
  {
    if s != [] && s[|s| - 1] == '\0' {
      var p := s[..|s| - 1];
      DropTrailingNulsCuts(p);
      assert forall k :: 0 <= k < |p| ==> p[k] == s[k];
    }
  }

  /** NULs appended to a text are all dropped again, leaving what the text itself leaves. */
  lemma {:induction false} DropAppendedNuls(s: string, n: nat)
    ensures DropTrailingNuls(s + seq(n, _ => '\0')) == DropTrailingNuls(s)
  {
    if n > 0 {
      var u := s + seq(n, _ => '\0');
      assert u[..|u| - 1] == s + seq(n - 1, _ => '\0');
      DropAppendedNuls(s, n - 1);
    } else {
      assert s + seq(n, _ => '\0') == s;
    }
  }

  /**
   The text `Int32.Parse` reads a number from: `NumberStyles.Integer` allows whitespace on both
   sides of the number, and the parser also accepts a run of NUL characters at the very end.
   */
  function Numeral(s: string): string {
    Trim(DropTrailingNuls(s))
  }

  /**
   `Int32.Parse(s)`: whitespace around an optionally signed digit run, then possibly NULs,
   within 32 bits. Text of the wrong shape is a format error even when its digits overflow.
   */
  function Int32Parse(s: string): (r: Result<int, NumberError>)
    ensures r.Ok? <==> IsSignedDigits(Numeral(s)) && InInt32(SignedValue(Numeral(s)))
    ensures r.Ok? ==> r.value == SignedValue(Numeral(s))
    ensures r == Err(FormatError(s)) <==> !IsSignedDigits(Numeral(s))
    ensures IsSignedDigits(Numeral(s)) && !InInt32(SignedValue(Numeral(s))) ==> r == Err(OverflowError(s))
  {
    var t := Numeral(s);
    if !IsSignedDigits(t) then Err(FormatError(s))
    else if !InInt32(SignedValue(t)) then Err(OverflowError(s))
    else Ok(SignedValue(t))
  }

  /** NULs appended to any text change neither whether it parses nor the number it parses to. */
  lemma Int32ParseIgnoresNuls(s: string, n: nat)
    ensures Int32Parse(s + seq(n, _ => '\0')).Ok? <==> Int32Parse(s).Ok?
    ensures Int32Parse(s).Ok? ==> Int32Parse(s + seq(n, _ => '\0')).value == Int32Parse(s).value
  {
    DropAppendedNuls(s, n);
    assert Numeral(s + seq(n, _ => '\0')) == Numeral(s);
  }

  lemma SignedValueOfIntToString(i: int)
    ensures IsTrimmed(IntToString(i))
    ensures IsSignedDigits(IntToString(i)) && SignedValue(IntToString(i)) == i
  {
    var s := IntToString(i);
    if i < 0 {
      assert !IsDigit(s[0]);
    }
  }

  /** Every 32-bit integer survives formatting and parsing. */
  lemma Int32RoundTrip(i: int)
    requires InInt32(i)
    ensures Int32Parse(IntToString(i)) == Ok(i)
  {
    var s := IntToString(i);
    SignedValueOfIntToString(i);
    assert DropTrailingNuls(s) == s;
    TrimOfConcat([], s, []);
    assert [] + s + [] == s;
  }

  /** `Int32.Parse` of one `[\d]+` group: its value, or an overflow. */
  function ParseDigitsInt32(digits: string): (r: Result<nat, NumberError>)
    requires IsDigits(digits)
    ensures r.Ok? <==> Value(digits) <= Int32Max
    ensures r.Ok? ==> r.value == Value(digits)
    ensures r.Err? ==> r.error == OverflowError(digits)
  {
    if Value(digits) <= Int32Max then Ok(Value(digits)) else Err(OverflowError(digits))
  }

  /** `ParseDigitsInt32` is `Int32.Parse` restricted to digit runs. */
  lemma ParseDigitsIsInt32Parse(digits: string)
    requires IsDigits(digits)
    ensures Int32Parse(digits) == match ParseDigitsInt32(digits)
      case Ok(v) => Ok(v as int)
      case Err(e) => Err(e)
  {
    assert DropTrailingNuls(digits) == digits;
    TrimOfConcat([], digits, []);
    assert [] + digits + [] == digits;
  }
}
