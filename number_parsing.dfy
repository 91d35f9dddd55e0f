/**
 * The ASCII subsets of .NET's number parsers that the services rely on:
 * int.TryParse(s) (NumberStyles.Integer) and decimal.TryParse(s,
 * NumberStyles.Currency | NumberStyles.Float, InvariantCulture).
 */
module NumberParsing {
  import opened Wrappers
  import opened Text

  const Int32Min: int := -0x8000_0000
  const Int32Max: int := 0x7FFF_FFFF

  /** Splits an optional leading '+' or '-' off; true means negative. */
  function SplitSign(t: string): (r: (bool, string))
    ensures r.1 == if t != [] && (t[0] == '-' || t[0] == '+') then t[1..] else t
    ensures r.0 <==> t != [] && t[0] == '-'
  {
    if t != [] && t[0] == '-' then (true, t[1..])
    else if t != [] && t[0] == '+' then (false, t[1..])
    else (false, t)
  }

  /**
   * int.TryParse: optional surrounding white space, an optional sign, one or
   * more ASCII digits, and a value that fits in 32 bits.
   */
  function ParseInt32(s: string): (r: Option<int>)
    ensures r.Some? ==> Int32Min <= r.value <= Int32Max
    ensures Trim(s) == [] ==> r.None?
  {
    var (negative, digits) := SplitSign(Trim(s));
    if digits == [] || !AllDigits(digits) then None
    else
      var v: int := if negative then -(DigitsValue(digits) as int) else DigitsValue(digits);
      if Int32Min <= v <= Int32Max then Some(v) else None
  }

  /** int.ToString() under the invariant culture. */
  function Int32String(n: int): string {
    Signed(n < 0, NatString(if n < 0 then -n else n))
  }

  /** A rendering with a leading '-' when negative. */
  function Signed(negative: bool, body: string): string {
    if negative then "-" + body else body
  }

  /** Parsing the rendering of any 32-bit integer gives it back. */
  lemma ParseInt32RoundTrip(n: int)
    requires Int32Min <= n <= Int32Max
    ensures ParseInt32(Int32String(n)) == Some(n)
  {
    var abs := if n < 0 then -n else n;
    var digits := NatString(abs);
    NatStringValue(abs);
    SignedTrimmed(n < 0, digits);
  }

  /** A sign in front of a digit string survives Trim and is split off again. */
  lemma SignedTrimmed(negative: bool, digits: string)
    requires digits != [] && IsDigit(digits[0]) && IsDigit(digits[|digits| - 1])
    ensures Trim(Signed(negative, digits)) == Signed(negative, digits)
    ensures SplitSign(Signed(negative, digits)) == (negative, digits)
  {
    if negative {
      var s := "-" + digits;
      assert s[0] == '-' && s[|s| - 1] == digits[|digits| - 1];
      TrimUnchanged(s);
      assert s[1..] == digits;
    } else {
      TrimUnchanged(digits);
    }
  }

  /** Digits and ',' group separators, starting with a digit (or empty). */
  predicate IsIntegerPart(s: string) {
    (s == [] || IsDigit(s[0])) && forall i :: 0 <= i < |s| ==> IsDigit(s[i]) || s[i] == ','
  }

  function IndexOf(s: string, c: char): (r: Option<nat>)
    ensures r.Some? ==> r.value < |s| && s[r.value] == c && c !in s[..r.value]
    ensures r.None? ==> c !in s
  {
    if s == [] then None
    else if s[0] == c then Some(0)
    else match IndexOf(s[1..], c)
      case None => None
      case Some(k) => assert s[..k + 1] == [s[0]] + s[1..][..k]; Some(k + 1)
  }

  /** The value of the unsigned part `int[.frac]`, if it is well formed. */
  function ParseUnsignedDecimal(body: string): (r: Option<real>)
    ensures r.Some? ==> r.value >= 0.0
  {
    var (intPart, fracPart) :=
      match IndexOf(body, '.')
      case None => (body, "")
      case Some(k) => (body[..k], body[k + 1..]);
    var intDigits := RemoveChar(intPart, ',');
    if !IsIntegerPart(intPart) || !AllDigits(fracPart) || (intDigits == [] && fracPart == []) then None
    else
      assert AllDigits(intDigits) by { RemoveCommaLeavesDigits(intPart); }
      Some(DecimalValue(intDigits, fracPart))
  }

  /** The value of the digit strings `intDigits.fracDigits`. */
  function DecimalValue(intDigits: string, fracDigits: string): (v: real)
    requires AllDigits(intDigits) && AllDigits(fracDigits)
    ensures v >= 0.0
  {
    DigitsValue(intDigits) as real + FractionValue(fracDigits)
  }

  /** The value of the digits after the point: 0.d1d2d3... */
  function FractionValue(digits: string): (v: real)
    requires AllDigits(digits)
    ensures 0.0 <= v <= 1.0
  {
    if digits == [] then 0.0
    else (DigitValue(digits[0]) as real + FractionValue(digits[1..])) / 10.0
  }

  lemma {:induction false} RemoveCommaLeavesDigits(s: string)
    requires forall i :: 0 <= i < |s| ==> IsDigit(s[i]) || s[i] == ','
    ensures AllDigits(RemoveChar(s, ','))
  {
    if s != [] {
      RemoveCommaLeavesDigits(s[..|s| - 1]);
    }
  }

  /**
   * decimal.TryParse with Currency | Float: optional surrounding white space,
   * an optional leading sign, integer digits with ',' group separators and an
   * optional '.' with fraction digits; at least one digit in all.
   */
  function ParseDecimal(s: string): (r: Option<real>)
    ensures Trim(s) == [] ==> r.None?
  {
    var signed := SplitSign(Trim(s));
    ApplySign(signed.0, ParseUnsignedDecimal(signed.1))
  }

  function ApplySign(negative: bool, unsigned: Option<real>): (r: Option<real>)
    ensures r.Some? <==> unsigned.Some?
    ensures r.Some? ==> r.value == if negative then -unsigned.value else unsigned.value
  {
    if unsigned.None? then None
    else Some(if negative then -unsigned.value else unsigned.value)
  }

  /** An amount in pence written as pounds and two-digit pence, e.g. "-12.50". */
  function AmountString(pence: int): string {
    var abs := if pence < 0 then -pence else pence;
    Signed(pence < 0, UnsignedAmountString(abs))
  }

  function UnsignedAmountString(abs: nat): string {
    NatString(abs / 100) + "." + PaddedDigits(abs % 100, 2)
  }

  /** `whole.frac` with plain digit strings is read as whole + frac / 10^|frac|. */
  lemma ParseUnsignedDecimalPlain(whole: string, frac: string)
    requires whole != [] && AllDigits(whole) && AllDigits(frac)
    ensures ParseUnsignedDecimal(whole + "." + frac) == Some(DecimalValue(whole, frac))
  {
    var body := whole + "." + frac;
    assert '.' !in whole by {
      forall i | 0 <= i < |whole| ensures whole[i] != '.' { assert IsDigit(whole[i]); }
    }
    IndexOfAfter(whole, '.', frac);
    assert body[..|whole|] == whole;
    assert body[|whole| + 1..] == frac;
    assert ',' !in whole by {
      forall i | 0 <= i < |whole| ensures whole[i] != ',' { assert IsDigit(whole[i]); }
    }
    RemoveAbsentChar(whole, ',');
    assert IsIntegerPart(whole);
  }

  lemma {:induction false} IndexOfAfter(a: string, c: char, b: string)
    requires c !in a
    ensures IndexOf(a + [c] + b, c) == Some(|a|)
  {
    if a != [] {
      assert (a + [c] + b)[1..] == a[1..] + [c] + b;
      IndexOfAfter(a[1..], c, b);
    }
  }

  /** A sign prefix on a white-space-free body is split off before the body is read. */
  lemma ParseDecimalSigned(negative: bool, body: string)
    requires body != [] && IsDigit(body[0]) && IsDigit(body[|body| - 1])
    ensures ParseDecimal(Signed(negative, body)) == ApplySign(negative, ParseUnsignedDecimal(body))
  {
    SignedTrimmed(negative, body);
  }

  lemma PenceArithmetic(abs: nat)
    ensures (abs / 100) as real + (abs % 100) as real / 100.0 == abs as real / 100.0
  {
    var q, r := abs / 100, abs % 100;
    assert abs == 100 * q + r;
    assert abs as real == 100.0 * (q as real) + r as real;
  }

  /** Statement amounts written with two decimals parse back to their value. */
  lemma ParseAmountRoundTrip(pence: int)
    ensures ParseDecimal(AmountString(pence)) == Some(PenceValue(pence))
  {
    var x := SignedAmountValue(pence);
  }

  /** The amount in pounds of a whole number of pence. */
  function PenceValue(pence: int): real {
    pence as real / 100.0
  }

  /** The parse of the amount string, with the proof facts kept local. */
  lemma SignedAmountValue(pence: int) returns (x: real)
    ensures x == PenceValue(pence)
    ensures ParseDecimal(AmountString(pence)) == Some(x)
  {
    var abs := if pence < 0 then -pence else pence;
    var body := UnsignedAmountString(abs);
    var frac := PaddedDigits(abs % 100, 2);
    var v := UnsignedAmountValue(abs);
    assert body[|body| - 1] == frac[1];
    ParseDecimalSigned(pence < 0, body);
    SignKnownValue(pence < 0, body, v);
    x := if pence < 0 then -v else v;
  }

  lemma SignKnownValue(negative: bool, body: string, v: real)
    requires ParseUnsignedDecimal(body) == Some(v)
    ensures ApplySign(negative, ParseUnsignedDecimal(body)) == Some(if negative then -v else v)
  {
  }

  /** The unsigned part of an amount string is read as pence / 100. */
  lemma UnsignedAmountValue(abs: nat) returns (v: real)
    ensures v == abs as real / 100.0
    ensures ParseUnsignedDecimal(UnsignedAmountString(abs)) == Some(v)
  {
    var whole, frac := NatString(abs / 100), PaddedDigits(abs % 100, 2);
    ParseUnsignedDecimalPlain(whole, frac);
    NatStringValue(abs / 100);
    PaddedDigitsValue(abs % 100, 2);
    TwoDigitFraction(whole, frac);
    PenceArithmetic(abs);
    v := DecimalValue(whole, frac);
  }

  lemma TwoDigitFraction(whole: string, frac: string)
    requires AllDigits(whole) && AllDigits(frac) && |frac| == 2
    ensures DecimalValue(whole, frac) == DigitsValue(whole) as real + DigitsValue(frac) as real / 100.0
  {
    assert frac[1..][1..] == [];
    assert FractionValue(frac[1..]) == DigitValue(frac[1]) as real / 10.0;
    assert frac[..1][..0] == [];
    assert DigitsValue(frac[..1]) == DigitValue(frac[0]);
    assert DigitsValue(frac) == DigitValue(frac[0]) * 10 + DigitValue(frac[1]);
  }
}
