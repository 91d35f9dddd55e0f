/**
 * The parts of .NET's string library the services use, restricted to ASCII:
 * char.IsWhiteSpace, char.IsDigit, Trim, ToUpper, ToLower, Contains and
 * Replace(x, "").
 */
module Text {

  /** The ASCII members of char.IsWhiteSpace: space, tab, LF, VT, FF, CR. */
  predicate IsWhiteSpace(c: char) {
    c == ' ' || c == '\t' || c == '\n' || c == '\U{000B}' || c == '\U{000C}' || c == '\r'
  }

  predicate IsDigit(c: char) {
    '0' <= c <= '9'
  }

  function DigitValue(c: char): (v: nat)
    requires IsDigit(c)
    ensures v <= 9
  {
    (c as int) - ('0' as int)
  }

  function DigitChar(v: nat): (c: char)
    requires v <= 9
    ensures IsDigit(c) && DigitValue(c) == v
  {
    (('0' as int) + v) as char
  }

  predicate AllDigits(s: string) {
    forall i :: 0 <= i < |s| ==> IsDigit(s[i])
  }

  /** string.IsNullOrWhiteSpace on a non-null string. */
  predicate IsWhiteSpaceOnly(s: string) {
    forall i :: 0 <= i < |s| ==> IsWhiteSpace(s[i])
  }

  function LeadingWhiteSpace(s: string): (n: nat)
    ensures n <= |s|
    ensures forall i :: 0 <= i < n ==> IsWhiteSpace(s[i])
    ensures n < |s| ==> !IsWhiteSpace(s[n])
  {
    if s == [] || !IsWhiteSpace(s[0]) then 0 else 1 + LeadingWhiteSpace(s[1..])
  }

  function TrailingWhiteSpace(s: string): (n: nat)
    ensures n <= |s|
    ensures forall i :: |s| - n <= i < |s| ==> IsWhiteSpace(s[i])
    ensures n < |s| ==> !IsWhiteSpace(s[|s| - n - 1])
  {
    if s == [] || !IsWhiteSpace(s[|s| - 1]) then 0 else 1 + TrailingWhiteSpace(s[..|s| - 1])
  }

  /** string.Trim(): the longest infix that neither starts nor ends with white space. */
  function Trim(s: string): (r: string)
    ensures exists a, b ::
              0 <= a <= b <= |s| && r == s[a..b] && IsWhiteSpaceOnly(s[..a]) && IsWhiteSpaceOnly(s[b..])
    ensures r != [] ==> !IsWhiteSpace(r[0]) && !IsWhiteSpace(r[|r| - 1])
    ensures r == [] <==> IsWhiteSpaceOnly(s)
  {
    var a := LeadingWhiteSpace(s);
    var rest := s[a..];
    var b := a + |rest| - TrailingWhiteSpace(rest);
    assert s[a..b] == rest[..|rest| - TrailingWhiteSpace(rest)];
    assert s[b..] == rest[|rest| - TrailingWhiteSpace(rest)..];
    assert IsWhiteSpaceOnly(s) ==> a == |s|;
    s[a..b]
  }

  predicate IsLower(c: char) {
    'a' <= c <= 'z'
  }

  predicate IsUpper(c: char) {
    'A' <= c <= 'Z'
  }

  function UpperChar(c: char): char {
    if IsLower(c) then (c as int - 32) as char else c
  }

  function LowerChar(c: char): char {
    if IsUpper(c) then (c as int + 32) as char else c
  }

  /** The same character, or the two cases of one ASCII letter. */
  predicate SameCharIgnoringCase(c: char, d: char) {
    c == d || (IsLower(c) && d as int == c as int - 32) || (IsUpper(c) && d as int == c as int + 32)
  }

  /** Ordinal comparison ignoring ASCII case (StringComparison.OrdinalIgnoreCase on ASCII). */
  predicate EqualsIgnoringCase(s: string, t: string) {
    |s| == |t| && forall i :: 0 <= i < |s| ==> SameCharIgnoringCase(s[i], t[i])
  }

  /**
   * string.ToUpper() on ASCII letters: each character is kept up to case, and
   * no lower-case letter is left.
   */
  function ToUpper(s: string): (r: string)
    ensures |r| == |s| && forall i :: 0 <= i < |s| ==> r[i] == UpperChar(s[i])
    ensures forall i :: 0 <= i < |r| ==> !IsLower(r[i]) && SameCharIgnoringCase(s[i], r[i])
    ensures forall i :: 0 <= i < |s| && !IsLower(s[i]) ==> r[i] == s[i]
  {
    seq(|s|, i requires 0 <= i < |s| => UpperChar(s[i]))
  }

  /**
   * string.ToLower() on ASCII letters: each character is kept up to case, and
   * no upper-case letter is left.
   */
  function ToLower(s: string): (r: string)
    ensures |r| == |s| && forall i :: 0 <= i < |s| ==> r[i] == LowerChar(s[i])
    ensures forall i :: 0 <= i < |r| ==> !IsUpper(r[i]) && SameCharIgnoringCase(s[i], r[i])
    ensures forall i :: 0 <= i < |s| && !IsUpper(s[i]) ==> r[i] == s[i]
  {
    seq(|s|, i requires 0 <= i < |s| => LowerChar(s[i]))
  }

  /** Upper-casing first does not change the lower-cased string, and the reverse. */
  lemma CaseMappingsAbsorb(s: string)
    ensures ToLower(ToUpper(s)) == ToLower(s)
    ensures ToUpper(ToLower(s)) == ToUpper(s)
  {
  }

  /** Two strings upper-case alike exactly when they are equal up to ASCII case. */
  lemma SameUpperIffEqualsIgnoringCase(s: string, t: string)
    ensures ToUpper(s) == ToUpper(t) <==> EqualsIgnoringCase(s, t)
  {
    if ToUpper(s) == ToUpper(t) {
      forall i | 0 <= i < |s| ensures SameCharIgnoringCase(s[i], t[i]) {
        assert UpperChar(s[i]) == UpperChar(t[i]);
      }
    }
  }

  /** Two strings lower-case alike exactly when they are equal up to ASCII case. */
  lemma SameLowerIffEqualsIgnoringCase(s: string, t: string)
    ensures ToLower(s) == ToLower(t) <==> EqualsIgnoringCase(s, t)
  {
    if ToLower(s) == ToLower(t) {
      forall i | 0 <= i < |s| ensures SameCharIgnoringCase(s[i], t[i]) {
        assert LowerChar(s[i]) == LowerChar(t[i]);
      }
    }
  }

  predicate OccursAt(s: string, p: string, i: int) {
    0 <= i && i + |p| <= |s| && s[i..i + |p|] == p
  }

  /** string.Contains(p): ordinal substring search; the empty pattern occurs in every string. */
  predicate Contains(s: string, p: string) {
    exists i | 0 <= i <= |s| - |p| :: OccursAt(s, p, i)
  }

  /** The number of occurrences of `c` in `s`. */
  function Count(s: string, c: char): nat {
    if s == [] then 0 else Count(s[..|s| - 1], c) + (if s[|s| - 1] == c then 1 else 0)
  }

  /** string.Replace(c.ToString(), ""): `s` with every `c` removed. */
  function RemoveChar(s: string, c: char): (r: string)
    ensures c !in r
    ensures |r| == |s| - Count(s, c)
  {
    if s == [] then []
    else RemoveChar(s[..|s| - 1], c) + (if s[|s| - 1] == c then [] else [s[|s| - 1]])
  }

  /** The decimal value of a string of ASCII digits. */
  function DigitsValue(s: string): (v: nat)
    requires AllDigits(s)
  {
    if s == [] then 0 else DigitsValue(s[..|s| - 1]) * 10 + DigitValue(s[|s| - 1])
  }

  function Pow10(n: nat): (p: nat)
    ensures p >= 1
  {
    if n == 0 then 1 else 10 * Pow10(n - 1)
  }

  /** `n` written with exactly `width` digits, zero-padded (n must fit). */
  function PaddedDigits(n: nat, width: nat): (s: string)
    requires n < Pow10(width)
    ensures |s| == width && AllDigits(s)
  {
    if width == 0 then [] else PaddedDigits(n / 10, width - 1) + [DigitChar(n % 10)]
  }

  /** Reading back a zero-padded rendering gives the number. */
  lemma {:induction false} PaddedDigitsValue(n: nat, width: nat)
    requires n < Pow10(width)
    ensures DigitsValue(PaddedDigits(n, width)) == n
  {
    if width > 0 {
      PaddedDigitsValue(n / 10, width - 1);
      var s := PaddedDigits(n, width);
      assert s[..|s| - 1] == PaddedDigits(n / 10, width - 1);
    }
  }

  /** Trim leaves a string alone when it neither starts nor ends with white space. */
  lemma TrimUnchanged(s: string)
    requires s != [] && !IsWhiteSpace(s[0]) && !IsWhiteSpace(s[|s| - 1])
    ensures Trim(s) == s
  {
    var r := Trim(s);
    var a, b :| 0 <= a <= b <= |s| && r == s[a..b] && IsWhiteSpaceOnly(s[..a]) && IsWhiteSpaceOnly(s[b..]);
  }

  /** The shortest decimal rendering of a natural number (Int32/Int64 ToString()). */
  function NatString(n: nat): (s: string)
    ensures s != [] && AllDigits(s)
  {
    if n < 10 then [DigitChar(n)] else NatString(n / 10) + [DigitChar(n % 10)]
  }

  /** Reading back a decimal rendering gives the number. */
  lemma {:induction false} NatStringValue(n: nat)
    ensures DigitsValue(NatString(n)) == n
  {
    if n >= 10 {
      NatStringValue(n / 10);
      var s := NatString(n);
      assert s[..|s| - 1] == NatString(n / 10);
    }
  }

  /** A string without `c` is unchanged by removing `c`. */
  lemma {:induction false} RemoveAbsentChar(s: string, c: char)
    requires c !in s
    ensures RemoveChar(s, c) == s
  {
    if s != [] {
      assert c !in s[..|s| - 1];
      RemoveAbsentChar(s[..|s| - 1], c);
    }
  }

  /** Removing a character works piecewise. */
  lemma {:induction false} RemoveCharAppend(a: string, b: string, c: char)
    ensures RemoveChar(a + b, c) == RemoveChar(a, c) + RemoveChar(b, c)
    decreases |b|
  {
    if b == [] {
      assert a + b == a;
    } else {
      assert (a + b)[..|a + b| - 1] == a + b[..|b| - 1];
      RemoveCharAppend(a, b[..|b| - 1], c);
    }
  }

  /** A two-digit rendering spelt out. */
  lemma PaddedTwo(n: nat)
    requires n < 100
    ensures PaddedDigits(n, 2) == [DigitChar(n / 10), DigitChar(n % 10)]
  {
    assert PaddedDigits(n / 10 / 10, 0) == [];
  }

  /** A four-digit rendering spelt out. */
  lemma PaddedFour(n: nat)
    requires n < 10000
    ensures PaddedDigits(n, 4) == [DigitChar(n / 1000), DigitChar(n / 100 % 10), DigitChar(n / 10 % 10), DigitChar(n % 10)]
  {
    PaddedTwo(n / 100);
    assert n / 10 / 10 == n / 100;
    assert n / 100 / 10 == n / 1000;
  }
}
