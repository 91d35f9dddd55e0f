/**
 * DateTime.TryParseExact(s, formats, CultureInfo.InvariantCulture,
 * DateTimeStyles.None) for the five custom formats the statement import
 * accepts. Every field has a fixed width ("dd", "MM" and "yy" two digits,
 * "yyyy" four, "MMM" one of the invariant culture's three-letter month
 * abbreviations, matched without regard to case), no white space is allowed,
 * and the formats are tried in order: the first that reads the whole string
 * as a real calendar day decides the result.
 */
module DateParsing {
  import opened Wrappers
  import opened Text
  import opened Dates

  datatype DateFormat =
    | DayMonthYear           // "dd/MM/yyyy"
    | MonthDayYear           // "MM/dd/yyyy"
    | IsoDate                // "yyyy-MM-dd"
    | DayMonthNameShortYear  // "dd-MMM-yy"
    | DayMonthNameYear       // "dd-MMM-yyyy"

  const AbbreviatedMonthNames: seq<string> :=
    ["Jan", "Feb", "Mar", "Apr", "May", "Jun", "Jul", "Aug", "Sep", "Oct", "Nov", "Dec"]

  const UpperMonthNames: seq<string> :=
    ["JAN", "FEB", "MAR", "APR", "MAY", "JUN", "JUL", "AUG", "SEP", "OCT", "NOV", "DEC"]

  /**
   * Calendar.ToFourDigitYear: a two-digit year is placed in the century
   * window that ends at TwoDigitYearMax.
   */
  function ToFourDigitYear(yy: nat, twoDigitYearMax: int): (y: int)
    requires yy < 100
    requires 99 <= twoDigitYearMax <= 9999
    ensures twoDigitYearMax - 99 <= y <= twoDigitYearMax
    ensures y % 100 == yy
  {
    var century := twoDigitYearMax / 100 - (if yy > twoDigitYearMax % 100 then 1 else 0);
    assert (century * 100 + yy) % 100 == yy;
    century * 100 + yy
  }

  /** The number written by exactly `width` digits at `start`. */
  function DigitField(s: string, start: nat, width: nat): (r: Option<nat>)
    ensures r.Some? <==> start + width <= |s| && AllDigits(s[start..start + width])
  {
    if start + width <= |s| && AllDigits(s[start..start + width]) then
      Some(DigitsValue(s[start..start + width]))
    else None
  }

  /** The month (1 to 12) whose abbreviation is `name` up to case, searching from month k + 1. */
  function MonthNameNumber(name: string, k: nat): (r: Option<nat>)
    requires k <= 12
    ensures r.Some? ==> k < r.value <= 12 && ToUpper(name) == UpperMonthNames[r.value - 1]
    ensures r.Some? ==> forall j | k <= j < r.value - 1 :: ToUpper(name) != UpperMonthNames[j]
    ensures r.None? <==> forall j | k <= j < 12 :: ToUpper(name) != UpperMonthNames[j]
    decreases 12 - k
  {
    if k == 12 then None
    else if ToUpper(name) == UpperMonthNames[k] then Some(k + 1)
    else MonthNameNumber(name, k + 1)
  }

  /** The date of the parsed fields, if every field was read and they form a day DateTime can hold. */
  function MakeDate(year: Option<int>, month: Option<nat>, day: Option<nat>): (r: Option<Date>)
    ensures r.Some? <==> year.Some? && month.Some? && day.Some? && InRange(Date(year.value, month.value, day.value))
    ensures r.Some? ==> r.value == Date(year.value, month.value, day.value)
  {
    if year.None? || month.None? || day.None? then None
    else
      var d := Date(year.value, month.value, day.value);
      if InRange(d) then Some(d) else None
  }

  /** The two-digit year field at `start`, placed in its century. */
  function ShortYearField(s: string, start: nat, twoDigitYearMax: int): (r: Option<int>)
    requires 99 <= twoDigitYearMax <= 9999
    ensures r.Some? <==> DigitField(s, start, 2).Some?
  {
    var yy := DigitField(s, start, 2);
    if yy.None? then None
    else
      assert DigitsValue(s[start..start + 2]) < 100 by { TwoDigitsBelowHundred(s[start..start + 2]); }
      Some(ToFourDigitYear(yy.value, twoDigitYearMax))
  }

  lemma TwoDigitsBelowHundred(t: string)
    requires |t| == 2 && AllDigits(t)
    ensures DigitsValue(t) < 100
  {
    assert t[..1][..0] == [];
    assert DigitsValue(t[..1]) == DigitValue(t[0]);
    assert DigitsValue(t) == DigitsValue(t[..1]) * 10 + DigitValue(t[1]);
  }

  /** DateTime.TryParseExact with a single format. */
  function ParseExact(s: string, f: DateFormat, twoDigitYearMax: int): (r: Option<Date>)
    requires 99 <= twoDigitYearMax <= 9999
    ensures r.Some? ==> InRange(r.value)
  {
    match f
    case DayMonthYear =>
      if |s| == 10 && s[2] == '/' && s[5] == '/' then
        MakeDate(DigitField(s, 6, 4), DigitField(s, 3, 2), DigitField(s, 0, 2))
      else None
    case MonthDayYear =>
      if |s| == 10 && s[2] == '/' && s[5] == '/' then
        MakeDate(DigitField(s, 6, 4), DigitField(s, 0, 2), DigitField(s, 3, 2))
      else None
    case IsoDate =>
      if |s| == 10 && s[4] == '-' && s[7] == '-' then
        MakeDate(DigitField(s, 0, 4), DigitField(s, 5, 2), DigitField(s, 8, 2))
      else None
    case DayMonthNameShortYear =>
      if |s| == 9 && s[2] == '-' && s[6] == '-' then
        MakeDate(ShortYearField(s, 7, twoDigitYearMax), MonthNameNumber(s[3..6], 0), DigitField(s, 0, 2))
      else None
    case DayMonthNameYear =>
      if |s| == 11 && s[2] == '-' && s[6] == '-' then
        MakeDate(DigitField(s, 7, 4), MonthNameNumber(s[3..6], 0), DigitField(s, 0, 2))
      else None
  }

  /**
   * DateTime.TryParseExact with a list of formats: the result of the first
   * format that accepts `s`, or failure when none does.
   */
  function TryParseExact(s: string, formats: seq<DateFormat>, twoDigitYearMax: int): (r: Option<Date>)
    requires 99 <= twoDigitYearMax <= 9999
    ensures r.Some? ==> exists i | 0 <= i < |formats| ::
                          ParseExact(s, formats[i], twoDigitYearMax) == r
                          && forall j | 0 <= j < i :: ParseExact(s, formats[j], twoDigitYearMax).None?
    ensures r.None? <==> forall i | 0 <= i < |formats| :: ParseExact(s, formats[i], twoDigitYearMax).None?
  {
    if formats == [] then None
    else
      var first := ParseExact(s, formats[0], twoDigitYearMax);
      if first.Some? then first
      else
        var rest := TryParseExact(s, formats[1..], twoDigitYearMax);
        assert rest.Some? ==> exists i | 0 <= i < |formats| ::
          ParseExact(s, formats[i], twoDigitYearMax) == rest
          && forall j | 0 <= j < i :: ParseExact(s, formats[j], twoDigitYearMax).None?
        by {
          if rest.Some? {
            var i :| 0 <= i < |formats[1..]| && ParseExact(s, formats[1..][i], twoDigitYearMax) == rest
                     && forall j | 0 <= j < i :: ParseExact(s, formats[1..][j], twoDigitYearMax).None?;
            assert forall j | 0 <= j < i + 1 :: ParseExact(s, formats[j], twoDigitYearMax).None? by {
              forall j | 0 <= j < i + 1 ensures ParseExact(s, formats[j], twoDigitYearMax).None? {
                if j > 0 { assert formats[j] == formats[1..][j - 1]; }
              }
            }
            assert formats[i + 1] == formats[1..][i];
          }
        }
        assert rest.None? <==> forall i | 0 <= i < |formats| :: ParseExact(s, formats[i], twoDigitYearMax).None? by {
          if rest.None? {
            forall i | 0 <= i < |formats| ensures ParseExact(s, formats[i], twoDigitYearMax).None? {
              if i > 0 { assert formats[i] == formats[1..][i - 1]; }
            }
          } else {
            var i :| 0 <= i < |formats[1..]| && ParseExact(s, formats[1..][i], twoDigitYearMax) == rest;
            assert formats[i + 1] == formats[1..][i];
          }
        }
        rest
  }

  /** DateTime.ToString(format) under the invariant culture. */
  function FormatDate(d: Date, f: DateFormat): (s: string)
    requires InRange(d)
  {
    assert Pow10(2) == 100 && Pow10(4) == 10000;
    var dd, mm, yyyy := PaddedDigits(d.day, 2), PaddedDigits(d.month, 2), PaddedDigits(d.year, 4);
    match f
    case DayMonthYear => dd + "/" + mm + "/" + yyyy
    case MonthDayYear => mm + "/" + dd + "/" + yyyy
    case IsoDate => yyyy + "-" + mm + "-" + dd
    case DayMonthNameShortYear => dd + "-" + AbbreviatedMonthNames[d.month - 1] + "-" + PaddedDigits(d.year % 100, 2)
    case DayMonthNameYear => dd + "-" + AbbreviatedMonthNames[d.month - 1] + "-" + yyyy
  }

  /** The first accepting format decides the result. */
  lemma FirstAccepting(s: string, formats: seq<DateFormat>, twoDigitYearMax: int, i: nat)
    requires 99 <= twoDigitYearMax <= 9999
    requires i < |formats| && ParseExact(s, formats[i], twoDigitYearMax).Some?
    requires forall j | 0 <= j < i :: ParseExact(s, formats[j], twoDigitYearMax).None?
    ensures TryParseExact(s, formats, twoDigitYearMax) == ParseExact(s, formats[i], twoDigitYearMax)
  {
    var r := TryParseExact(s, formats, twoDigitYearMax);
    var k :| 0 <= k < |formats| && ParseExact(s, formats[k], twoDigitYearMax) == r
             && forall j | 0 <= j < k :: ParseExact(s, formats[j], twoDigitYearMax).None?;
    if k < i {
      assert false;
    } else if k > i {
      assert false;
    }
  }

  /** The three pieces of `a sep b sep c` sit where the formats look for them. */
  lemma Pieces(a: string, b: string, c: string, sep: char)
    ensures var s := a + [sep] + b + [sep] + c;
            |s| == |a| + |b| + |c| + 2
            && s[..|a|] == a && s[|a|] == sep
            && s[|a| + 1..|a| + 1 + |b|] == b && s[|a| + 1 + |b|] == sep
            && s[|a| + |b| + 2..|a| + |b| + 2 + |c|] == c
  {
    var s := a + [sep] + b + [sep] + c;
    assert s[|a| + |b| + 2..] == c;
  }

  /** A zero-padded field reads back as its value. */
  lemma PaddedField(s: string, start: nat, n: nat, width: nat)
    requires n < Pow10(width)
    requires start + width <= |s| && s[start..start + width] == PaddedDigits(n, width)
    ensures DigitField(s, start, width) == Some(n)
  {
    PaddedDigitsValue(n, width);
  }

  /** Each abbreviation is found as its own month, whatever its case. */
  lemma MonthNameRoundTrip(m: int)
    requires 1 <= m <= 12
    ensures MonthNameNumber(AbbreviatedMonthNames[m - 1], 0) == Some(m)
  {
    var name := AbbreviatedMonthNames[m - 1];
    assert ToUpper(name) == UpperMonthNames[m - 1];
    forall j | 0 <= j < m - 1 ensures ToUpper(name) != UpperMonthNames[j] {
      assert UpperMonthNames[j] != UpperMonthNames[m - 1];
    }
    MonthNameFound(name, 0, m);
  }

  lemma {:induction false} MonthNameFound(name: string, k: nat, m: int)
    requires k < m <= 12
    requires ToUpper(name) == UpperMonthNames[m - 1]
    requires forall j | k <= j < m - 1 :: ToUpper(name) != UpperMonthNames[j]
    ensures MonthNameNumber(name, k) == Some(m)
    decreases 12 - k
  {
    if k + 1 < m {
      MonthNameFound(name, k + 1, m);
    }
  }

  /** Writing a date in a format and reading it back in that format gives the date. */
  lemma FormatParseRoundTrip(d: Date, f: DateFormat, twoDigitYearMax: int)
    requires InRange(d)
    requires 99 <= twoDigitYearMax <= 9999
    requires f == DayMonthNameShortYear ==> twoDigitYearMax - 99 <= d.year <= twoDigitYearMax
    ensures ParseExact(FormatDate(d, f), f, twoDigitYearMax) == Some(d)
  {
    assert Pow10(2) == 100 && Pow10(4) == 10000;
    var dd, mm, yyyy := PaddedDigits(d.day, 2), PaddedDigits(d.month, 2), PaddedDigits(d.year, 4);
    match f
    case DayMonthYear => NumericRoundTrip(dd, mm, yyyy, '/', d.day, d.month, d.year);
    case MonthDayYear => NumericRoundTrip(mm, dd, yyyy, '/', d.month, d.day, d.year);
    case IsoDate => IsoRoundTrip(d);
    case DayMonthNameShortYear =>
      var yy := PaddedDigits(d.year % 100, 2);
      var s := dd + "-" + AbbreviatedMonthNames[d.month - 1] + "-" + yy;
      NamedMonthPieces(dd, d.month, yy, d.day, d.year % 100);
      ShortYearWindow(d.year, twoDigitYearMax);
      assert ShortYearField(s, 7, twoDigitYearMax) == Some(d.year);
    case DayMonthNameYear =>
      NamedMonthPieces(dd, d.month, yyyy, d.day, d.year);
  }

  /** The fields of `a/b/yyyy` (two-digit a and b) read back as their values. */
  lemma NumericRoundTrip(a: string, b: string, c: string, sep: char, x: nat, y: nat, z: nat)
    requires x < 100 && y < 100 && z < 10000
    requires Pow10(2) == 100 && Pow10(4) == 10000
    requires a == PaddedDigits(x, 2) && b == PaddedDigits(y, 2) && c == PaddedDigits(z, 4)
    ensures var s := a + [sep] + b + [sep] + c;
            |s| == 10 && s[2] == sep && s[5] == sep
            && DigitField(s, 0, 2) == Some(x) && DigitField(s, 3, 2) == Some(y) && DigitField(s, 6, 4) == Some(z)
  {
    var s := a + [sep] + b + [sep] + c;
    Pieces(a, b, c, sep);
    PaddedField(s, 0, x, 2);
    PaddedField(s, 3, y, 2);
    PaddedField(s, 6, z, 4);
  }

  lemma IsoRoundTrip(d: Date)
    requires InRange(d)
    ensures ParseExact(FormatDate(d, IsoDate), IsoDate, 2049) == Some(d)
  {
    assert Pow10(2) == 100 && Pow10(4) == 10000;
    var dd, mm, yyyy := PaddedDigits(d.day, 2), PaddedDigits(d.month, 2), PaddedDigits(d.year, 4);
    var s := yyyy + "-" + mm + "-" + dd;
    Pieces(yyyy, mm, dd, '-');
    PaddedField(s, 0, d.year, 4);
    PaddedField(s, 5, d.month, 2);
    PaddedField(s, 8, d.day, 2);
  }

  /** The fields of `dd-MMM-year` read back as their values. */
  lemma NamedMonthPieces(dd: string, month: int, year: string, x: nat, z: nat)
    requires 1 <= month <= 12 && x < 100 && z < Pow10(|year|)
    requires dd == PaddedDigits(x, 2) && year == PaddedDigits(z, |year|)
    ensures var s := dd + "-" + AbbreviatedMonthNames[month - 1] + "-" + year;
            |s| == 7 + |year| && s[2] == '-' && s[6] == '-'
            && DigitField(s, 0, 2) == Some(x) && MonthNameNumber(s[3..6], 0) == Some(month)
            && DigitField(s, 7, |year|) == Some(z)
  {
    assert Pow10(2) == 100;
    var name := AbbreviatedMonthNames[month - 1];
    var s := dd + "-" + name + "-" + year;
    Pieces(dd, name, year, '-');
    PaddedField(s, 0, x, 2);
    PaddedField(s, 7, z, |year|);
    MonthNameRoundTrip(month);
  }

  /** A year inside the window is recovered from its last two digits. */
  lemma ShortYearWindow(year: int, twoDigitYearMax: int)
    requires 99 <= twoDigitYearMax <= 9999
    requires twoDigitYearMax - 99 <= year <= twoDigitYearMax
    ensures year % 100 < 100 && ToFourDigitYear(year % 100, twoDigitYearMax) == year
  {
    var y := ToFourDigitYear(year % 100, twoDigitYearMax);
    assert (y - year) % 100 == 0;
  }
}
