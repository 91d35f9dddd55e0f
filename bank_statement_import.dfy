/**
 * BankStatementImportService: a quote-aware CSV tokenizer, the per-row
 * parser that turns one statement line into an income or an expenditure, the
 * line driver that runs over a whole file, and the rule-based category
 * suggestions. The file is given as its sequence of lines.
 */
module BankStatementImport {
  import opened Wrappers
  import opened Text
  import opened Dates
  import opened NumberParsing
  import opened DateParsing
  import opened Models

  // ---------------------------------------------------------------------
  // ParseCsvColumns

  /** The tokenizer's loop state: finished fields, the field being built, and whether a quote is open. */
  datatype CsvState = CsvState(columns: seq<string>, current: string, inQuotes: bool)

  const Start: CsvState := CsvState([], "", false)

  /**
   * One character: '"' toggles quoting and is dropped, ',' outside quotes
   * ends the field, anything else is appended to it.
   */
  function Step(st: CsvState, c: char): CsvState {
    if c == '"' then CsvState(st.columns, st.current, !st.inQuotes)
    else if c == ',' && !st.inQuotes then CsvState(st.columns + [st.current], "", st.inQuotes)
    else CsvState(st.columns, st.current + [c], st.inQuotes)
  }

  /** The state after feeding the characters of `s`, in order, from `st`. */
  function Scan(st: CsvState, s: string): CsvState
    decreases |s|
  {
    if s == [] then st else Step(Scan(st, s[..|s| - 1]), s[|s| - 1])
  }

  /** The fields of a line: the finished ones and the last, which is always added. */
  function Columns(line: string): seq<string> {
    var st := Scan(Start, line);
    st.columns + [st.current]
  }

  method ParseCsvColumns(csvLine: string) returns (columns: seq<string>)
    ensures columns == Columns(csvLine)
    ensures |columns| == UnquotedCommas(csvLine) + 1
    ensures JoinFields(columns) == RemoveChar(csvLine, '"')
    ensures forall k | 0 <= k < |columns| :: '"' !in columns[k]
  {
    columns := [];
    var inQuotes := false;
    var currentColumn := "";
    for i := 0 to |csvLine|
      invariant Scan(Start, csvLine[..i]) == CsvState(columns, currentColumn, inQuotes)
    {
      var character := csvLine[i];
      if character == '"' {
        inQuotes := !inQuotes;
      } else if character == ',' && !inQuotes {
        columns := columns + [currentColumn];
        currentColumn := "";
      } else {
        currentColumn := currentColumn + [character];
      }
      assert csvLine[..i + 1][..i] == csvLine[..i];
    }
    assert csvLine[..|csvLine|] == csvLine;
    columns := columns + [currentColumn];
    ColumnCount(csvLine);
    ColumnsJoinToLine(csvLine);
    ColumnsHaveNoQuotes(csvLine);
  }

  /** The number of commas in `s` that are preceded by an even number of '"'. */
  function UnquotedCommas(s: string): nat {
    if s == [] then 0
    else
      var init := s[..|s| - 1];
      UnquotedCommas(init) + (if s[|s| - 1] == ',' && Count(init, '"') % 2 == 0 then 1 else 0)
  }

  /** The fields separated by ",": string.Join(",", fields). */
  function JoinFields(fields: seq<string>): string
    requires fields != []
  {
    if |fields| == 1 then fields[0]
    else JoinFields(fields[..|fields| - 1]) + "," + fields[|fields| - 1]
  }

  /** The quote is open exactly after an odd number of '"', and every unquoted comma closed a field. */
  lemma {:induction false} ScanCounts(s: string)
    ensures Scan(Start, s).inQuotes <==> Count(s, '"') % 2 == 1
    ensures |Scan(Start, s).columns| == UnquotedCommas(s)
  {
    if s != [] {
      ScanCounts(s[..|s| - 1]);
    }
  }

  /** ParseCsvColumns returns one more field than there are commas outside quotes. */
  lemma ColumnCount(line: string)
    ensures |Columns(line)| == UnquotedCommas(line) + 1
  {
    ScanCounts(line);
  }

  /** Joining the fields with "," gives back the line without its '"' characters. */
  lemma ColumnsJoinToLine(line: string)
    ensures JoinFields(Columns(line)) == RemoveChar(line, '"')
  {
    ScanJoin(line);
  }

  lemma {:induction false} ScanJoin(s: string)
    ensures var st := Scan(Start, s); JoinFields(st.columns + [st.current]) == RemoveChar(s, '"')
  {
    if s != [] {
      var init, c := s[..|s| - 1], s[|s| - 1];
      ScanJoin(init);
      var st := Scan(Start, init);
      var fields := st.columns + [st.current];
      if c == '"' {
      } else if c == ',' && !st.inQuotes {
        assert (fields + [""])[..|fields|] == fields;
      } else {
        JoinExtendLast(st.columns, st.current, c);
      }
    }
  }

  lemma JoinExtendLast(columns: seq<string>, current: string, c: char)
    ensures JoinFields(columns + [current + [c]]) == JoinFields(columns + [current]) + [c]
  {
    var a, b := columns + [current + [c]], columns + [current];
    assert a[..|a| - 1] == columns && b[..|b| - 1] == columns;
  }

  /** No field contains a '"'. */
  lemma ColumnsHaveNoQuotes(line: string)
    ensures forall k | 0 <= k < |Columns(line)| :: '"' !in Columns(line)[k]
  {
    ScanNoQuotes(line);
  }

  lemma {:induction false} ScanNoQuotes(s: string)
    ensures var st := Scan(Start, s);
            '"' !in st.current && forall k | 0 <= k < |st.columns| :: '"' !in st.columns[k]
  {
    if s != [] {
      ScanNoQuotes(s[..|s| - 1]);
    }
  }

  /** Feeding `a` then `b` is feeding `a + b`. */
  lemma {:induction false} ScanAppend(st: CsvState, a: string, b: string)
    ensures Scan(st, a + b) == Scan(Scan(st, a), b)
    decreases |b|
  {
    if b == [] {
      assert a + b == a;
    } else {
      var b' := b[..|b| - 1];
      assert (a + b)[..|a + b| - 1] == a + b';
      ScanAppend(st, a, b');
    }
  }

  /** Characters other than '"', and commas only inside quotes, are appended to the current field. */
  lemma {:induction false} ScanLiteral(st: CsvState, t: string)
    requires '"' !in t
    requires !st.inQuotes ==> ',' !in t
    ensures Scan(st, t) == CsvState(st.columns, st.current + t, st.inQuotes)
  {
    if t != [] {
      var t' := t[..|t| - 1];
      ScanLiteral(st, t');
      assert st.current + t' + [t[|t| - 1]] == st.current + t;
    }
  }

  // ---------------------------------------------------------------------
  // Writing fields so that ParseCsvColumns reads them back

  /** A field is written bare, or between quotes when it contains a comma. */
  function EncodeField(f: string): string {
    if ',' in f then "\"" + f + "\"" else f
  }

  function EncodeRow(fields: seq<string>): string
    requires fields != []
  {
    if |fields| == 1 then EncodeField(fields[0])
    else EncodeRow(fields[..|fields| - 1]) + "," + EncodeField(fields[|fields| - 1])
  }

  /** An encoded field, read from the start of a field, becomes the current field. */
  lemma ScanField(columns: seq<string>, f: string)
    requires '"' !in f
    ensures Scan(CsvState(columns, "", false), EncodeField(f)) == CsvState(columns, f, false)
  {
    var st := CsvState(columns, "", false);
    if ',' in f {
      var q := "\"";
      ScanAppend(st, q + f, q);
      ScanAppend(st, q, f);
      assert Scan(st, q) == CsvState(columns, "", true) by {
        assert q[..0] == [];
      }
      ScanLiteral(CsvState(columns, "", true), f);
      assert Scan(CsvState(columns, f, true), q) == CsvState(columns, f, false) by {
        assert q[..0] == [];
      }
    } else {
      ScanLiteral(st, f);
    }
  }

  /** Fields without '"' written with EncodeRow are read back exactly. */
  lemma {:induction false} EncodeRowRoundTrip(fields: seq<string>)
    requires fields != []
    requires forall k | 0 <= k < |fields| :: '"' !in fields[k]
    ensures Columns(EncodeRow(fields)) == fields
  {
    ScanEncodedRow(fields);
    assert fields[..|fields| - 1] + [fields[|fields| - 1]] == fields;
  }

  lemma {:induction false} ScanEncodedRow(fields: seq<string>)
    requires fields != []
    requires forall k | 0 <= k < |fields| :: '"' !in fields[k]
    ensures Scan(Start, EncodeRow(fields)) == CsvState(fields[..|fields| - 1], fields[|fields| - 1], false)
  {
    var last := fields[|fields| - 1];
    if |fields| == 1 {
      ScanField([], last);
    } else {
      var init := fields[..|fields| - 1];
      ScanEncodedRow(init);
      var prefix := EncodeRow(init);
      ScanAppend(Start, prefix + ",", EncodeField(last));
      ScanAppend(Start, prefix, ",");
      var afterComma := CsvState(init[..|init| - 1] + [init[|init| - 1]], "", false);
      assert Scan(Scan(Start, prefix), ",") == afterComma by {
        assert ","[..0] == [];
      }
      assert init[..|init| - 1] + [init[|init| - 1]] == init;
      ScanField(init, last);
    }
  }

  /** The comma inside the quoted name stays in the first of the three fields. */
  lemma QuotedCommaExample()
    ensures Columns("\"Smith, John\",100.00,01/01/2025") == ["Smith, John", "100.00", "01/01/2025"]
  {
    var fields := ["Smith, John", "100.00", "01/01/2025"];
    ExampleRowEncoding();
    assert forall k | 0 <= k < |fields| :: '"' !in fields[k] by {
      forall k | 0 <= k < |fields| ensures '"' !in fields[k] {
        forall j | 0 <= j < |fields[k]| ensures fields[k][j] != '"' { }
      }
    }
    EncodeRowRoundTrip(fields);
  }

  lemma ExampleRowEncoding()
    ensures EncodeRow(["Smith, John", "100.00", "01/01/2025"]) == "\"Smith, John\",100.00,01/01/2025"
  {
    var name, amount, date := "Smith, John", "100.00", "01/01/2025";
    var fields := [name, amount, date];
    ExampleFieldEncodings();
    assert fields[..2][..1] == [name];
    assert fields[..2] == [name, amount];
    assert EncodeRow([name]) == "\"" + name + "\"";
    assert EncodeRow([name, amount]) == "\"" + name + "\"" + "," + amount;
    assert EncodeRow(fields) == "\"" + name + "\"" + "," + amount + "," + date;
  }

  lemma ExampleFieldEncodings()
    ensures EncodeField("Smith, John") == "\"Smith, John\""
    ensures EncodeField("100.00") == "100.00"
    ensures EncodeField("01/01/2025") == "01/01/2025"
  {
    var name, amount, date := "Smith, John", "100.00", "01/01/2025";
    assert name[5] == ',';
    assert ',' !in amount by {
      forall k | 0 <= k < |amount| ensures amount[k] != ',' { }
    }
    assert ',' !in date by {
      forall k | 0 <= k < |date| ensures date[k] != ',' { }
    }
  }

  // ---------------------------------------------------------------------
  // ParseCsvLine

  /** The upload form's settings (StatementUpload.UploadModel). */
  datatype UploadModel = UploadModel(
    hasHeaderRow: bool, dateColumnIndex: int, amountColumnIndex: int,
    descriptionColumnIndex: int, dateFormat: string)

  /** The accepted date formats, in the order they are tried. */
  const StatementFormats: seq<DateFormat> :=
    [DayMonthYear, MonthDayYear, IsoDate, DayMonthNameShortYear, DayMonthNameYear]

  /** The invariant culture's Gregorian calendar: "yy" means 1950 to 2049. */
  const InvariantTwoDigitYearMax: int := 2049

  /** A '£' decoded with the wrong encoding arrives as U+FFFD, the replacement character. */
  const Replacement: char := '\U{FFFD}'

  function Max(a: int, b: int): int {
    if a < b then b else a
  }

  /** The largest configured column index; a line needs more columns than this. */
  function MaxColumnIndex(u: UploadModel): int {
    Max(u.amountColumnIndex, Max(u.dateColumnIndex, u.descriptionColumnIndex))
  }

  /** The trimmed contents of the fixed statement columns 0, 2, 3 and 4. */
  datatype StatementRow = StatementRow(date: string, description: string, paidOut: string, paidIn: string)

  function RowOf(columns: seq<string>): StatementRow
    requires |columns| >= 5
  {
    StatementRow(Trim(columns[0]), Trim(columns[2]), Trim(columns[3]), Trim(columns[4]))
  }

  /** Six digits, one white-space character and eight digits, starting at i. */
  predicate AccountNumberAt(s: string, i: nat) {
    i + 15 <= |s| && AllDigits(s[i..i + 6]) && IsWhiteSpace(s[i + 6]) && AllDigits(s[i + 7..i + 15])
  }

  /** Regex `\d{6}\s\d{8}` IsMatch, searching from position k on. */
  function MatchesAccountNumber(s: string, k: nat): (r: bool)
    ensures r <==> exists i: nat | k <= i :: AccountNumberAt(s, i)
    decreases |s| - k
  {
    if k + 15 > |s| then
      assert forall i: nat | k <= i :: !AccountNumberAt(s, i);
      false
    else AccountNumberAt(s, k) || MatchesAccountNumber(s, k + 1)
  }

  /** A statement row is income when its paid-in column holds the mangled '£'. */
  predicate IsIncomeRow(row: StatementRow) {
    Replacement in row.paidIn
  }

  /** The amount column of a row: paid in for income, paid out otherwise, without U+FFFD. */
  function AmountText(row: StatementRow): string {
    RemoveChar(if IsIncomeRow(row) then row.paidIn else row.paidOut, Replacement)
  }

  /**
   * The checks inside the try block of ParseCsvLine, in source order: the
   * date, then the transfer pattern, then the amount.
   */
  function ParseRow(row: StatementRow): (r: Option<CashflowDto>)
    ensures r.Some? <==>
              && TryParseExact(row.date, StatementFormats, InvariantTwoDigitYearMax).Some?
              && !MatchesAccountNumber(row.description, 0)
              && ParseDecimal(AmountText(row)).Some?
    ensures r.Some? ==>
              && (r.value.IncomeDto? <==> IsIncomeRow(row))
              && r.value.name == row.description
              && Some(r.value.amount) == ParseDecimal(AmountText(row))
              && Some(r.value.paymentDate) == TryParseExact(row.date, StatementFormats, InvariantTwoDigitYearMax)
              && r.value.category == (if IsIncomeRow(row) then None else Some(""))
  {
    var date := TryParseExact(row.date, StatementFormats, InvariantTwoDigitYearMax);
    if date.None? then None
    else if MatchesAccountNumber(row.description, 0) then None
    else
      var amount := ParseDecimal(AmountText(row));
      if amount.None? then None
      else if IsIncomeRow(row) then Some(NewIncomeDto(row.description, amount.value, date.value))
      else Some(NewExpenditureDto(row.description, amount.value, date.value))
  }

  /**
   * ParseCsvLine: too few columns for the configured indices gives no row;
   * fewer than five columns makes the fixed column reads fail, which the
   * catch block turns into no row as well.
   */
  function ParseCsvLine(csvLine: string, upload: UploadModel): (r: Option<CashflowDto>)
    ensures |Columns(csvLine)| <= MaxColumnIndex(upload) || |Columns(csvLine)| < 5 ==> r.None?
    ensures |Columns(csvLine)| > MaxColumnIndex(upload) && |Columns(csvLine)| >= 5 ==> r == ParseRow(RowOf(Columns(csvLine)))
  {
    var columns := Columns(csvLine);
    if |columns| <= MaxColumnIndex(upload) then None
    else if |columns| < 5 then None
    else ParseRow(RowOf(columns))
  }

  /** The configured indices only gate the column count, and the configured date format is never read. */
  lemma ConfigurationIgnored(line: string, u1: UploadModel, u2: UploadModel)
    requires |Columns(line)| > MaxColumnIndex(u1) && |Columns(line)| > MaxColumnIndex(u2)
    ensures ParseCsvLine(line, u1) == ParseCsvLine(line, u2)
  {
  }

  /** A description holding an account-number pair anywhere marks a transfer, which is dropped. */
  lemma TransfersSkipped(row: StatementRow, i: nat)
    requires AccountNumberAt(row.description, i)
    ensures ParseRow(row).None?
  {
  }

  /** The test file's transfer description is recognised. */
  lemma DummyAccountNumberIsTransfer()
    ensures MatchesAccountNumber("000000 00000000", 0)
  {
    var s := "000000 00000000";
    assert s[0..6] == "000000" && s[7..15] == "00000000";
    assert AccountNumberAt(s, 0);
  }

  /** The mangled pound sign in front of an amount is removed. */
  lemma PoundSignDropped(amount: string)
    requires Replacement !in amount
    ensures RemoveChar([Replacement] + amount, Replacement) == amount
  {
    RemoveCharAppend([Replacement], amount, Replacement);
    RemoveAbsentChar(amount, Replacement);
    assert [Replacement][..0] == [];
  }

  /** A statement amount as the bank writes it. */
  lemma TwelvePoundsFifty()
    ensures ParseDecimal("12.50") == Some(12.5)
  {
    assert AmountString(1250) == "12.50" by {
      assert NatString(12) == "12";
      PaddedTwo(50);
    }
    ParseAmountRoundTrip(1250);
    assert PenceValue(1250) == 12.5;
  }

  /** Text of any length but ten is rejected by the three ten-character formats. */
  lemma NotTenCharacters(s: string)
    requires |s| != 10
    ensures forall j | 0 <= j < 3 :: ParseExact(s, StatementFormats[j], InvariantTwoDigitYearMax).None?
  {
    assert StatementFormats[0] == DayMonthYear && StatementFormats[1] == MonthDayYear && StatementFormats[2] == IsoDate;
  }

  /** "27-Sep-25" is rejected by the three ten-character formats and read by "dd-MMM-yy". */
  lemma ShortYearDateExample()
    ensures TryParseExact("27-Sep-25", StatementFormats, InvariantTwoDigitYearMax) == Some(Date(2025, 9, 27))
  {
    var d := Date(2025, 9, 27);
    ShortYearDateText();
    FormatParseRoundTrip(d, DayMonthNameShortYear, InvariantTwoDigitYearMax);
    NotTenCharacters("27-Sep-25");
    FirstAccepting("27-Sep-25", StatementFormats, InvariantTwoDigitYearMax, 3);
  }

  lemma ShortYearDateText()
    ensures FormatDate(Date(2025, 9, 27), DayMonthNameShortYear) == "27-Sep-25"
  {
    PaddedTwo(27);
    PaddedTwo(25);
  }

  /** An ambiguous numeric date is read day first, because "dd/MM/yyyy" is tried first. */
  lemma DayFirstExample()
    ensures TryParseExact("01/02/2025", StatementFormats, InvariantTwoDigitYearMax) == Some(Date(2025, 2, 1))
  {
    DayFirstText();
    FormatParseRoundTrip(Date(2025, 2, 1), DayMonthYear, InvariantTwoDigitYearMax);
    FirstAccepting("01/02/2025", StatementFormats, InvariantTwoDigitYearMax, 0);
  }

  lemma DayFirstText()
    ensures FormatDate(Date(2025, 2, 1), DayMonthYear) == "01/02/2025"
  {
    PaddedExamples();
  }

  /** The zero-padded fields of the example dates. */
  lemma PaddedExamples()
    ensures PaddedDigits(1, 2) == "01" && PaddedDigits(2, 2) == "02" && PaddedDigits(13, 2) == "13"
    ensures PaddedDigits(2025, 4) == "2025"
  {
    PaddedTwo(1);
    PaddedTwo(2);
    PaddedTwo(13);
    PaddedYearExample();
  }

  lemma PaddedYearExample()
    ensures PaddedDigits(2025, 4) == "2025"
  {
    PaddedFour(2025);
  }

  /** A date that is no day in day-first order falls through to "MM/dd/yyyy". */
  lemma MonthFirstFallbackExample()
    ensures TryParseExact("02/13/2025", StatementFormats, InvariantTwoDigitYearMax) == Some(Date(2025, 2, 13))
  {
    MonthFirstText();
    FormatParseRoundTrip(Date(2025, 2, 13), MonthDayYear, InvariantTwoDigitYearMax);
    NoThirteenthMonth();
    FirstAccepting("02/13/2025", StatementFormats, InvariantTwoDigitYearMax, 1);
  }

  lemma MonthFirstText()
    ensures FormatDate(Date(2025, 2, 13), MonthDayYear) == "02/13/2025"
  {
    PaddedExamples();
  }

  /** Read day first, "02/13/2025" has month 13. */
  lemma NoThirteenthMonth()
    ensures ParseExact("02/13/2025", DayMonthYear, InvariantTwoDigitYearMax).None?
  {
    var s := "02/13/2025";
    assert DigitField(s, 3, 2) == Some(13) by {
      assert s[3..5] == "13";
      assert "13"[..1] == "1" && "1"[..0] == [];
      assert DigitsValue("1") == 1;
    }
  }

  // ---------------------------------------------------------------------
  // ProcessBankStatementFile

  /** The driver keeps the line at 0-based position k unless it is the header or blank. */
  predicate Accepted(line: string, k: nat, hasHeaderRow: bool) {
    !(k == 0 && hasHeaderRow) && !IsWhiteSpaceOnly(line)
  }

  /**
   * What each line of the file contributes, in file order, for a given
   * per-line parser: nothing for the header, a blank line or a rejected row.
   */
  function LineResults(lines: seq<string>, hasHeaderRow: bool, parse: string -> Option<CashflowDto>)
    : (rs: seq<Option<CashflowDto>>)
    ensures |rs| == |lines|
  {
    seq(|lines|, k requires 0 <= k < |lines| => if Accepted(lines[k], k, hasHeaderRow) then parse(lines[k]) else None)
  }

  /** The present values of a sequence of options, in order. */
  function Present<T>(rs: seq<Option<T>>): (r: seq<T>)
    ensures |r| <= |rs|
  {
    if rs == [] then []
    else Present(rs[..|rs| - 1]) + (if rs[|rs| - 1].Some? then [rs[|rs| - 1].value] else [])
  }

  /** ParseCsvLine under fixed upload settings. */
  function LineParser(upload: UploadModel): string -> Option<CashflowDto> {
    line => ParseCsvLine(line, upload)
  }

  /** The rows a file yields: the accepted lines' parses, in file order. */
  function Import(lines: seq<string>, upload: UploadModel): seq<CashflowDto> {
    Present(LineResults(lines, upload.hasHeaderRow, LineParser(upload)))
  }

  method ProcessBankStatementFile(lines: seq<string>, uploadModel: UploadModel) returns (cashFlowDtos: seq<CashflowDto>)
    ensures cashFlowDtos == Import(lines, uploadModel)
  {
    cashFlowDtos := ReadLines(lines, uploadModel.hasHeaderRow, LineParser(uploadModel));
  }

  /**
   * The read loop of ProcessBankStatementFile, with the line counter, the
   * header and blank-line skips, and `parse` standing for ParseCsvLine.
   */
  method ReadLines(lines: seq<string>, hasHeaderRow: bool, parse: string -> Option<CashflowDto>)
    returns (cashFlowDtos: seq<CashflowDto>)
    ensures cashFlowDtos == Present(LineResults(lines, hasHeaderRow, parse))
  {
    cashFlowDtos := [];
    var lineNumber := 0;
    var i := 0;
    ghost var results := LineResults(lines, hasHeaderRow, parse);
    while i < |lines|
      invariant 0 <= i <= |lines| && lineNumber == i
      invariant cashFlowDtos == Present(results[..i])
    {
      var line := lines[i];
      assert results[..i + 1][..i] == results[..i];
      i := i + 1;
      lineNumber := lineNumber + 1;

      if lineNumber == 1 && hasHeaderRow {
        continue;
      }
      if IsWhiteSpaceOnly(line) {
        continue;
      }
      var cashFlowDto := parse(line);
      if cashFlowDto.Some? {
        cashFlowDtos := cashFlowDtos + [cashFlowDto.value];
      }
    }
    assert results[..|lines|] == results;
  }

  /** Present distributes over concatenation. */
  lemma {:induction false} PresentAppend<T>(a: seq<Option<T>>, b: seq<Option<T>>)
    ensures Present(a + b) == Present(a) + Present(b)
    decreases |b|
  {
    if b == [] {
      assert a + b == a;
    } else {
      assert (a + b)[..|a + b| - 1] == a + b[..|b| - 1];
      PresentAppend(a, b[..|b| - 1]);
    }
  }

  /** A value is present exactly when some position holds it. */
  lemma {:induction false} PresentMembers<T>(rs: seq<Option<T>>, x: T)
    ensures x in Present(rs) <==> exists k | 0 <= k < |rs| :: rs[k] == Some(x)
    decreases |rs|
  {
    if rs != [] {
      var init := rs[..|rs| - 1];
      PresentMembers(init, x);
      if x in Present(rs) && x !in Present(init) {
        assert rs[|rs| - 1] == Some(x);
      }
      if k :| 0 <= k < |rs| && rs[k] == Some(x) {
        if k < |init| {
          assert init[k] == rs[k];
        }
      }
    }
  }

  /** Without a header row, the lines of a + b contribute what those of a and then of b do. */
  lemma LineResultsAppend(a: seq<string>, b: seq<string>, parse: string -> Option<CashflowDto>)
    ensures LineResults(a + b, false, parse) == LineResults(a, false, parse) + LineResults(b, false, parse)
  {
    var rab, ra, rb := LineResults(a + b, false, parse), LineResults(a, false, parse), LineResults(b, false, parse);
    forall k | 0 <= k < |rab|
      ensures rab[k] == (ra + rb)[k]
    {
      if k < |a| {
        assert (a + b)[k] == a[k];
      } else {
        assert (a + b)[k] == b[k - |a|];
      }
    }
  }

  /** With a header row, the first line contributes nothing and the rest are read as if headerless. */
  lemma LineResultsHeader(lines: seq<string>, parse: string -> Option<CashflowDto>, plain: string -> Option<CashflowDto>)
    requires lines != []
    requires forall line :: plain(line) == parse(line)
    ensures LineResults(lines, true, parse) == [None] + LineResults(lines[1..], false, plain)
  {
    var rs, rest := LineResults(lines, true, parse), LineResults(lines[1..], false, plain);
    forall k | 0 <= k < |rest|
      ensures rest[k] == rs[k + 1]
    {
      assert lines[1..][k] == lines[k + 1];
    }
  }

  /** The upload's header flag is not read when a single line is parsed. */
  lemma HeaderFlagNotRead(upload: UploadModel)
    ensures forall line :: LineParser(upload.(hasHeaderRow := false))(line) == LineParser(upload)(line)
  {
    forall line
      ensures ParseCsvLine(line, upload.(hasHeaderRow := false)) == ParseCsvLine(line, upload)
    {
      assert MaxColumnIndex(upload.(hasHeaderRow := false)) == MaxColumnIndex(upload);
    }
  }

  /** Without a header row, reading a + b is reading a, then reading b. */
  lemma ImportAppend(a: seq<string>, b: seq<string>, upload: UploadModel)
    requires !upload.hasHeaderRow
    ensures Import(a + b, upload) == Import(a, upload) + Import(b, upload)
  {
    LineResultsAppend(a, b, LineParser(upload));
    PresentAppend(LineResults(a, false, LineParser(upload)), LineResults(b, false, LineParser(upload)));
  }

  /** With a header row, the first line is dropped and the rest are read as a headerless file. */
  lemma HeaderSkipped(lines: seq<string>, upload: UploadModel)
    requires upload.hasHeaderRow && lines != []
    ensures Import(lines, upload) == Import(lines[1..], upload.(hasHeaderRow := false))
  {
    var plain := upload.(hasHeaderRow := false);
    HeaderFlagNotRead(upload);
    LineResultsHeader(lines, LineParser(upload), LineParser(plain));
    var rest := LineResults(lines[1..], false, LineParser(plain));
    PresentAppend([None], rest);
    assert Present([None]) == Present<CashflowDto>([]);
  }

  /**
   * A row is imported exactly when some line of the file parses to it, that
   * line being neither blank nor the skipped header.
   */
  lemma ImportedRowsAreAcceptedLines(lines: seq<string>, upload: UploadModel, d: CashflowDto)
    ensures d in Import(lines, upload) <==>
              exists k | 0 <= k < |lines| ::
                Accepted(lines[k], k, upload.hasHeaderRow) && ParseCsvLine(lines[k], upload) == Some(d)
  {
    var rs := LineResults(lines, upload.hasHeaderRow, LineParser(upload));
    PresentMembers(rs, d);
    if k :| 0 <= k < |rs| && rs[k] == Some(d) {
      assert Accepted(lines[k], k, upload.hasHeaderRow);
      assert LineParser(upload)(lines[k]) == ParseCsvLine(lines[k], upload);
    }
    if k :| 0 <= k < |lines| && Accepted(lines[k], k, upload.hasHeaderRow) && ParseCsvLine(lines[k], upload) == Some(d) {
      assert rs[k] == Some(d);
    }
  }

  // ---------------------------------------------------------------------
  // SuggestExpenditureCategory and SuggestIncomeCategory

  /** FirstOrDefault over the rules: the first whose upper-cased pattern occurs in the upper-cased description. */
  function FirstMatch<C>(description: string, rules: seq<Rule<C>>): (r: Option<C>)
    ensures r.None? <==> forall i | 0 <= i < |rules| :: !Contains(ToUpper(description), ToUpper(rules[i].pattern))
    ensures r.Some? ==> exists i | 0 <= i < |rules| ::
                          && r.value == rules[i].category
                          && Contains(ToUpper(description), ToUpper(rules[i].pattern))
                          && forall j | 0 <= j < i :: !Contains(ToUpper(description), ToUpper(rules[j].pattern))
    decreases |rules|
  {
    if rules == [] then None
    else if Contains(ToUpper(description), ToUpper(rules[0].pattern)) then Some(rules[0].category)
    else
      var rest := FirstMatch(description, rules[1..]);
      assert forall i | 1 <= i < |rules| :: rules[i] == rules[1..][i - 1];
      rest
  }

  function SuggestExpenditureCategoryFrom(description: string, rules: seq<MerchantRule>): (r: CategoryType)
    ensures FirstMatch(description, rules).None? ==> r == Miscellaneous
    ensures FirstMatch(description, rules).Some? ==> r == FirstMatch(description, rules).value
  {
    FirstMatch(description, rules).GetOr(Miscellaneous)
  }

  function SuggestIncomeCategoryFrom(description: string, rules: seq<CustomerRule>): (r: IncomeCategoryType)
    ensures FirstMatch(description, rules).None? ==> r == Other
    ensures FirstMatch(description, rules).Some? ==> r == FirstMatch(description, rules).value
  {
    FirstMatch(description, rules).GetOr(Other)
  }

  /** SuggestExpenditureCategory with the shipped rule list. */
  function SuggestExpenditureCategory(description: string): CategoryType {
    SuggestExpenditureCategoryFrom(description, MerchantRules)
  }

  /** SuggestIncomeCategory with the shipped rule list. */
  function SuggestIncomeCategory(description: string): IncomeCategoryType {
    SuggestIncomeCategoryFrom(description, CustomerRules)
  }

  /** The shipped rule lists are empty, so every description gets the default category. */
  lemma ShippedRulesGiveDefaults(description: string)
    ensures SuggestExpenditureCategory(description) == Miscellaneous
    ensures SuggestIncomeCategory(description) == Other
  {
  }

  /** Suggestions ignore case: descriptions equal up to case get the same category. */
  lemma SuggestionIgnoresCase(d1: string, d2: string, rules: seq<MerchantRule>)
    requires EqualsIgnoringCase(d1, d2)
    ensures SuggestExpenditureCategoryFrom(d1, rules) == SuggestExpenditureCategoryFrom(d2, rules)
  {
    FirstMatchIgnoresCase(d1, d2, rules);
  }

  lemma {:induction false} FirstMatchIgnoresCase<C>(d1: string, d2: string, rules: seq<Rule<C>>)
    requires EqualsIgnoringCase(d1, d2)
    ensures FirstMatch(d1, rules) == FirstMatch(d2, rules)
    decreases |rules|
  {
    SameUpperIffEqualsIgnoringCase(d1, d2);
    if rules != [] {
      FirstMatchIgnoresCase(d1, d2, rules[1..]);
    }
  }
}
