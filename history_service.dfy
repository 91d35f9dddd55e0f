/**
 * HistoryService.GetHistoricalMonths: the calendar months from a start date
 * to an end date, each with its first and last day and its display name.
 */
module HistoryService {
  import opened Text
  import opened Dates
  import opened Models

  /** The full English month names ("MMMM" in an English culture). */
  const MonthNames: seq<string> :=
    ["January", "February", "March", "April", "May", "June",
     "July", "August", "September", "October", "November", "December"]

  /** ToString("MMMM yyyy"): the full month name, a space and the zero-padded four-digit year. */
  function MonthYearName(d: Date): string
    requires InRange(d)
  {
    assert Pow10(4) == 10000;
    MonthNames[d.month - 1] + " " + PaddedDigits(d.year, 4)
  }

  /** The entry for the month the cursor is in: its first day, its last day and its name. */
  function MonthEntry(cursor: Date): (m: MonthDto)
    requires InRange(cursor)
    ensures m.startDate == FirstOfMonth(cursor.year, cursor.month)
    ensures m.endDate == LastOfMonth(cursor.year, cursor.month)
    ensures InRange(m.startDate) && m.name == MonthYearName(m.startDate)
  {
    var monthStart := FirstOfMonth(cursor.year, cursor.month);
    LastDayOfMonth(cursor.year, cursor.month);
    NewMonthDto(MonthYearName(monthStart), monthStart, PreviousDay(AddMonths(monthStart, 1)))
  }

  /**
   * The entries produced while the cursor, advanced one month at a time from
   * `cursor` with its day clamped by AddMonths, is not after `endDate`.
   */
  function HistoricalMonths(cursor: Date, endDate: Date): seq<MonthDto>
    requires Valid(cursor) && 1 <= cursor.year && InRange(endDate)
    decreases MonthIndex(endDate) - MonthIndex(cursor) + 1
  {
    if !Le(cursor, endDate) then []
    else
      LeMonthIndex(cursor, endDate);
      [MonthEntry(cursor)] + HistoricalMonths(AddMonths(cursor, 1), endDate)
  }

  method GetHistoricalMonths(startDate: Date, endDate: Date) returns (months: seq<MonthDto>)
    requires InRange(startDate) && InRange(endDate)
    ensures months == HistoricalMonths(startDate, endDate)
  {
    months := [];
    // The source advances its startDate parameter; Dafny parameters are immutable.
    var cursor := startDate;
    while Le(cursor, endDate)
      invariant Valid(cursor) && 1 <= cursor.year
      invariant months + HistoricalMonths(cursor, endDate) == HistoricalMonths(startDate, endDate)
      decreases MonthIndex(endDate) - MonthIndex(cursor) + 1
    {
      Step(months, cursor, startDate, endDate);
      // MonthEntry computes monthStart, monthEnd and the name.
      months := months + [MonthEntry(cursor)];
      cursor := AddMonths(cursor, 1);
    }
  }

  /** One loop step: a cursor not past the end contributes its month's entry. */
  lemma Step(months: seq<MonthDto>, cursor: Date, startDate: Date, endDate: Date)
    requires Valid(cursor) && 1 <= cursor.year && InRange(startDate) && InRange(endDate) && Le(cursor, endDate)
    requires months + HistoricalMonths(cursor, endDate) == HistoricalMonths(startDate, endDate)
    ensures InRange(cursor) && MonthIndex(cursor) <= MonthIndex(endDate)
    ensures var next := AddMonths(cursor, 1);
            (months + [MonthEntry(cursor)]) + HistoricalMonths(next, endDate) == HistoricalMonths(startDate, endDate)
  {
    LeMonthIndex(cursor, endDate);
    var rest := HistoricalMonths(AddMonths(cursor, 1), endDate);
    assert HistoricalMonths(cursor, endDate) == [MonthEntry(cursor)] + rest;
    Regroup(months, MonthEntry(cursor), rest);
  }

  lemma Regroup<T>(a: seq<T>, x: T, b: seq<T>)
    ensures (a + [x]) + b == a + ([x] + b)
  {
  }

  /** A start after the end gives no months. */
  lemma EmptyWhenStartAfterEnd(startDate: Date, endDate: Date)
    requires InRange(startDate) && InRange(endDate) && Lt(endDate, startDate)
    ensures HistoricalMonths(startDate, endDate) == []
  {
  }

  /**
   * The entry of the calendar month with index `index`: it starts on day 1,
   * ends on the month's last day (29 February in leap years), carries the
   * month's name, and starts no later than the end date.
   */
  predicate IsEntryOfMonth(m: MonthDto, index: int, endDate: Date) {
    && MonthIndex(m.startDate) == index
    && m.startDate.day == 1
    && InRange(m.startDate)
    && m == MonthEntry(m.startDate)
    && Le(m.startDate, endDate)
  }

  lemma FirstEntry(cursor: Date, endDate: Date)
    requires InRange(cursor) && Le(cursor, endDate)
    ensures IsEntryOfMonth(MonthEntry(cursor), MonthIndex(cursor), endDate)
  {
  }

  /** Entry k is the entry of month `first + k`. */
  predicate SuccessiveEntries(r: seq<MonthDto>, first: int, endDate: Date) {
    forall k | 0 <= k < |r| :: IsEntryOfMonth(r[k], first + k, endDate)
  }

  /** Entry k is the entry of the k-th month after the cursor's. */
  lemma EntriesAreSuccessiveMonths(cursor: Date, endDate: Date)
    requires Valid(cursor) && 1 <= cursor.year && InRange(endDate)
    ensures SuccessiveEntries(HistoricalMonths(cursor, endDate), MonthIndex(cursor), endDate)
  {
    forall k | 0 <= k < |HistoricalMonths(cursor, endDate)|
      ensures IsEntryOfMonth(HistoricalMonths(cursor, endDate)[k], MonthIndex(cursor) + k, endDate)
    {
      EntryAt(cursor, endDate, k);
    }
  }

  lemma {:induction false} EntryAt(cursor: Date, endDate: Date, k: nat)
    requires Valid(cursor) && 1 <= cursor.year && InRange(endDate)
    requires k < |HistoricalMonths(cursor, endDate)|
    ensures IsEntryOfMonth(HistoricalMonths(cursor, endDate)[k], MonthIndex(cursor) + k, endDate)
    decreases k
  {
    UnfoldAt(cursor, endDate, k);
    if k == 0 {
      FirstEntry(cursor, endDate);
    } else {
      EntryAt(AddMonths(cursor, 1), endDate, k - 1);
    }
  }

  /** Entry k of a non-empty list is the cursor's entry or entry k - 1 from the next month on. */
  lemma UnfoldAt(cursor: Date, endDate: Date, k: nat)
    requires Valid(cursor) && 1 <= cursor.year && InRange(endDate)
    requires k < |HistoricalMonths(cursor, endDate)|
    ensures InRange(cursor) && Le(cursor, endDate)
    ensures MonthIndex(AddMonths(cursor, 1)) == MonthIndex(cursor) + 1
    ensures Valid(AddMonths(cursor, 1)) && 1 <= AddMonths(cursor, 1).year
    ensures k == 0 ==> HistoricalMonths(cursor, endDate)[k] == MonthEntry(cursor)
    ensures k > 0 ==> k - 1 < |HistoricalMonths(AddMonths(cursor, 1), endDate)|
                      && HistoricalMonths(cursor, endDate)[k] == HistoricalMonths(AddMonths(cursor, 1), endDate)[k - 1]
  {
    Unfold(cursor, endDate);
    var rest := HistoricalMonths(AddMonths(cursor, 1), endDate);
    if k > 0 {
      assert ([MonthEntry(cursor)] + rest)[k] == rest[k - 1];
    }
  }

  /** A cursor that yields an entry is in range and not past the end; the list is its entry, then the rest. */
  lemma Unfold(cursor: Date, endDate: Date)
    requires Valid(cursor) && 1 <= cursor.year && InRange(endDate)
    requires |HistoricalMonths(cursor, endDate)| > 0
    ensures InRange(cursor) && Le(cursor, endDate)
    ensures HistoricalMonths(cursor, endDate) == [MonthEntry(cursor)] + HistoricalMonths(AddMonths(cursor, 1), endDate)
  {
    LeMonthIndex(cursor, endDate);
  }

  /** Consecutive entries are consecutive calendar months: no gaps and no repeats. */
  lemma ConsecutiveEntries(startDate: Date, endDate: Date, k: nat)
    requires InRange(startDate) && InRange(endDate)
    requires k + 1 < |HistoricalMonths(startDate, endDate)|
    ensures var r := HistoricalMonths(startDate, endDate);
            MonthIndex(r[k + 1].startDate) == MonthIndex(r[k].startDate) + 1
            && Lt(r[k].startDate, r[k + 1].startDate)
  {
    EntriesAreSuccessiveMonths(startDate, endDate);
    var r := HistoricalMonths(startDate, endDate);
    assert IsEntryOfMonth(r[k], MonthIndex(startDate) + k, endDate);
    assert IsEntryOfMonth(r[k + 1], MonthIndex(startDate) + k + 1, endDate);
  }

  /**
   * The start's month to the end's month are n + 1 calendar months; the list
   * has n + 1 or n entries, since the end's month is missed when the advanced
   * cursor's day is past the end's day.
   */
  lemma {:induction false} MonthCount(cursor: Date, endDate: Date)
    requires Valid(cursor) && 1 <= cursor.year && InRange(endDate) && Le(cursor, endDate)
    ensures var n := MonthIndex(endDate) - MonthIndex(cursor);
            n <= |HistoricalMonths(cursor, endDate)| <= n + 1
    decreases MonthIndex(endDate) - MonthIndex(cursor) + 1
  {
    LeMonthIndex(cursor, endDate);
    var next := AddMonths(cursor, 1);
    if Le(next, endDate) {
      MonthCount(next, endDate);
    } else {
      assert MonthIndex(endDate) <= MonthIndex(next);
    }
  }

  /** Starting on the first of a month, every month up to the end's is listed. */
  lemma {:induction false} FirstOfMonthCount(cursor: Date, endDate: Date)
    requires Valid(cursor) && 1 <= cursor.year && InRange(endDate) && Le(cursor, endDate)
    requires cursor.day == 1
    ensures |HistoricalMonths(cursor, endDate)| == MonthIndex(endDate) - MonthIndex(cursor) + 1
    decreases MonthIndex(endDate) - MonthIndex(cursor) + 1
  {
    LeMonthIndex(cursor, endDate);
    var next := AddMonths(cursor, 1);
    if MonthIndex(next) <= MonthIndex(endDate) {
      assert Le(next, endDate);
      FirstOfMonthCount(next, endDate);
    } else {
      assert !Le(next, endDate);
    }
  }

  /** 1 January to 31 December gives the twelve months of the year. */
  lemma FullYearExample()
    ensures |HistoricalMonths(Date(2025, 1, 1), Date(2025, 12, 31))| == 12
  {
    FirstOfMonthCount(Date(2025, 1, 1), Date(2025, 12, 31));
  }

  /** 1 October to 27 December gives October, November and December. */
  lemma QuarterExample()
    ensures |HistoricalMonths(Date(2025, 10, 1), Date(2025, 12, 27))| == 3
  {
    FirstOfMonthCount(Date(2025, 10, 1), Date(2025, 12, 27));
  }

  /** February of a leap year is listed ending on the 29th, of a common year on the 28th. */
  lemma FebruaryEntry(y: int)
    requires 1 <= y <= 9999
    ensures var r := HistoricalMonths(Date(y, 2, 1), Date(y, 2, 28));
            |r| == 1 && r[0].startDate == Date(y, 2, 1)
            && r[0].endDate == Date(y, 2, if IsLeapYear(y) then 29 else 28)
  {
    var s, e := Date(y, 2, 1), Date(y, 2, 28);
    assert AddMonths(s, 1) == Date(y, 3, 1);
    assert HistoricalMonths(Date(y, 3, 1), e) == [];
    assert HistoricalMonths(s, e) == [MonthEntry(s)];
  }

  /** The names of the unit test's months: "October 2025" and "December 2025". */
  lemma NameExamples()
    ensures MonthYearName(Date(2025, 10, 1)) == "October 2025"
    ensures MonthYearName(Date(2025, 12, 1)) == "December 2025"
  {
    PaddedFour(2025);
  }

  /** 31 January advances to 28 February and 28 March, so March is listed for an end of 30 March. */
  lemma ClampedCursorExample()
    ensures |HistoricalMonths(Date(2025, 1, 31), Date(2025, 3, 30))| == 3
  {
    var e := Date(2025, 3, 30);
    assert AddMonths(Date(2025, 1, 31), 1) == Date(2025, 2, 28);
    assert AddMonths(Date(2025, 2, 28), 1) == Date(2025, 3, 28);
    assert AddMonths(Date(2025, 3, 28), 1) == Date(2025, 4, 28);
    assert |HistoricalMonths(Date(2025, 4, 28), e)| == 0;
    assert |HistoricalMonths(Date(2025, 3, 28), e)| == 1;
    assert |HistoricalMonths(Date(2025, 2, 28), e)| == 2;
  }

  /** 15 January to 10 March: the cursor reaches 15 March, past the end, so March is missed. */
  lemma EndMonthMissedExample()
    ensures |HistoricalMonths(Date(2025, 1, 15), Date(2025, 3, 10))| == 2
  {
    var e := Date(2025, 3, 10);
    assert AddMonths(Date(2025, 1, 15), 1) == Date(2025, 2, 15);
    assert AddMonths(Date(2025, 2, 15), 1) == Date(2025, 3, 15);
    assert |HistoricalMonths(Date(2025, 3, 15), e)| == 0;
    assert |HistoricalMonths(Date(2025, 2, 15), e)| == 1;
  }

  /**
   * The documented behaviour, every month from the start's to the end's: the
   * same loop with the cursor started on the first of the start's month.
   */
  function MonthsFromMonthStart(startDate: Date, endDate: Date): seq<MonthDto>
    requires InRange(startDate) && InRange(endDate)
  {
    HistoricalMonths(FirstOfMonth(startDate.year, startDate.month), endDate)
  }

  /**
   * Started from the first of the month, the list has one entry per calendar
   * month from the start's to the end's, in order, whatever the two days are.
   */
  lemma MonthStartListsEveryMonth(startDate: Date, endDate: Date)
    requires InRange(startDate) && InRange(endDate)
    ensures var r := MonthsFromMonthStart(startDate, endDate);
            var n := MonthIndex(endDate) - MonthIndex(startDate) + 1;
            |r| == (if n > 0 then n else 0)
            && SuccessiveEntries(r, MonthIndex(startDate), endDate)
  {
    var c := FirstOfMonth(startDate.year, startDate.month);
    assert Valid(c) && MonthIndex(c) == MonthIndex(startDate);
    LeMonthIndex(c, endDate);
    if MonthIndex(startDate) <= MonthIndex(endDate) {
      assert Le(c, endDate);
      FirstOfMonthCount(c, endDate);
    }
    EntriesAreSuccessiveMonths(c, endDate);
  }

  /** 15 January to 10 March, counted from 1 January, lists March too. */
  lemma EndMonthListedFromMonthStart()
    ensures |MonthsFromMonthStart(Date(2025, 1, 15), Date(2025, 3, 10))| == 3
  {
    MonthStartListsEveryMonth(Date(2025, 1, 15), Date(2025, 3, 10));
  }
}
