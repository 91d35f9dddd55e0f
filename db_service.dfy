/**
 * DbService: the Expenditures, Incomes and Months tables, the DTO queries
 * over them, the de-duplicating bulk insert of cash-flow DTOs, get-or-create
 * of months by their date range, and the month notes update.
 *
 * The tables are sequences in storage order. Rows added but not yet saved
 * are kept apart from the saved rows, because the service's queries read the
 * database and do not see them. Generated keys are drawn from a per-table
 * counter, in insertion order, when rows are saved.
 */
module DbService {
  import opened Wrappers
  import opened Dates
  import opened Text
  import opened Models

  /**
   * An Expenditures or Incomes row: `cashflowType` is ExpenseType or
   * IncomeType, `categoryId` the category key and `category` the Name of
   * the category entity when there is one.
   */
  datatype CashflowRow = CashflowRow(
    id: int, name: string, amount: real, paymentDate: Date, recurring: bool,
    startDate: Option<Date>, endDate: Option<Date>, cashflowType: CashflowType,
    categoryId: Option<int>, category: Option<string>)

  /** A Months row. */
  datatype Month = Month(
    id: int, name: string, startDate: Date, endDate: Date,
    projectedTotalIncome: real, projectedTotalExpenditure: real, projectedSavings: real,
    notes: string, actualTotalIncome: real, actualTotalExpenditure: real, actualSavings: real)

  const Uncategorized: string := "Uncategorized"

  // ----- Queries -----

  /** The duplicate test of GetExpenditureDto and GetIncomeDto: case-insensitive name, same amount, date and type. */
  predicate SameEntry(row: CashflowRow, name: string, amount: real, paymentDate: Date, t: CashflowType) {
    ToLower(row.name) == ToLower(name) && row.amount == amount && row.paymentDate == paymentDate && row.cashflowType == t
  }

  /** FirstOrDefault over the rows: the index of the first duplicate, if any. */
  function FindRow(rows: seq<CashflowRow>, name: string, amount: real, paymentDate: Date, t: CashflowType): (r: Option<nat>)
    ensures r.Some? ==> r.value < |rows| && SameEntry(rows[r.value], name, amount, paymentDate, t)
    ensures r.Some? ==> forall j | 0 <= j < r.value :: !SameEntry(rows[j], name, amount, paymentDate, t)
    ensures r.None? <==> forall j | 0 <= j < |rows| :: !SameEntry(rows[j], name, amount, paymentDate, t)
  {
    if rows == [] then None
    else if SameEntry(rows[0], name, amount, paymentDate, t) then Some(0)
    else
      var r := FindRow(rows[1..], name, amount, paymentDate, t);
      assert forall j | 1 <= j < |rows| :: rows[j] == rows[1..][j - 1];
      if r.None? then None else Some(r.value + 1)
  }

  /** The ExpenditureDto of a row, as GetExpenditureDtos builds it with the category loaded. */
  function ToExpenditureDto(row: CashflowRow): CashflowDto {
    ExpenditureDto(row.id, row.name, row.amount, row.paymentDate, row.recurring, row.startDate, row.endDate,
                   0, Some(row.category.GetOr(Uncategorized)), row.cashflowType, row.categoryId)
  }

  /**
   * The ExpenditureDto GetExpenditureDto builds: the row is read without its
   * category, so the name is always "Uncategorized".
   */
  function ToLookedUpExpenditureDto(row: CashflowRow): CashflowDto {
    ToExpenditureDto(row.(category := None))
  }

  /** The IncomeDto of a row, as GetIncomeDto builds it: IncomeType is copied, the category is not. */
  function ToIncomeDto(row: CashflowRow): CashflowDto {
    IncomeDto(row.id, row.name, row.amount, row.paymentDate, row.recurring, row.startDate, row.endDate,
              0, None, row.cashflowType, None)
  }

  /** The IncomeDto of a row as GetIncomeDtos builds it: IncomeType is left at its default. */
  function ToIncomeDtoAsWritten(row: CashflowRow): CashflowDto {
    IncomeDto(row.id, row.name, row.amount, row.paymentDate, row.recurring, row.startDate, row.endDate,
              0, None, Projected, None)
  }

  /** `Where(type == t).Select(toDto)`, in storage order. */
  function Select(rows: seq<CashflowRow>, t: CashflowType, toDto: CashflowRow -> CashflowDto): (r: seq<CashflowDto>)
    ensures |r| <= |rows|
  {
    if rows == [] then []
    else
      var last := rows[|rows| - 1];
      Select(rows[..|rows| - 1], t, toDto) + (if last.cashflowType == t then [toDto(last)] else [])
  }

  /** GetExpenditureDtos(t). */
  function ExpenditureDtos(rows: seq<CashflowRow>, t: CashflowType): seq<CashflowDto> {
    Select(rows, t, ToExpenditureDto)
  }

  /** GetIncomeDtos(t) as written. */
  function IncomeDtosAsWritten(rows: seq<CashflowRow>, t: CashflowType): seq<CashflowDto> {
    Select(rows, t, ToIncomeDtoAsWritten)
  }

  /** GetIncomeDtos(t) with IncomeType copied, as GetIncomeDto and GetExpenditureDtos do. */
  function IncomeDtos(rows: seq<CashflowRow>, t: CashflowType): seq<CashflowDto> {
    Select(rows, t, ToIncomeDto)
  }

  /** GetExpenditureDto: the first duplicate, as a DTO. */
  function FindExpenditureDto(rows: seq<CashflowRow>, name: string, amount: real, paymentDate: Date, t: CashflowType): (r: Option<CashflowDto>)
    ensures r.Some? <==> exists k | 0 <= k < |rows| :: SameEntry(rows[k], name, amount, paymentDate, t)
    ensures r.Some? ==> exists k | 0 <= k < |rows| :: SameEntry(rows[k], name, amount, paymentDate, t) && r.value == ToLookedUpExpenditureDto(rows[k])
    ensures r.Some? ==> r.value.ExpenditureDto? && r.value.expenseType == t && r.value.category == Some(Uncategorized)
  {
    match FindRow(rows, name, amount, paymentDate, t)
    case None => None
    case Some(k) => Some(ToLookedUpExpenditureDto(rows[k]))
  }

  /** GetIncomeDto: the first duplicate, as a DTO. */
  function FindIncomeDto(rows: seq<CashflowRow>, name: string, amount: real, paymentDate: Date, t: CashflowType): (r: Option<CashflowDto>)
    ensures r.Some? <==> exists k | 0 <= k < |rows| :: SameEntry(rows[k], name, amount, paymentDate, t)
    ensures r.Some? ==> exists k | 0 <= k < |rows| :: SameEntry(rows[k], name, amount, paymentDate, t) && r.value == ToIncomeDto(rows[k])
  {
    match FindRow(rows, name, amount, paymentDate, t)
    case None => None
    case Some(k) => Some(ToIncomeDto(rows[k]))
  }

  /** The DTOs of a query are exactly the converted rows of the requested type. */
  lemma {:induction false} SelectMembers(rows: seq<CashflowRow>, t: CashflowType, toDto: CashflowRow -> CashflowDto, d: CashflowDto)
    ensures d in Select(rows, t, toDto) <==> exists k | 0 <= k < |rows| :: rows[k].cashflowType == t && d == toDto(rows[k])
  {
    if rows != [] {
      var init := rows[..|rows| - 1];
      SelectMembers(init, t, toDto, d);
      assert forall k | 0 <= k < |init| :: init[k] == rows[k];
    }
  }

  /**
   * GetExpenditureDtos returns every row of the requested type and no other,
   * each with its category's name or "Uncategorized".
   */
  lemma ExpenditureDtosOfType(rows: seq<CashflowRow>, t: CashflowType)
    ensures forall d | d in ExpenditureDtos(rows, t) :: d.ExpenditureDto? && d.expenseType == t
    ensures forall d | d in ExpenditureDtos(rows, t) ::
              exists k | 0 <= k < |rows| :: rows[k].cashflowType == t && d.id == rows[k].id
                && d.category == Some(if rows[k].category.Some? then rows[k].category.value else "Uncategorized")
    ensures forall k | 0 <= k < |rows| && rows[k].cashflowType == t :: ToExpenditureDto(rows[k]) in ExpenditureDtos(rows, t)
  {
    forall d | d in ExpenditureDtos(rows, t)
      ensures d.ExpenditureDto? && d.expenseType == t
      ensures exists k | 0 <= k < |rows| :: rows[k].cashflowType == t && d.id == rows[k].id
                && d.category == Some(if rows[k].category.Some? then rows[k].category.value else "Uncategorized")
    {
      SelectMembers(rows, t, ToExpenditureDto, d);
    }
    forall k | 0 <= k < |rows| && rows[k].cashflowType == t
      ensures ToExpenditureDto(rows[k]) in ExpenditureDtos(rows, t)
    {
      SelectMembers(rows, t, ToExpenditureDto, ToExpenditureDto(rows[k]));
    }
  }

  /** With IncomeType copied, GetIncomeDtos returns every income row of the requested type and no other, typed as requested. */
  lemma IncomeDtosOfType(rows: seq<CashflowRow>, t: CashflowType)
    ensures forall d | d in IncomeDtos(rows, t) :: d.IncomeDto? && d.incomeType == t
    ensures forall k | 0 <= k < |rows| && rows[k].cashflowType == t :: ToIncomeDto(rows[k]) in IncomeDtos(rows, t)
  {
    forall d | d in IncomeDtos(rows, t)
      ensures d.IncomeDto? && d.incomeType == t
    {
      SelectMembers(rows, t, ToIncomeDto, d);
    }
    forall k | 0 <= k < |rows| && rows[k].cashflowType == t
      ensures ToIncomeDto(rows[k]) in IncomeDtos(rows, t)
    {
      SelectMembers(rows, t, ToIncomeDto, ToIncomeDto(rows[k]));
    }
  }

  /** As written, an Actual income row comes back from GetIncomeDtos(Actual) typed Projected. */
  lemma IncomeTypeLostAsWritten(row: CashflowRow)
    requires row.cashflowType == Actual
    ensures IncomeDtosAsWritten([row], Actual) == [ToIncomeDtoAsWritten(row)]
    ensures IncomeDtosAsWritten([row], Actual)[0].incomeType == Projected
  {
    assert [row][..0] == [];
  }

  /** The duplicate lookup ignores the case of ASCII letters in the name. */
  lemma {:induction false} LookupIgnoresCase(rows: seq<CashflowRow>, name: string, other: string, amount: real, paymentDate: Date, t: CashflowType)
    requires EqualsIgnoringCase(name, other)
    ensures FindRow(rows, name, amount, paymentDate, t) == FindRow(rows, other, amount, paymentDate, t)
  {
    SameLowerIffEqualsIgnoringCase(name, other);
    if rows != [] {
      LookupIgnoresCase(rows[1..], name, other, amount, paymentDate, t);
    }
  }

  // ----- Upsert -----

  /** ExpenseType of an ExpenditureDto, IncomeType of an IncomeDto. */
  function DtoType(d: CashflowDto): CashflowType {
    match d
    case ExpenditureDto(_, _, _, _, _, _, _, _, _, expenseType, _) => expenseType
    case IncomeDto(_, _, _, _, _, _, _, _, _, incomeType, _) => incomeType
  }

  /** A saved row already duplicates the DTO. */
  predicate Stored(stored: seq<CashflowRow>, d: CashflowDto) {
    exists k | 0 <= k < |stored| :: SameEntry(stored[k], d.name, d.amount, d.paymentDate, DtoType(d))
  }

  /** The row an upsert adds for a DTO: its fields copied, no category. */
  function NewRow(d: CashflowDto, id: int): CashflowRow {
    CashflowRow(id, d.name, d.amount, d.paymentDate, d.recurring, d.startDate, d.endDate, DtoType(d), None, None)
  }

  /**
   * The rows an upsert of `dtos` adds to the saved rows `stored`, keyed from
   * `nextId` on. Only the saved rows are checked, so two equal DTOs in one
   * batch both get a row.
   */
  function Inserted(stored: seq<CashflowRow>, dtos: seq<CashflowDto>, nextId: int): (r: seq<CashflowRow>)
    ensures |r| <= |dtos|
  {
    if dtos == [] then []
    else
      var rows := Inserted(stored, dtos[..|dtos| - 1], nextId);
      var d := dtos[|dtos| - 1];
      if Stored(stored, d) then rows else rows + [NewRow(d, nextId + |rows|)]
  }

  /** Inserted rows take consecutive keys from `nextId`. */
  lemma {:induction false} InsertedKeys(stored: seq<CashflowRow>, dtos: seq<CashflowDto>, nextId: int)
    ensures forall j | 0 <= j < |Inserted(stored, dtos, nextId)| :: Inserted(stored, dtos, nextId)[j].id == nextId + j
  {
    if dtos != [] {
      var init := dtos[..|dtos| - 1];
      InsertedKeys(stored, init, nextId);
      var rows := Inserted(stored, init, nextId);
      var r := Inserted(stored, dtos, nextId);
      var d := dtos[|dtos| - 1];
      assert r == if Stored(stored, d) then rows else rows + [NewRow(d, nextId + |rows|)];
      forall j | 0 <= j < |r|
        ensures r[j].id == nextId + j
      {
        if j < |rows| {
          assert r[j] == rows[j];
        }
      }
    }
  }

  /** Every inserted row copies a DTO that no saved row duplicates, and has no category. */
  lemma {:induction false} InsertedRowsCopyDtos(stored: seq<CashflowRow>, dtos: seq<CashflowDto>, nextId: int)
    ensures forall row | row in Inserted(stored, dtos, nextId) ::
              row.category.None? && row.categoryId.None?
              && exists k | 0 <= k < |dtos| :: !Stored(stored, dtos[k]) && row == NewRow(dtos[k], row.id)
  {
    if dtos != [] {
      var init := dtos[..|dtos| - 1];
      InsertedRowsCopyDtos(stored, init, nextId);
      assert forall k | 0 <= k < |init| :: init[k] == dtos[k];
    }
  }

  /** A DTO is skipped exactly when a saved row duplicates it; every other DTO gets a row. */
  lemma {:induction false} UnstoredDtosInserted(stored: seq<CashflowRow>, dtos: seq<CashflowDto>, nextId: int, k: nat)
    requires k < |dtos| && !Stored(stored, dtos[k])
    ensures exists row | row in Inserted(stored, dtos, nextId) :: row == NewRow(dtos[k], row.id)
  {
    var init := dtos[..|dtos| - 1];
    if k < |dtos| - 1 {
      assert init[k] == dtos[k];
      UnstoredDtosInserted(stored, init, nextId, k);
    } else {
      var rows := Inserted(stored, init, nextId);
      assert NewRow(dtos[k], nextId + |rows|) in Inserted(stored, dtos, nextId);
    }
  }

  /** When no saved row duplicates any DTO, every DTO gets its own row, repeats included. */
  lemma {:induction false} NothingStoredAllInserted(stored: seq<CashflowRow>, dtos: seq<CashflowDto>, nextId: int)
    requires forall k | 0 <= k < |dtos| :: !Stored(stored, dtos[k])
    ensures |Inserted(stored, dtos, nextId)| == |dtos|
  {
    if dtos != [] {
      var init := dtos[..|dtos| - 1];
      assert forall k | 0 <= k < |init| :: init[k] == dtos[k];
      NothingStoredAllInserted(stored, init, nextId);
    }
  }

  /** After an upsert every DTO has a duplicate among the saved rows, so repeating it inserts nothing. */
  lemma UpsertTwiceInsertsNothing(stored: seq<CashflowRow>, dtos: seq<CashflowDto>, nextId: int, laterId: int)
    ensures var after := stored + Inserted(stored, dtos, nextId);
            (forall k | 0 <= k < |dtos| :: Stored(after, dtos[k]))
            && Inserted(after, dtos, laterId) == []
  {
    var added := Inserted(stored, dtos, nextId);
    var after := stored + added;
    forall k | 0 <= k < |dtos|
      ensures Stored(after, dtos[k])
    {
      var d := dtos[k];
      if Stored(stored, d) {
        var j :| 0 <= j < |stored| && SameEntry(stored[j], d.name, d.amount, d.paymentDate, DtoType(d));
        assert after[j] == stored[j];
      } else {
        UnstoredDtosInserted(stored, dtos, nextId, k);
        var row :| row in added && row == NewRow(d, row.id);
        var j :| 0 <= j < |added| && added[j] == row;
        assert after[|stored| + j] == row;
        assert SameEntry(row, d.name, d.amount, d.paymentDate, DtoType(d));
      }
    }
    AllStoredNothingInserted(after, dtos, laterId);
  }

  lemma {:induction false} AllStoredNothingInserted(stored: seq<CashflowRow>, dtos: seq<CashflowDto>, nextId: int)
    requires forall k | 0 <= k < |dtos| :: Stored(stored, dtos[k])
    ensures Inserted(stored, dtos, nextId) == []
  {
    if dtos != [] {
      var init := dtos[..|dtos| - 1];
      assert forall k | 0 <= k < |init| :: init[k] == dtos[k];
      AllStoredNothingInserted(stored, init, nextId);
    }
  }

  /** Two equal new DTOs in one batch are both inserted. */
  lemma DuplicateBatchExample(stored: seq<CashflowRow>, d: CashflowDto, nextId: int)
    requires !Stored(stored, d)
    ensures Inserted(stored, [d, d], nextId) == [NewRow(d, nextId), NewRow(d, nextId + 1)]
  {
    assert [d, d][..1] == [d];
    assert [d][..0] == [];
  }

  // ----- Months -----

  predicate SameRange(m: Month, startDate: Date, endDate: Date) {
    m.startDate == startDate && m.endDate == endDate
  }

  /** FirstOrDefault(m => m.StartDate == startDate && m.EndDate == endDate): the index of the first such month. */
  function FindMonth(months: seq<Month>, startDate: Date, endDate: Date): (r: Option<nat>)
    ensures r.Some? ==> r.value < |months| && SameRange(months[r.value], startDate, endDate)
    ensures r.Some? ==> forall j | 0 <= j < r.value :: !SameRange(months[j], startDate, endDate)
    ensures r.None? <==> forall j | 0 <= j < |months| :: !SameRange(months[j], startDate, endDate)
  {
    if months == [] then None
    else if SameRange(months[0], startDate, endDate) then Some(0)
    else
      var r := FindMonth(months[1..], startDate, endDate);
      assert forall j | 1 <= j < |months| :: months[j] == months[1..][j - 1];
      if r.None? then None else Some(r.value + 1)
  }

  /** The MonthDto GetOrCreateMonths returns for a row: RunningTotalSavings is not filled. */
  function MonthToDto(m: Month): MonthDto {
    MonthDto(m.id, m.name, m.startDate, m.endDate, m.startDate.year,
             m.projectedTotalIncome, m.projectedTotalExpenditure, m.projectedSavings,
             m.actualTotalExpenditure, m.actualTotalIncome, m.actualSavings, 0.0, m.notes)
  }

  /** The row GetOrCreateMonths inserts: name and range from the DTO, totals zero, notes empty. */
  function NewMonth(dto: MonthDto, id: int): Month {
    Month(id, dto.name, dto.startDate, dto.endDate, 0.0, 0.0, 0.0, "", 0.0, 0.0, 0.0)
  }

  /** The Months table, its key counter and the results so far. */
  datatype MonthsState = MonthsState(months: seq<Month>, nextId: int, results: seq<MonthDto>)

  /** One iteration: reuse the first month with the DTO's range, or insert and save a new one. */
  function StepMonth(s: MonthsState, dto: MonthDto): (r: MonthsState)
    ensures |r.results| == |s.results| + 1 && |r.months| >= |s.months|
  {
    match FindMonth(s.months, dto.startDate, dto.endDate)
    case Some(k) => s.(results := s.results + [MonthToDto(s.months[k])])
    case None =>
      var m := NewMonth(dto, s.nextId);
      MonthsState(s.months + [m], s.nextId + 1, s.results + [MonthToDto(m)])
  }

  /** The state after GetOrCreateMonths(dtos) on the table `months`. */
  function GetOrCreate(months: seq<Month>, nextId: int, dtos: seq<MonthDto>): (r: MonthsState)
    ensures |r.results| == |dtos| && |r.months| >= |months|
  {
    if dtos == [] then MonthsState(months, nextId, [])
    else StepMonth(GetOrCreate(months, nextId, dtos[..|dtos| - 1]), dtos[|dtos| - 1])
  }

  /** Result k is the DTO of the first month in the table with the range of input k. */
  predicate ResultsMatchTable(months: seq<Month>, dtos: seq<MonthDto>, results: seq<MonthDto>) {
    |results| == |dtos|
    && forall k | 0 <= k < |dtos| :: MatchesTable(months, dtos[k], results[k])
  }

  predicate MatchesTable(months: seq<Month>, dto: MonthDto, result: MonthDto) {
    FindMonth(months, dto.startDate, dto.endDate).Some?
    && result == MonthToDto(months[FindMonth(months, dto.startDate, dto.endDate).value])
  }

  /** The first matching row is the one FindMonth returns. */
  lemma FirstMatch(months: seq<Month>, startDate: Date, endDate: Date, i: nat)
    requires i < |months| && SameRange(months[i], startDate, endDate)
    requires forall j | 0 <= j < i :: !SameRange(months[j], startDate, endDate)
    ensures FindMonth(months, startDate, endDate) == Some(i)
  {
  }

  /** Appending a row does not move the first match of a range that already had one. */
  lemma FindMonthAppend(months: seq<Month>, m: Month, startDate: Date, endDate: Date)
    ensures FindMonth(months, startDate, endDate).Some? ==>
              FindMonth(months + [m], startDate, endDate) == FindMonth(months, startDate, endDate)
    ensures FindMonth(months, startDate, endDate).None? && SameRange(m, startDate, endDate) ==>
              FindMonth(months + [m], startDate, endDate) == Some(|months|)
  {
    var ext := months + [m];
    assert forall j | 0 <= j < |months| :: ext[j] == months[j];
    var r := FindMonth(months, startDate, endDate);
    if r.Some? {
      assert SameRange(ext[r.value], startDate, endDate);
      assert forall j | 0 <= j < r.value :: !SameRange(ext[j], startDate, endDate);
    } else if SameRange(m, startDate, endDate) {
      assert SameRange(ext[|months|], startDate, endDate);
      assert forall j | 0 <= j < |months| :: !SameRange(ext[j], startDate, endDate);
    }
  }

  /** A match of the table survives an appended row. */
  lemma MatchesAppend(months: seq<Month>, m: Month, dto: MonthDto, result: MonthDto)
    requires MatchesTable(months, dto, result)
    ensures MatchesTable(months + [m], dto, result)
  {
    FindMonthAppend(months, m, dto.startDate, dto.endDate);
    assert (months + [m])[FindMonth(months, dto.startDate, dto.endDate).value]
        == months[FindMonth(months, dto.startDate, dto.endDate).value];
  }

  /** One iteration keeps every earlier result matched and matches the new one. */
  lemma StepMatches(s: MonthsState, init: seq<MonthDto>, d: MonthDto)
    requires ResultsMatchTable(s.months, init, s.results)
    ensures ResultsMatchTable(StepMonth(s, d).months, init + [d], StepMonth(s, d).results)
  {
    var s' := StepMonth(s, d);
    var dtos := init + [d];
    match FindMonth(s.months, d.startDate, d.endDate)
    case Some(i) =>
      assert forall k | 0 <= k < |init| :: dtos[k] == init[k] && s'.results[k] == s.results[k];
    case None =>
      var m := NewMonth(d, s.nextId);
      FindMonthAppend(s.months, m, d.startDate, d.endDate);
      forall k | 0 <= k < |init|
        ensures MatchesTable(s'.months, dtos[k], s'.results[k])
      {
        assert dtos[k] == init[k] && s'.results[k] == s.results[k];
        MatchesAppend(s.months, m, init[k], s.results[k]);
      }
  }

  /** GetOrCreateMonths leaves the rows that were there as they were. */
  lemma {:induction false} GetOrCreateKeepsRows(months: seq<Month>, nextId: int, dtos: seq<MonthDto>)
    ensures GetOrCreate(months, nextId, dtos).months[..|months|] == months
  {
    if dtos != [] {
      var init := dtos[..|dtos| - 1];
      GetOrCreateKeepsRows(months, nextId, init);
      var s := GetOrCreate(months, nextId, init);
      assert StepMonth(s, dtos[|dtos| - 1]).months[..|s.months|] == s.months;
    }
  }

  /**
   * GetOrCreateMonths gives one result per input, in input order, and each
   * result is the first month in the final table with that input's range.
   */
  lemma {:induction false} GetOrCreateResults(months: seq<Month>, nextId: int, dtos: seq<MonthDto>)
    ensures ResultsMatchTable(GetOrCreate(months, nextId, dtos).months, dtos, GetOrCreate(months, nextId, dtos).results)
  {
    if dtos != [] {
      var init := dtos[..|dtos| - 1];
      GetOrCreateResults(months, nextId, init);
      StepMatches(GetOrCreate(months, nextId, init), init, dtos[|dtos| - 1]);
      assert init + [dtos[|dtos| - 1]] == dtos;
    }
  }

  /** Result k has the range of input k. */
  lemma ResultRanges(months: seq<Month>, nextId: int, dtos: seq<MonthDto>, k: nat)
    requires k < |dtos|
    ensures GetOrCreate(months, nextId, dtos).results[k].startDate == dtos[k].startDate
    ensures GetOrCreate(months, nextId, dtos).results[k].endDate == dtos[k].endDate
  {
    GetOrCreateResults(months, nextId, dtos);
    var r := GetOrCreate(months, nextId, dtos);
    assert MatchesTable(r.months, dtos[k], r.results[k]);
  }

  /** A range that appears twice in one call gets the same month both times: the second is a reuse. */
  lemma RepeatedRangeReused(months: seq<Month>, nextId: int, dtos: seq<MonthDto>, j: nat, k: nat)
    requires j < k < |dtos| && dtos[j].startDate == dtos[k].startDate && dtos[j].endDate == dtos[k].endDate
    ensures GetOrCreate(months, nextId, dtos).results[j] == GetOrCreate(months, nextId, dtos).results[k]
  {
    GetOrCreateResults(months, nextId, dtos);
    var r := GetOrCreate(months, nextId, dtos);
    assert MatchesTable(r.months, dtos[j], r.results[j]);
    assert MatchesTable(r.months, dtos[k], r.results[k]);
  }

  /** A month already stored with the range is returned with its key, totals and notes. */
  lemma ExistingMonthReused(months: seq<Month>, nextId: int, dtos: seq<MonthDto>, k: nat, i: nat)
    requires k < |dtos| && FindMonth(months, dtos[k].startDate, dtos[k].endDate) == Some(i)
    ensures GetOrCreate(months, nextId, dtos).results[k] == MonthToDto(months[i])
  {
    GetOrCreateResults(months, nextId, dtos);
    GetOrCreateKeepsRows(months, nextId, dtos);
    var r := GetOrCreate(months, nextId, dtos);
    assert MatchesTable(r.months, dtos[k], r.results[k]);
    assert forall j | 0 <= j < |months| :: r.months[j] == months[j];
    FirstMatch(r.months, dtos[k].startDate, dtos[k].endDate, i);
  }

  /** Two inputs with the same range on an empty table: one month is created and returned twice. */
  lemma RepeatedRangeExample(d: MonthDto)
    ensures |GetOrCreate([], 1, [d, d]).months| == 1
    ensures GetOrCreate([], 1, [d, d]).results == [MonthToDto(NewMonth(d, 1)), MonthToDto(NewMonth(d, 1))]
  {
    var m := NewMonth(d, 1);
    assert [d, d][..1] == [d];
    assert [d][..0] == [];
    assert GetOrCreate([], 1, [d]) == MonthsState([m], 2, [MonthToDto(m)]);
    FirstMatch([m], d.startDate, d.endDate, 0);
  }

  /** No row of the table shares a key with another. */
  predicate UniqueIds(months: seq<Month>) {
    forall i, j | 0 <= i < |months| && 0 <= j < |months| && months[i].id == months[j].id :: i == j
  }

  predicate MonthIdsBelow(months: seq<Month>, n: int) {
    forall i | 0 <= i < |months| :: months[i].id < n
  }

  /** Inserted months take fresh keys, so keys stay unique and below the counter. */
  lemma {:induction false} GetOrCreateKeys(months: seq<Month>, nextId: int, dtos: seq<MonthDto>)
    requires UniqueIds(months) && MonthIdsBelow(months, nextId)
    ensures UniqueIds(GetOrCreate(months, nextId, dtos).months)
    ensures MonthIdsBelow(GetOrCreate(months, nextId, dtos).months, GetOrCreate(months, nextId, dtos).nextId)
    ensures GetOrCreate(months, nextId, dtos).nextId - nextId == |GetOrCreate(months, nextId, dtos).months| - |months|
  {
    if dtos != [] {
      var init := dtos[..|dtos| - 1];
      GetOrCreateKeys(months, nextId, init);
      var s := GetOrCreate(months, nextId, init);
      var d := dtos[|dtos| - 1];
      if FindMonth(s.months, d.startDate, d.endDate).None? {
        var ms := s.months + [NewMonth(d, s.nextId)];
        assert forall i | 0 <= i < |s.months| :: ms[i] == s.months[i];
        assert GetOrCreate(months, nextId, dtos).months == ms;
      }
    }
  }

  /** Find(monthId): the index of the row with that key. */
  function FindMonthById(months: seq<Month>, monthId: int): (r: Option<nat>)
    ensures r.Some? ==> r.value < |months| && months[r.value].id == monthId
    ensures r.None? <==> forall j | 0 <= j < |months| :: months[j].id != monthId
  {
    if months == [] then None
    else if months[0].id == monthId then Some(0)
    else
      var r := FindMonthById(months[1..], monthId);
      assert forall j | 1 <= j < |months| :: months[j] == months[1..][j - 1];
      if r.None? then None else Some(r.value + 1)
  }

  /** The table after UpdateMonthNotes(monthId, notes). */
  function WithNotes(months: seq<Month>, monthId: int, notes: string): seq<Month> {
    seq(|months|, k requires 0 <= k < |months| => if months[k].id == monthId then months[k].(notes := notes) else months[k])
  }

  /**
   * Updating notes changes only the Notes of the month with that key; with
   * no such month the table is unchanged. Keys and ranges are kept.
   */
  lemma NotesChangeOnlyThatMonth(months: seq<Month>, monthId: int, notes: string)
    ensures |WithNotes(months, monthId, notes)| == |months|
    ensures forall k | 0 <= k < |months| :: WithNotes(months, monthId, notes)[k].(notes := months[k].notes) == months[k]
    ensures forall k | 0 <= k < |months| && months[k].id == monthId :: WithNotes(months, monthId, notes)[k].notes == notes
    ensures FindMonthById(months, monthId).None? ==> WithNotes(months, monthId, notes) == months
    ensures UniqueIds(months) ==> UniqueIds(WithNotes(months, monthId, notes))
  {
  }

  /** A later GetOrCreateMonths for the month's range returns the new notes. */
  lemma {:induction false} NotesVisibleToGetOrCreate(months: seq<Month>, monthId: int, notes: string, startDate: Date, endDate: Date)
    requires FindMonth(months, startDate, endDate).Some?
    requires months[FindMonth(months, startDate, endDate).value].id == monthId
    ensures FindMonth(WithNotes(months, monthId, notes), startDate, endDate) == FindMonth(months, startDate, endDate)
    ensures MonthToDto(WithNotes(months, monthId, notes)[FindMonth(months, startDate, endDate).value]).notes == notes
  {
    var updated := WithNotes(months, monthId, notes);
    var i := FindMonth(months, startDate, endDate).value;
    assert forall j | 0 <= j < |months| :: SameRange(updated[j], startDate, endDate) == SameRange(months[j], startDate, endDate);
    FirstMatch(updated, startDate, endDate, i);
  }

  /** Updating by key: with unique keys only the row at the key's index changes. */
  lemma WithNotesAt(months: seq<Month>, monthId: int, notes: string, i: nat)
    requires UniqueIds(months) && i < |months| && months[i].id == monthId
    ensures WithNotes(months, monthId, notes) == months[i := months[i].(notes := notes)]
  {
  }

  // ----- Keys -----

  predicate RowIdsBelow(rows: seq<CashflowRow>, n: int) {
    forall i | 0 <= i < |rows| :: rows[i].id < n
  }

  predicate UniqueRowIds(rows: seq<CashflowRow>) {
    forall i, j | 0 <= i < |rows| && 0 <= j < |rows| && rows[i].id == rows[j].id :: i == j
  }

  /** Saving inserted rows keeps the keys of a table unique and below its counter. */
  lemma SavedKeysFresh(stored: seq<CashflowRow>, dtos: seq<CashflowDto>, nextId: int)
    requires UniqueRowIds(stored) && RowIdsBelow(stored, nextId)
    ensures UniqueRowIds(stored + Inserted(stored, dtos, nextId))
    ensures RowIdsBelow(stored + Inserted(stored, dtos, nextId), nextId + |Inserted(stored, dtos, nextId)|)
  {
    InsertedKeys(stored, dtos, nextId);
    var added := Inserted(stored, dtos, nextId);
    var all := stored + added;
    assert forall i | 0 <= i < |all| :: all[i].id == if i < |stored| then stored[i].id else nextId + (i - |stored|);
  }

  /**
   * The database behind the service: the three tables as saved, and the
   * next key each table's identity column will generate.
   */
  class Database {
    var expenditures: seq<CashflowRow>
    var incomes: seq<CashflowRow>
    var months: seq<Month>
    var nextExpenditureId: int
    var nextIncomeId: int
    var nextMonthId: int

    /** Keys are unique per table and below the table's counter. */
    ghost predicate Valid()
      reads this
    {
      && UniqueRowIds(expenditures) && RowIdsBelow(expenditures, nextExpenditureId)
      && UniqueRowIds(incomes) && RowIdsBelow(incomes, nextIncomeId)
      && UniqueIds(months) && MonthIdsBelow(months, nextMonthId)
    }

    constructor()
      ensures Valid()
      ensures expenditures == [] && incomes == [] && months == []
      ensures nextExpenditureId == 1 && nextIncomeId == 1 && nextMonthId == 1
    {
      expenditures, incomes, months := [], [], [];
      nextExpenditureId, nextIncomeId, nextMonthId := 1, 1, 1;
    }

    function GetExpenditureDtos(expenditureType: CashflowType): seq<CashflowDto>
      reads this
    {
      ExpenditureDtos(expenditures, expenditureType)
    }

    function GetExpenditureDto(name: string, amount: real, paymentDate: Date, cashflowType: CashflowType): Option<CashflowDto>
      reads this
    {
      FindExpenditureDto(expenditures, name, amount, paymentDate, cashflowType)
    }

    /** GetIncomeDtos with IncomeType copied; see IncomeTypeLostAsWritten for the query as written. */
    function GetIncomeDtos(incomeType: CashflowType): seq<CashflowDto>
      reads this
    {
      IncomeDtos(incomes, incomeType)
    }

    function GetIncomeDto(name: string, amount: real, paymentDate: Date, cashflowType: CashflowType): Option<CashflowDto>
      reads this
    {
      FindIncomeDto(incomes, name, amount, paymentDate, cashflowType)
    }

    /**
     * Adds a row for each DTO no saved expenditure duplicates, then saves
     * them all at once; the generated keys follow the order of the DTOs.
     */
    method UpsertExpenditureDtos(expenditureDtos: seq<CashflowDto>) returns (ok: bool)
      requires Valid() && forall k | 0 <= k < |expenditureDtos| :: expenditureDtos[k].ExpenditureDto?
      modifies this
      ensures Valid() && ok
      ensures expenditures == old(expenditures) + Inserted(old(expenditures), expenditureDtos, old(nextExpenditureId))
      ensures nextExpenditureId == old(nextExpenditureId) + |Inserted(old(expenditures), expenditureDtos, old(nextExpenditureId))|
      ensures incomes == old(incomes) && nextIncomeId == old(nextIncomeId)
      ensures months == old(months) && nextMonthId == old(nextMonthId)
    {
      // The rows added to the context but not saved; the lookups do not see them.
      var pending: seq<CashflowRow> := [];
      for i := 0 to |expenditureDtos|
        invariant pending == Inserted(expenditures, expenditureDtos[..i], nextExpenditureId)
      {
        var expenditureDto := expenditureDtos[i];
        assert expenditureDtos[..i + 1][..i] == expenditureDtos[..i];
        assert DtoType(expenditureDto) == expenditureDto.expenseType;
        var existing := GetExpenditureDto(expenditureDto.name, expenditureDto.amount, expenditureDto.paymentDate, expenditureDto.expenseType);
        if existing.Some? {
          continue;
        }
        // Its key is the one SaveChanges will generate for it.
        pending := pending + [NewRow(expenditureDto, nextExpenditureId + |pending|)];
      }
      assert expenditureDtos[..|expenditureDtos|] == expenditureDtos;
      SavedKeysFresh(expenditures, expenditureDtos, nextExpenditureId);
      expenditures := expenditures + pending;
      nextExpenditureId := nextExpenditureId + |pending|;
      ok := true;
    }

    /** As UpsertExpenditureDtos, for incomes. */
    method UpsertIncomeDtos(incomeDtos: seq<CashflowDto>) returns (ok: bool)
      requires Valid() && forall k | 0 <= k < |incomeDtos| :: incomeDtos[k].IncomeDto?
      modifies this
      ensures Valid() && ok
      ensures incomes == old(incomes) + Inserted(old(incomes), incomeDtos, old(nextIncomeId))
      ensures nextIncomeId == old(nextIncomeId) + |Inserted(old(incomes), incomeDtos, old(nextIncomeId))|
      ensures expenditures == old(expenditures) && nextExpenditureId == old(nextExpenditureId)
      ensures months == old(months) && nextMonthId == old(nextMonthId)
    {
      var pending: seq<CashflowRow> := [];
      for i := 0 to |incomeDtos|
        invariant pending == Inserted(incomes, incomeDtos[..i], nextIncomeId)
      {
        var incomeDto := incomeDtos[i];
        assert incomeDtos[..i + 1][..i] == incomeDtos[..i];
        assert DtoType(incomeDto) == incomeDto.incomeType;
        var existing := GetIncomeDto(incomeDto.name, incomeDto.amount, incomeDto.paymentDate, incomeDto.incomeType);
        if existing.Some? {
          continue;
        }
        pending := pending + [NewRow(incomeDto, nextIncomeId + |pending|)];
      }
      assert incomeDtos[..|incomeDtos|] == incomeDtos;
      SavedKeysFresh(incomes, incomeDtos, nextIncomeId);
      incomes := incomes + pending;
      nextIncomeId := nextIncomeId + |pending|;
      ok := true;
    }

    /** For each DTO, the first month with its range, or a new month saved at once. */
    method GetOrCreateMonths(monthDtos: seq<MonthDto>) returns (results: seq<MonthDto>)
      requires Valid()
      modifies this
      ensures Valid()
      ensures results == GetOrCreate(old(months), old(nextMonthId), monthDtos).results
      ensures months == GetOrCreate(old(months), old(nextMonthId), monthDtos).months
      ensures nextMonthId == GetOrCreate(old(months), old(nextMonthId), monthDtos).nextId
      ensures expenditures == old(expenditures) && nextExpenditureId == old(nextExpenditureId)
      ensures incomes == old(incomes) && nextIncomeId == old(nextIncomeId)
    {
      results := [];
      for i := 0 to |monthDtos|
        invariant MonthsState(months, nextMonthId, results) == GetOrCreate(old(months), old(nextMonthId), monthDtos[..i])
        invariant expenditures == old(expenditures) && nextExpenditureId == old(nextExpenditureId)
        invariant incomes == old(incomes) && nextIncomeId == old(nextIncomeId)
      {
        var monthDto := monthDtos[i];
        assert monthDtos[..i + 1][..i] == monthDtos[..i];
        var existing := FindMonth(months, monthDto.startDate, monthDto.endDate);
        if existing.Some? {
          results := results + [MonthToDto(months[existing.value])];
        } else {
          var newMonth := NewMonth(monthDto, nextMonthId);
          months := months + [newMonth];
          nextMonthId := nextMonthId + 1;
          // Id, Name, StartDate, EndDate and Year; the totals are zero and the notes empty.
          results := results + [MonthToDto(newMonth)];
        }
      }
      assert monthDtos[..|monthDtos|] == monthDtos;
      GetOrCreateKeys(old(months), old(nextMonthId), monthDtos);
    }

    /** Sets the notes of the month with the key; false when there is none. */
    method UpdateMonthNotes(monthId: int, notes: string) returns (found: bool)
      requires Valid()
      modifies this
      ensures Valid()
      ensures found <==> FindMonthById(old(months), monthId).Some?
      ensures months == WithNotes(old(months), monthId, notes)
      ensures nextMonthId == old(nextMonthId)
      ensures expenditures == old(expenditures) && nextExpenditureId == old(nextExpenditureId)
      ensures incomes == old(incomes) && nextIncomeId == old(nextIncomeId)
    {
      NotesChangeOnlyThatMonth(months, monthId, notes);
      var month := FindMonthById(months, monthId);
      if month.None? {
        return false;
      }
      var k := month.value;
      WithNotesAt(months, monthId, notes, k);
      months := months[k := months[k].(notes := notes)];
      return true;
    }
  }
}
