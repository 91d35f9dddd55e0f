/** CashflowService.GetCashflowForMonth: which cash-flow items belong to a month. */
module CashflowService {
  import opened Wrappers
  import opened Dates
  import opened Models

  /**
   * The per-item rule. A recurring item needs both window bounds and its
   * window must contain the whole month; a one-off item's payment date must lie
   * in the month, both ends included.
   */
  predicate InMonth(month: MonthDto, item: CashflowDto) {
    if item.recurring then
      && item.startDate.Some? && item.endDate.Some?
      && Le(item.startDate.value, month.startDate)
      && Le(month.endDate, item.endDate.value)
    else
      Le(month.startDate, item.paymentDate) && Le(item.paymentDate, month.endDate)
  }

  /** The items of `items` that are in the month, in input order. */
  function MonthCashflow(month: MonthDto, items: seq<CashflowDto>): (r: seq<CashflowDto>)
    ensures |r| <= |items|
  {
    if items == [] then []
    else
      var last := items[|items| - 1];
      MonthCashflow(month, items[..|items| - 1]) + (if InMonth(month, last) then [last] else [])
  }

  /** `r` is `s` with some elements left out and the rest in their order. */
  predicate IsSubsequence<T(==)>(r: seq<T>, s: seq<T>)
    decreases |s|
  {
    if r == [] then true
    else if s == [] then false
    else (r[|r| - 1] == s[|s| - 1] && IsSubsequence(r[..|r| - 1], s[..|s| - 1]))
         || IsSubsequence(r, s[..|s| - 1])
  }

  /** The three membership rules, spelled out case by case. */
  lemma MembershipRules(month: MonthDto, item: CashflowDto)
    ensures item.recurring && (item.startDate.None? || item.endDate.None?) ==> !InMonth(month, item)
    ensures item.recurring && item.startDate.Some? && item.endDate.Some? ==>
              (InMonth(month, item) <==>
                 Le(item.startDate.value, month.startDate) && Le(month.endDate, item.endDate.value))
    ensures !item.recurring ==>
              (InMonth(month, item) <==>
                 Le(month.startDate, item.paymentDate) && Le(item.paymentDate, month.endDate))
  {
  }

  /** The result is a subsequence of the input: a stable filter. */
  lemma {:induction false} MonthCashflowIsSubsequence(month: MonthDto, items: seq<CashflowDto>)
    ensures IsSubsequence(MonthCashflow(month, items), items)
  {
    if items != [] {
      var init := items[..|items| - 1];
      MonthCashflowIsSubsequence(month, init);
      var r := MonthCashflow(month, items);
      if InMonth(month, items[|items| - 1]) {
        assert r[..|r| - 1] == MonthCashflow(month, init);
      } else {
        assert r == MonthCashflow(month, init);
        SubsequenceOfLonger(r, init, items[|items| - 1]);
      }
    }
  }

  lemma {:induction false} SubsequenceOfLonger<T>(r: seq<T>, s: seq<T>, x: T)
    requires IsSubsequence(r, s)
    ensures IsSubsequence(r, s + [x])
  {
    assert (s + [x])[..|s|] == s;
  }

  /**
   * Every item occurs in the result exactly as often as in the input if it is
   * in the month, and not at all otherwise: nothing is dropped or duplicated.
   */
  lemma {:induction false} MonthCashflowCount(month: MonthDto, items: seq<CashflowDto>, x: CashflowDto)
    ensures multiset(MonthCashflow(month, items))[x] == if InMonth(month, x) then multiset(items)[x] else 0
  {
    if items != [] {
      var init, last := items[..|items| - 1], items[|items| - 1];
      MonthCashflowCount(month, init, x);
      assert items == init + [last];
    }
  }

  /**
   * GetCashflowForMonth: a null list gives the empty result; otherwise the
   * loop keeps the items in the month, in input order.
   */
  method GetCashflowForMonth(month: MonthDto, cashFlow: Option<seq<CashflowDto>>)
    returns (monthCashflow: seq<CashflowDto>)
    ensures cashFlow.None? ==> monthCashflow == []
    ensures cashFlow.Some? ==> monthCashflow == MonthCashflow(month, cashFlow.value)
    ensures cashFlow.Some? ==> IsSubsequence(monthCashflow, cashFlow.value)
    ensures forall x :: multiset(monthCashflow)[x] ==
              if cashFlow.Some? && InMonth(month, x) then multiset(cashFlow.value)[x] else 0
  {
    if cashFlow.None? {
      return [];
    }
    var items := cashFlow.value;
    monthCashflow := [];
    for i := 0 to |items|
      invariant monthCashflow == MonthCashflow(month, items[..i])
    {
      var item := items[i];
      assert items[..i + 1][..i] == items[..i];
      if item.recurring {
        if item.startDate.None? || item.endDate.None? {
          continue;
        }
        if Le(item.startDate.value, month.startDate) && Le(month.endDate, item.endDate.value) {
          monthCashflow := monthCashflow + [item];
        }
      }
      if !item.recurring {
        if Le(month.startDate, item.paymentDate) && Le(item.paymentDate, month.endDate) {
          monthCashflow := monthCashflow + [item];
        }
      }
    }
    assert items[..|items|] == items;
    MonthCashflowIsSubsequence(month, items);
    forall x {
      MonthCashflowCount(month, items, x);
    }
  }

  /**
   * The unit test's four items against January 2026: only the one-off item
   * dated 15 January and the recurring item spanning 1517 to 3000 are kept.
   */
  lemma JanuaryExample()
    ensures
      var month := NewMonthDto("", Date(2026, 1, 1), Date(2026, 1, 31));
      var mid := Date(2026, 1, 15);
      var oneOffOutside := NewExpenditureDto("", 0.0, Date(1517, 10, 31));
      var oneOffInside := NewExpenditureDto("", 0.0, mid);
      var recurring := RecurringExpenditure(mid, Some(Date(1517, 10, 31)), Some(Date(3000, 1, 1)));
      var malformed := RecurringExpenditure(mid, None, None);
      MonthCashflow(month, [oneOffOutside, oneOffInside, recurring, malformed]) == [oneOffInside, recurring]
  {
    var month := NewMonthDto("", Date(2026, 1, 1), Date(2026, 1, 31));
    var mid := Date(2026, 1, 15);
    var a := NewExpenditureDto("", 0.0, Date(1517, 10, 31));
    var b := NewExpenditureDto("", 0.0, mid);
    var c := RecurringExpenditure(mid, Some(Date(1517, 10, 31)), Some(Date(3000, 1, 1)));
    var d := RecurringExpenditure(mid, None, None);
    var items := [a, b, c, d];
    assert items[..3][..2][..1] == [a];
    assert MonthCashflow(month, [a]) == [];
    assert items[..3][..2] == [a, b];
    assert MonthCashflow(month, [a, b]) == [b];
    assert items[..3] == [a, b, c];
    assert MonthCashflow(month, [a, b, c]) == [b, c];
  }

  /** A recurring ExpenditureDto of the unit test, with an optional window. */
  function RecurringExpenditure(paymentDate: Date, startDate: Option<Date>, endDate: Option<Date>): CashflowDto {
    ExpenditureDto(0, "", 0.0, paymentDate, true, startDate, endDate, 0, Some(""), Projected, None)
  }
}
