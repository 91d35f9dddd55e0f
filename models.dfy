/**
 * The view-side records (Components/Models): the cash-flow DTOs, the month
 * DTO, the category enums and the category-suggestion rules.
 */
module Models {
  import opened Wrappers
  import opened Dates

  datatype CategoryType =
    | Housing | Utilities | Groceries | Tithing | Car | Healthcare | Insurance
    | DebtRepayment | Savings | Entertainment | DiningOut | PersonalCare
    | Education | Miscellaneous | Home

  datatype IncomeCategoryType = Salary | Lodger | Investment | Bonus | Gift | Other

  /** Projected = 0 is the enum's default value, Actual = 1. */
  datatype CashflowType = Projected | Actual

  /**
   * CashflowDto with its two concrete subclasses as constructors. The base
   * fields are shared; `recurring` and the optional window are kept apart, so a
   * recurring item without a window can be represented, as in the source.
   * `category` is ExpenditureDto.Category (default "") or IncomeDto.Category
   * (default null).
   */
  datatype CashflowDto =
    | ExpenditureDto(id: int, name: string, amount: real, paymentDate: Date,
                     recurring: bool, startDate: Option<Date>, endDate: Option<Date>,
                     userId: int, category: Option<string>,
                     expenseType: CashflowType, expenseCategoryId: Option<int>)
    | IncomeDto(id: int, name: string, amount: real, paymentDate: Date,
                recurring: bool, startDate: Option<Date>, endDate: Option<Date>,
                userId: int, category: Option<string>,
                incomeType: CashflowType, incomeCategoryId: Option<int>)

  /** `new ExpenditureDto { Name, Amount, PaymentDate }`: every other field at its default. */
  function NewExpenditureDto(name: string, amount: real, paymentDate: Date): CashflowDto {
    ExpenditureDto(0, name, amount, paymentDate, false, None, None, 0, Some(""), Projected, None)
  }

  /** `new IncomeDto { Name, Amount, PaymentDate }`: every other field at its default. */
  function NewIncomeDto(name: string, amount: real, paymentDate: Date): CashflowDto {
    IncomeDto(0, name, amount, paymentDate, false, None, None, 0, None, Projected, None)
  }

  /** MonthDto without its four DTO lists, which nothing in the modelled core fills. */
  datatype MonthDto = MonthDto(
    id: int, name: string, startDate: Date, endDate: Date, year: int,
    projectedTotalIncome: real, projectedTotalExpenditure: real, projectedSavings: real,
    actualTotalExpenditure: real, actualTotalIncome: real, actualSavings: real,
    runningTotalSavings: real, notes: string)

  /** `new MonthDto { Name, StartDate, EndDate }`: every other field at its default. */
  function NewMonthDto(name: string, startDate: Date, endDate: Date): MonthDto {
    MonthDto(0, name, startDate, endDate, 0, 0.0, 0.0, 0.0, 0.0, 0.0, 0.0, 0.0, "")
  }

  /** MerchantRule and CustomerRule: a pattern and the category it suggests. */
  datatype Rule<C> = Rule(pattern: string, category: C)

  type MerchantRule = Rule<CategoryType>

  type CustomerRule = Rule<IncomeCategoryType>

  /** Rules.MerchantRules and Rules.CustomerRules as shipped: both empty. */
  const MerchantRules: seq<MerchantRule> := []

  const CustomerRules: seq<CustomerRule> := []
}
