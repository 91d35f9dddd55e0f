# FinancialPlanner.Blazor services, modelled in Dafny

This project models the service layer of FinancialPlanner.Blazor, a personal
budgeting web application. It covers six services:

- **CashflowService**: `GetCashflowForMonth` selects the income and expenditure
  items that belong to a month. A recurring item needs a start and end date
  spanning the whole month. A one-off item needs its payment date inside the month.
- **BankStatementImportService**: reads an uploaded bank statement CSV.
  - It skips the header row and blank lines.
  - It tokenises each line with a quote-aware comma splitter.
  - It parses the date against five exact formats.
  - It drops transfers between accounts (a sort code and account number in the
    description).
  - It reads the amount from the paid-in or paid-out column. The mangled pound
    sign decides which one.
  - It suggests a category from a rule list.
- **HistoryService**: `GetHistoricalMonths` lists the calendar months from a
  start date to an end date. The cursor advances with `AddMonths(1)`.
- **SessionService**: the server-side session table. It covers create,
  validate, touch, revoke, revoke-all and the 30-day audit-retention cleanup.
- **CurrentUserService**: the circuit's signed-in user, read from the
  `app_user_id` claim and cached in two fields.
- **DbService**:
  - the expenditure and income queries and their type filters;
  - the two upserts, which skip rows already stored (matched by lower-cased
    name, amount, date and type) and insert the rest;
  - `GetOrCreateMonths`, which reuses a stored month with the same range or
    creates one;
  - `UpdateMonthNotes`.

## How the model is organised

The model follows the form of each source file:

- Stateful services are classes whose fields the methods update, with
  `modifies` clauses. These are `SessionService.SessionStore`,
  `CurrentUserService.CurrentUserCache` and `DbService.Database`.
- Each source loop is a method with loop invariants. The methods are
  `GetCashflowForMonth`, `ParseCsvColumns`, `ReadLines`, `GetHistoricalMonths`,
  the upserts and `GetOrCreateMonths`.
- Each method is proved equal to a specification function. Lemmas state what
  the source promises about that function.
- Pure logic is functions: row parsing, date and number parsing, and category
  suggestion.

Shared modules:

- `Wrappers` holds `Option`.
- `Models` holds the DTOs and enums.
- `Dates` holds a proleptic Gregorian date with `AddMonths`, `AddDays(-1)` and
  comparison.
- `Text` holds ASCII trimming, case mapping, ordinal comparison ignoring case,
  `Contains` and `Replace`.
- `DateParsing` holds `DateTime.TryParseExact` for the five statement formats
  under the invariant culture.
- `NumberParsing` holds `int.TryParse` and `decimal.TryParse`.

A database table is an insertion-ordered `seq` of rows, keyed by an
identity counter. The session and user tables are maps keyed by primary key.
The clock and `Guid.NewGuid` are parameters.

In the Model table, cited paths are relative to the repository root.

## Model

| member | source | states |
|---|---|---|
| CashflowService.GetCashflowForMonth | src/FinancialPlanner.Blazor/FinancialPlanner.Blazor/Services/CashflowService.cs:13-53 | A null list gives no items. Otherwise the result is the month's items in input order: a subsequence of the input, with each item kept exactly as often as it occurs when it is in the month, and never otherwise. |
| CashflowService.MonthCashflow | src/FinancialPlanner.Blazor/FinancialPlanner.Blazor/Services/CashflowService.cs:20-52 | The month's items are never more than the input items. |
| CashflowService.MembershipRules | src/FinancialPlanner.Blazor/FinancialPlanner.Blazor/Services/CashflowService.cs:28-49 | A recurring item missing either date is never in the month. A complete recurring item is in it iff its range covers the month. A one-off item is in it iff its payment date lies within the month, inclusive. |
| CashflowService.MonthCashflowIsSubsequence | src/FinancialPlanner.Blazor/FinancialPlanner.Blazor/Services/CashflowService.cs:20-52 | The selection keeps input order: it is a subsequence of the input. |
| CashflowService.MonthCashflowCount | src/FinancialPlanner.Blazor/FinancialPlanner.Blazor/Services/CashflowService.cs:20-52 | Each item occurs in the selection as often as in the input if it is in the month, and not at all otherwise. |
| CashflowService.JanuaryExample | tests/FinancialPlanner.UnitTests/CashflowTests.cs:50-69 | The unit test's four items give exactly the one-off January item and the recurring item spanning 1517 to 3000. |
| BankStatementImport.ParseCsvColumns | src/FinancialPlanner.Blazor/FinancialPlanner.Blazor/Services/BankStatementImportService.cs:142-169 | The tokeniser gives one more column than there are commas outside quotes. Joining the columns with "," gives the line with its quotes removed. No column contains a quote. |
| BankStatementImport.ScanCounts | src/FinancialPlanner.Blazor/FinancialPlanner.Blazor/Services/BankStatementImportService.cs:148-165 | After any prefix, the in-quotes flag is the parity of the quotes seen, and the finished columns number the unquoted commas. |
| BankStatementImport.ColumnCount | src/FinancialPlanner.Blazor/FinancialPlanner.Blazor/Services/BankStatementImportService.cs:148-168 | The column count is the number of commas outside quotes plus one. |
| BankStatementImport.ColumnsJoinToLine | src/FinancialPlanner.Blazor/FinancialPlanner.Blazor/Services/BankStatementImportService.cs:152-167 | No character other than a quote is lost or reordered: the columns joined with "," are the line without quotes. |
| BankStatementImport.ColumnsHaveNoQuotes | src/FinancialPlanner.Blazor/FinancialPlanner.Blazor/Services/BankStatementImportService.cs:152-155 | Quote characters only toggle the state and never reach a column. |
| BankStatementImport.EncodeRowRoundTrip | src/FinancialPlanner.Blazor/FinancialPlanner.Blazor/Services/BankStatementImportService.cs:148-168 | Quoting each field that contains a comma and joining with "," tokenises back to the same fields, for any quote-free fields. |
| BankStatementImport.QuotedCommaExample | src/FinancialPlanner.Blazor/FinancialPlanner.Blazor/Services/BankStatementImportService.cs:152-160 | `"Smith, John",100.00,01/01/2025` splits into three columns, with the quoted comma kept. |
| BankStatementImport.MatchesAccountNumber | src/FinancialPlanner.Blazor/FinancialPlanner.Blazor/Services/BankStatementImportService.cs:192-193 | True iff the description contains six digits, one white-space character and eight digits at some position. |
| BankStatementImport.ParseRow | src/FinancialPlanner.Blazor/FinancialPlanner.Blazor/Services/BankStatementImportService.cs:75-133 | A row yields an item iff its date parses in one of the formats, it is not a transfer, and its amount parses. The item is income iff the paid-in column holds U+FFFD. Its name is the description, its amount the parsed value without U+FFFD, and its date the parsed date. |
| BankStatementImport.ParseCsvLine | src/FinancialPlanner.Blazor/FinancialPlanner.Blazor/Services/BankStatementImportService.cs:62-140 | A line with too few columns for the configured indexes, or fewer than five, yields nothing. Any other line yields the parse of its trimmed columns 0, 2, 3 and 4. |
| BankStatementImport.ConfigurationIgnored | src/FinancialPlanner.Blazor/FinancialPlanner.Blazor/Services/BankStatementImportService.cs:66-80 | Once the column-count guard passes, the configured indexes do not affect the result. |
| BankStatementImport.TransfersSkipped | src/FinancialPlanner.Blazor/FinancialPlanner.Blazor/Services/BankStatementImportService.cs:94-98 | A description with an account-number pattern anywhere yields no item. |
| BankStatementImport.DummyAccountNumberIsTransfer | src/FinancialPlanner.Blazor/FinancialPlanner.Blazor/Services/BankStatementImportService.cs:192-193 | "000000 00000000" matches the transfer pattern. |
| BankStatementImport.PoundSignDropped | src/FinancialPlanner.Blazor/FinancialPlanner.Blazor/Services/BankStatementImportService.cs:100-107 | Removing U+FFFD from a marked amount gives the plain amount back. |
| BankStatementImport.TwelvePoundsFifty | src/FinancialPlanner.Blazor/FinancialPlanner.Blazor/Services/BankStatementImportService.cs:100-107 | "12.50" parses to 12.5. |
| BankStatementImport.NotTenCharacters | src/FinancialPlanner.Blazor/FinancialPlanner.Blazor/Services/BankStatementImportService.cs:14-16 | The three numeric formats accept only ten-character strings. |
| BankStatementImport.ShortYearDateExample | src/FinancialPlanner.Blazor/FinancialPlanner.Blazor/Services/BankStatementImportService.cs:17 | "27-Sep-25" parses to 27 September 2025. |
| BankStatementImport.DayFirstExample | src/FinancialPlanner.Blazor/FinancialPlanner.Blazor/Services/BankStatementImportService.cs:14 | "01/02/2025" is read day first, as 1 February 2025. |
| BankStatementImport.MonthFirstFallbackExample | src/FinancialPlanner.Blazor/FinancialPlanner.Blazor/Services/BankStatementImportService.cs:14-15 | "02/13/2025" fails day-first and falls back to month-first, giving 13 February 2025. |
| BankStatementImport.NoThirteenthMonth | src/FinancialPlanner.Blazor/FinancialPlanner.Blazor/Services/BankStatementImportService.cs:14 | "02/13/2025" is rejected by dd/MM/yyyy. |
| BankStatementImport.ProcessBankStatementFile | src/FinancialPlanner.Blazor/FinancialPlanner.Blazor/Services/BankStatementImportService.cs:21-60 | The file's items are the parses of its accepted lines, in file order. |
| BankStatementImport.ReadLines | src/FinancialPlanner.Blazor/FinancialPlanner.Blazor/Services/BankStatementImportService.cs:33-57 | The read loop collects, in order, the present results of the per-line parser, after the header and blank lines are skipped. |
| BankStatementImport.LineResults | src/FinancialPlanner.Blazor/FinancialPlanner.Blazor/Services/BankStatementImportService.cs:33-57 | There is one result per line of the file. |
| BankStatementImport.ImportAppend | src/FinancialPlanner.Blazor/FinancialPlanner.Blazor/Services/BankStatementImportService.cs:33-57 | Without a header, importing two files back to back gives the two imports concatenated. |
| BankStatementImport.HeaderSkipped | src/FinancialPlanner.Blazor/FinancialPlanner.Blazor/Services/BankStatementImportService.cs:37-39 | With a header, the import equals the header-less import of the remaining lines. |
| BankStatementImport.HeaderFlagNotRead | src/FinancialPlanner.Blazor/FinancialPlanner.Blazor/Services/BankStatementImportService.cs:62-140 | The per-line parser never reads the header flag. |
| BankStatementImport.LineResultsHeader | src/FinancialPlanner.Blazor/FinancialPlanner.Blazor/Services/BankStatementImportService.cs:35-39 | With a header, line one contributes nothing and the rest are read as a header-less file. |
| BankStatementImport.LineResultsAppend | src/FinancialPlanner.Blazor/FinancialPlanner.Blazor/Services/BankStatementImportService.cs:33-57 | Without a header, per-line results of a concatenation are the concatenated results. |
| BankStatementImport.ImportedRowsAreAcceptedLines | src/FinancialPlanner.Blazor/FinancialPlanner.Blazor/Services/BankStatementImportService.cs:33-51 | An item is imported iff some non-header, non-blank line parses to it. |
| BankStatementImport.FirstMatch | src/FinancialPlanner.Blazor/FinancialPlanner.Blazor/Services/BankStatementImportService.cs:176-177 | No rule matches iff no pattern occurs, case-insensitively, in the description. Otherwise the result is the category of the first rule whose pattern occurs. |
| BankStatementImport.SuggestExpenditureCategoryFrom | src/FinancialPlanner.Blazor/FinancialPlanner.Blazor/Services/BankStatementImportService.cs:182-190 | The first matching merchant rule's category, or Miscellaneous when none matches. |
| BankStatementImport.SuggestIncomeCategoryFrom | src/FinancialPlanner.Blazor/FinancialPlanner.Blazor/Services/BankStatementImportService.cs:172-180 | The first matching customer rule's category, or Other when none matches. |
| BankStatementImport.ShippedRulesGiveDefaults | src/FinancialPlanner.Blazor/FinancialPlanner.Blazor/Components/Models/MerchantRule.cs:15-26 | With the shipped empty rule lists, every description gets Miscellaneous and Other. |
| BankStatementImport.SuggestionIgnoresCase | src/FinancialPlanner.Blazor/FinancialPlanner.Blazor/Services/BankStatementImportService.cs:184-187 | Descriptions equal up to case get the same expenditure category. |
| BankStatementImport.FirstMatchIgnoresCase | src/FinancialPlanner.Blazor/FinancialPlanner.Blazor/Services/BankStatementImportService.cs:174-177 | Descriptions equal up to case match the same first rule. |
| DateParsing.TryParseExact | src/FinancialPlanner.Blazor/FinancialPlanner.Blazor/Services/BankStatementImportService.cs:80 | The result is None iff no format accepts the string. Otherwise it is the date from the first format that does, and that date is a real calendar date. |
| DateParsing.ParseExact | src/FinancialPlanner.Blazor/FinancialPlanner.Blazor/Services/BankStatementImportService.cs:14-18 | An accepted string always denotes a real calendar date in years 1 to 9999. |
| DateParsing.FirstAccepting | src/FinancialPlanner.Blazor/FinancialPlanner.Blazor/Services/BankStatementImportService.cs:80 | When format i is the first to accept, TryParseExact gives that format's date. |
| DateParsing.FormatParseRoundTrip | src/FinancialPlanner.Blazor/FinancialPlanner.Blazor/Services/BankStatementImportService.cs:14-18 | Formatting any date in any of the five formats and parsing it back gives the date. For "dd-MMM-yy" the year must lie in the two-digit-year window. |
| DateParsing.MonthNameRoundTrip | src/FinancialPlanner.Blazor/FinancialPlanner.Blazor/Services/BankStatementImportService.cs:17-18 | Each abbreviated month name parses back to its month number. |
| DateParsing.MonthNameNumber | src/FinancialPlanner.Blazor/FinancialPlanner.Blazor/Services/BankStatementImportService.cs:17-18 | Gives the number of the first abbreviated name equal to the text up to case, and None iff no name is. |
| DateParsing.ShortYearWindow | src/FinancialPlanner.Blazor/FinancialPlanner.Blazor/Services/BankStatementImportService.cs:17 | Every year in the window is recovered from its last two digits. |
| DateParsing.ToFourDigitYear | src/FinancialPlanner.Blazor/FinancialPlanner.Blazor/Services/BankStatementImportService.cs:17 | A two-digit year becomes the unique year with those last two digits in the 100-year window ending at TwoDigitYearMax. |
| DateParsing.MakeDate | src/FinancialPlanner.Blazor/FinancialPlanner.Blazor/Services/BankStatementImportService.cs:80 | The fields give a date iff all are present and form a real calendar date. |
| DateParsing.DigitField | src/FinancialPlanner.Blazor/FinancialPlanner.Blazor/Services/BankStatementImportService.cs:14-18 | A fixed-width field reads iff it is in bounds and all digits. |
| NumberParsing.ParseInt32 | src/FinancialPlanner.Blazor/FinancialPlanner.Blazor/Services/CurrentUserService.cs:33 | A parsed value is in the 32-bit range. Blank text never parses. |
| NumberParsing.ParseInt32RoundTrip | src/FinancialPlanner.Blazor/FinancialPlanner.Blazor/Services/CurrentUserService.cs:33 | Every 32-bit integer's decimal text parses back to it. |
| NumberParsing.ParseDecimal | src/FinancialPlanner.Blazor/FinancialPlanner.Blazor/Services/BankStatementImportService.cs:100-107 | Blank text never parses. |
| NumberParsing.ParseUnsignedDecimal | src/FinancialPlanner.Blazor/FinancialPlanner.Blazor/Services/BankStatementImportService.cs:100-107 | An unsigned amount is never negative. |
| NumberParsing.ParseDecimalSigned | src/FinancialPlanner.Blazor/FinancialPlanner.Blazor/Services/BankStatementImportService.cs:100-107 | A leading sign negates or keeps the unsigned value. |
| NumberParsing.ParseAmountRoundTrip | src/FinancialPlanner.Blazor/FinancialPlanner.Blazor/Services/BankStatementImportService.cs:100-107 | Any amount in pence, written with two decimals and an optional minus sign, parses back to its value. |
| Text.Trim | src/FinancialPlanner.Blazor/FinancialPlanner.Blazor/Services/BankStatementImportService.cs:75-78 | The result is a slice of the input, with no white space at either end. It is empty iff the input is all white space. |
| Text.ToUpper | src/FinancialPlanner.Blazor/FinancialPlanner.Blazor/Services/BankStatementImportService.cs:174 | Same length; no lower-case letter is left; each character stays the same up to case, and every character that is not a lower-case letter is unchanged. |
| Text.ToLower | src/FinancialPlanner.Blazor/FinancialPlanner.Blazor/Services/DbService.cs:39 | Same length; no upper-case letter is left; each character stays the same up to case, and every character that is not an upper-case letter is unchanged. |
| Text.CaseMappingsAbsorb | src/FinancialPlanner.Blazor/FinancialPlanner.Blazor/Services/BankStatementImportService.cs:174-184 | Lower-casing an upper-cased string gives the lower-cased original, and the other way round. |
| Text.SameUpperIffEqualsIgnoringCase | src/FinancialPlanner.Blazor/FinancialPlanner.Blazor/Services/BankStatementImportService.cs:174-184 | Two strings upper-case to the same string iff they are equal up to ASCII case. |
| Text.SameLowerIffEqualsIgnoringCase | src/FinancialPlanner.Blazor/FinancialPlanner.Blazor/Services/DbService.cs:39 | Two strings lower-case to the same string iff they are equal up to ASCII case. |
| Text.RemoveChar | src/FinancialPlanner.Blazor/FinancialPlanner.Blazor/Services/BankStatementImportService.cs:100 | The character no longer occurs, and exactly its occurrences are gone. |
| Text.PaddedDigitsValue | src/FinancialPlanner.Blazor/FinancialPlanner.Blazor/Services/HistoryService.cs:17 | The zero-padded text of n reads back as n. |
| Dates.DaysInMonth | src/FinancialPlanner.Blazor/FinancialPlanner.Blazor/Services/HistoryService.cs:14 | A month has 28 to 31 days, and February has 29 exactly in leap years. |
| Dates.AddMonths | src/FinancialPlanner.Blazor/FinancialPlanner.Blazor/Services/HistoryService.cs:21 | Moves the month index by n, giving a real date. The day is clamped to the target month's length. |
| Dates.PreviousDay | src/FinancialPlanner.Blazor/FinancialPlanner.Blazor/Services/HistoryService.cs:14 | AddDays(-1) gives a real date strictly before its input. |
| Dates.LastDayOfMonth | src/FinancialPlanner.Blazor/FinancialPlanner.Blazor/Services/HistoryService.cs:13-14 | The first of the next month minus one day is the month's last day. |
| Dates.AddOneMonthIncreases | src/FinancialPlanner.Blazor/FinancialPlanner.Blazor/Services/HistoryService.cs:21 | AddMonths(1) moves strictly forward, so the loop ends. |
| HistoryService.GetHistoricalMonths | src/FinancialPlanner.Blazor/FinancialPlanner.Blazor/Services/HistoryService.cs:7-25 | The loop's list equals the recursive month listing from start to end. |
| HistoryService.MonthEntry | src/FinancialPlanner.Blazor/FinancialPlanner.Blazor/Services/HistoryService.cs:13-20 | The entry runs from the first to the last day of the cursor's month and is named "MMMM yyyy" after it. |
| HistoryService.EmptyWhenStartAfterEnd | src/FinancialPlanner.Blazor/FinancialPlanner.Blazor/Services/HistoryService.cs:11 | A start after the end gives no months. |
| HistoryService.EntriesAreSuccessiveMonths | src/FinancialPlanner.Blazor/FinancialPlanner.Blazor/Services/HistoryService.cs:11-21 | Entry k is the full month k months after the start's month and begins no later than the end date. |
| HistoryService.EntryAt | src/FinancialPlanner.Blazor/FinancialPlanner.Blazor/Services/HistoryService.cs:11-21 | The same, for one index k. |
| HistoryService.ConsecutiveEntries | src/FinancialPlanner.Blazor/FinancialPlanner.Blazor/Services/HistoryService.cs:11-21 | Each next entry is the following calendar month and starts strictly later. |
| HistoryService.MonthCount | src/FinancialPlanner.Blazor/FinancialPlanner.Blazor/Services/HistoryService.cs:11-21 | With n the month distance from start to end, the list has n or n + 1 entries. EndMonthMissedExample shows a case with n. |
| HistoryService.FirstOfMonthCount | src/FinancialPlanner.Blazor/FinancialPlanner.Blazor/Services/HistoryService.cs:11-21 | From a first of month, every month up to and including the end's month is listed. |
| HistoryService.FullYearExample | tests/FinancialPlanner.UnitTests/HistoryTests.cs:62-67 | 1 January to 31 December 2025 gives twelve months. |
| HistoryService.QuarterExample | tests/FinancialPlanner.UnitTests/HistoryTests.cs:37-42 | 1 October to 27 December 2025 gives three months. |
| HistoryService.NameExamples | tests/FinancialPlanner.UnitTests/HistoryTests.cs:43-45 | October and December 2025 are named "October 2025" and "December 2025". |
| HistoryService.FebruaryEntry | tests/FinancialPlanner.UnitTests/HistoryTests.cs:87-93 | February of any year is one entry, ending on the 29th in leap years and the 28th otherwise. |
| HistoryService.ClampedCursorExample | src/FinancialPlanner.Blazor/FinancialPlanner.Blazor/Services/HistoryService.cs:21 | From 31 January the cursor clamps to 28 February and then stays on the 28th. 31 January to 30 March 2025 therefore gives three months. |
| HistoryService.EndMonthMissedExample | src/FinancialPlanner.Blazor/FinancialPlanner.Blazor/Services/HistoryService.cs:11 | From 15 January to 10 March 2025, the March cursor (the 15th) passes the end date, so only two months are listed. |
| HistoryService.MonthStartListsEveryMonth | src/FinancialPlanner.Blazor/FinancialPlanner.Blazor/Services/HistoryService.cs:11-21 | With the cursor started on the first of the start's month, the list has exactly one entry per calendar month from the start's to the end's, in order, and none when the start's month is later. |
| HistoryService.EndMonthListedFromMonthStart | src/FinancialPlanner.Blazor/FinancialPlanner.Blazor/Services/HistoryService.cs:11 | Counted from the first of the month, 15 January to 10 March 2025 lists three months. |
| SessionService.NewSession | src/FinancialPlanner.Blazor/FinancialPlanner.Blazor/Services/SessionService.cs:18-26 | A new session holds the given ids, address and agent. It is created now, expires after the given span or seven days, and is neither revoked nor seen. |
| SessionService.ValidSession | src/FinancialPlanner.Blazor/FinancialPlanner.Blazor/Services/SessionService.cs:34-43 | Gives the row iff it exists, is unrevoked and expires strictly after now. |
| SessionService.SessionStore.CreateSession | src/FinancialPlanner.Blazor/FinancialPlanner.Blazor/Services/SessionService.cs:16-31 | Adds exactly the new session under its fresh id and returns it. |
| SessionService.SessionStore.ValidateSession | src/FinancialPlanner.Blazor/FinancialPlanner.Blazor/Services/SessionService.cs:34-43 | Returns the stored row exactly when the id is present, the session is not revoked and it has not yet expired. |
| SessionService.SessionStore.TouchSession | src/FinancialPlanner.Blazor/FinancialPlanner.Blazor/Services/SessionService.cs:45-54 | True iff the session exists, belongs to the user and is valid. Only then is LastSeenUtc set to now. |
| SessionService.SessionStore.RevokeSession | src/FinancialPlanner.Blazor/FinancialPlanner.Blazor/Services/SessionService.cs:57-71 | True iff the session exists. Only then is RevokedUtc stamped. |
| SessionService.SessionStore.RevokeAllSessions | src/FinancialPlanner.Blazor/FinancialPlanner.Blazor/Services/SessionService.cs:73-79 | Stamps RevokedUtc on every unrevoked session of the user. |
| SessionService.SessionStore.CleanupExpiredSessions | src/FinancialPlanner.Blazor/FinancialPlanner.Blazor/Services/SessionService.cs:81-90 | Removes exactly the rows that are expired or revoked and were created more than 30 days ago. |
| SessionService.CreatedSessionValidUntilExpiry | src/FinancialPlanner.Blazor/FinancialPlanner.Blazor/Services/SessionService.cs:18-26 | A created session validates exactly before its expiry. The default lifetime is seven days. |
| SessionService.CreateKeepsOthers | src/FinancialPlanner.Blazor/FinancialPlanner.Blazor/Services/SessionService.cs:28 | Creating a session does not change whether any other session validates. |
| SessionService.TouchKeepsValidity | src/FinancialPlanner.Blazor/FinancialPlanner.Blazor/Services/SessionService.cs:48-51 | A touch never changes whether any session validates at any time. |
| SessionService.TouchNeedsOwnerAndValidity | src/FinancialPlanner.Blazor/FinancialPlanner.Blazor/Services/SessionService.cs:49 | A touch by another user, or of a missing or invalid session, changes nothing. |
| SessionService.RevokeInvalidates | src/FinancialPlanner.Blazor/FinancialPlanner.Blazor/Services/SessionService.cs:57-71 | A revoked session never validates again. The other rows are unchanged and no row is added. |
| SessionService.RevokeAllInvalidatesUser | src/FinancialPlanner.Blazor/FinancialPlanner.Blazor/Services/SessionService.cs:73-79 | After revoke-all, none of the user's sessions validates at any time. |
| SessionService.RevokeAllTouchesOnlyUnrevokedOfUser | src/FinancialPlanner.Blazor/FinancialPlanner.Blazor/Services/SessionService.cs:76-78 | Other users' rows and rows revoked earlier keep their RevokedUtc. The user's unrevoked rows get now. The set of rows is unchanged. |
| SessionService.CleanupRemovesExactly | src/FinancialPlanner.Blazor/FinancialPlanner.Blazor/Services/SessionService.cs:83-88 | A row survives cleanup iff it is not removable, and it survives unchanged. |
| SessionService.CleanupKeepsValidSessions | src/FinancialPlanner.Blazor/FinancialPlanner.Blazor/Services/SessionService.cs:84 | A session that validates at the cleanup instant survives it. |
| SessionService.CleanupKeepsRecentSessions | src/FinancialPlanner.Blazor/FinancialPlanner.Blazor/Services/SessionService.cs:85 | Sessions created within the last 30 days survive, expired or not. |
| SessionService.CleanupIdempotent | src/FinancialPlanner.Blazor/FinancialPlanner.Blazor/Services/SessionService.cs:81-90 | A second cleanup at the same instant removes nothing. |
| SessionService.TransitionsKeepKeys | src/FinancialPlanner.Blazor/FinancialPlanner.Blazor/Services/SessionService.cs:45-90 | Touch, revoke, revoke-all and cleanup keep every row under its own SessionId. |
| CurrentUserService.FindFirstValue | src/FinancialPlanner.Blazor/FinancialPlanner.Blazor/Services/CurrentUserService.cs:32 | None iff no claim has the type, compared ignoring case. Otherwise the value of the first claim of that type: every earlier claim has another type. |
| CurrentUserService.FindUser | src/FinancialPlanner.Blazor/FinancialPlanner.Blazor/Services/CurrentUserService.cs:42-45 | Gives the user iff the id is in the table, and then the row with that Id. |
| CurrentUserService.CurrentUserCache.GetCurrentUser | src/FinancialPlanner.Blazor/FinancialPlanner.Blazor/Services/CurrentUserService.cs:23-49 | Returns the user and leaves the cache as the case analysis says. The table is read only on a cache miss. |
| CurrentUserService.CurrentUserCache.GetCurrentUserId | src/FinancialPlanner.Blazor/FinancialPlanner.Blazor/Services/CurrentUserService.cs:51-52 | The current user's Id, or none, with the same cache effect. |
| CurrentUserService.CurrentUserCache.IsAuthenticated | src/FinancialPlanner.Blazor/FinancialPlanner.Blazor/Services/CurrentUserService.cs:54-55 | True iff a current user is found, with the same cache effect. |
| CurrentUserService.CurrentUserCache.ClearCache | src/FinancialPlanner.Blazor/FinancialPlanner.Blazor/Services/CurrentUserService.cs:57-61 | Both cache fields become empty. |
| CurrentUserService.NotAuthenticatedClears | src/FinancialPlanner.Blazor/FinancialPlanner.Blazor/Services/CurrentUserService.cs:26-30 | An unauthenticated principal gets no user and an emptied cache, without a lookup. |
| CurrentUserService.BadClaimClears | src/FinancialPlanner.Blazor/FinancialPlanner.Blazor/Services/CurrentUserService.cs:32-37 | A missing or non-numeric claim gets no user and an emptied cache. |
| CurrentUserService.EmptyClaimDoesNotParse | src/FinancialPlanner.Blazor/FinancialPlanner.Blazor/Services/CurrentUserService.cs:33 | An empty claim value does not parse. |
| CurrentUserService.CacheHit | src/FinancialPlanner.Blazor/FinancialPlanner.Blazor/Services/CurrentUserService.cs:39-40 | A cached user under the claimed id is returned without reading the table. |
| CurrentUserService.CacheMiss | src/FinancialPlanner.Blazor/FinancialPlanner.Blazor/Services/CurrentUserService.cs:42-48 | Any other state reads the table and caches both the result (possibly none) and the id. |
| CurrentUserService.ReturnedUserMatchesClaim | src/FinancialPlanner.Blazor/FinancialPlanner.Blazor/Services/CurrentUserService.cs:23-49 | From a consistent cache, a returned user always has the claimed id, and the cache stays consistent. |
| CurrentUserService.SecondCallHits | src/FinancialPlanner.Blazor/FinancialPlanner.Blazor/Services/CurrentUserService.cs:39-48 | Once a user is found, the same principal is answered from the cache. |
| CurrentUserService.ClearForcesLookup | src/FinancialPlanner.Blazor/FinancialPlanner.Blazor/Services/CurrentUserService.cs:57-61 | After clearing, an authenticated numeric claim always reads the table. |
| CurrentUserService.ZeroAndNegativeIdsUnknown | src/FinancialPlanner.Blazor/FinancialPlanner.Blazor/Services/CurrentUserService.cs:33-45 | With identities from 1, a claimed id of 0 or below never yields a user. |
| CurrentUserService.ZeroAndMinusOneClaims | src/FinancialPlanner.Blazor/FinancialPlanner.Blazor/Services/CurrentUserService.cs:32-33 | A first claim "0" or "-1" gives the claimed id 0 or -1. |
| DbService.FindRow | src/FinancialPlanner.Blazor/FinancialPlanner.Blazor/Services/DbService.cs:39-40 | FirstOrDefault: the first row matching lower-cased name, amount, date and type, and None iff none matches. |
| DbService.FindExpenditureDto | src/FinancialPlanner.Blazor/FinancialPlanner.Blazor/Services/DbService.cs:37-59 | Found iff a row matches, and then the DTO of a matching row. It has the queried type and, without the category loaded, "Uncategorized". |
| DbService.FindIncomeDto | src/FinancialPlanner.Blazor/FinancialPlanner.Blazor/Services/DbService.cs:117-138 | Found iff a row matches, and then the DTO of a matching row. |
| DbService.Select | src/FinancialPlanner.Blazor/FinancialPlanner.Blazor/Services/DbService.cs:16-19 | The type filter keeps at most the stored rows. |
| DbService.SelectMembers | src/FinancialPlanner.Blazor/FinancialPlanner.Blazor/Services/DbService.cs:16-33 | A DTO is listed iff it is the mapping of a stored row of the requested type. |
| DbService.ExpenditureDtosOfType | src/FinancialPlanner.Blazor/FinancialPlanner.Blazor/Services/DbService.cs:14-35 | Every listed DTO is an expenditure of the requested type, with the row's category name or "Uncategorized". Every stored row of that type is listed. |
| DbService.IncomeDtosOfType | src/FinancialPlanner.Blazor/FinancialPlanner.Blazor/Services/DbService.cs:100-115 | With the corrected mapping, every listed DTO is income of the requested type, and every stored row of that type is listed. |
| DbService.IncomeTypeLostAsWritten | src/FinancialPlanner.Blazor/FinancialPlanner.Blazor/Services/DbService.cs:103-113 | As written, an Actual income row is listed with IncomeType Projected. |
| DbService.LookupIgnoresCase | src/FinancialPlanner.Blazor/FinancialPlanner.Blazor/Services/DbService.cs:39-40 | Names equal up to case find the same row. |
| DbService.Inserted | src/FinancialPlanner.Blazor/FinancialPlanner.Blazor/Services/DbService.cs:65-88 | The upsert loop never inserts more rows than it is given. |
| DbService.InsertedKeys | src/FinancialPlanner.Blazor/FinancialPlanner.Blazor/Services/DbService.cs:87-91 | Inserted rows get consecutive identity values from the counter. |
| DbService.InsertedRowsCopyDtos | src/FinancialPlanner.Blazor/FinancialPlanner.Blazor/Services/DbService.cs:75-87 | Every inserted row is a copy of an input DTO that was not already stored. |
| DbService.UnstoredDtosInserted | src/FinancialPlanner.Blazor/FinancialPlanner.Blazor/Services/DbService.cs:67-87 | Every input DTO not already stored is inserted. |
| DbService.NothingStoredAllInserted | src/FinancialPlanner.Blazor/FinancialPlanner.Blazor/Services/DbService.cs:67-87 | An input with nothing stored inserts one row per DTO. |
| DbService.AllStoredNothingInserted | src/FinancialPlanner.Blazor/FinancialPlanner.Blazor/Services/DbService.cs:67-72 | An input that is all stored inserts nothing. |
| DbService.UpsertTwiceInsertsNothing | src/FinancialPlanner.Blazor/FinancialPlanner.Blazor/Services/DbService.cs:61-98 | Upserting the same DTOs a second time inserts nothing: the upsert is idempotent. |
| DbService.DuplicateBatchExample | src/FinancialPlanner.Blazor/FinancialPlanner.Blazor/Services/DbService.cs:65-91 | Within one batch, the lookup does not see unsaved rows, so a DTO given twice is inserted twice. |
| DbService.SavedKeysFresh | src/FinancialPlanner.Blazor/FinancialPlanner.Blazor/Services/DbService.cs:87-91 | After the save, ids stay unique and below the advanced counter. |
| DbService.Database.UpsertExpenditureDtos | src/FinancialPlanner.Blazor/FinancialPlanner.Blazor/Services/DbService.cs:61-98 | Appends exactly the inserted rows to Expenditures and advances its counter. The other tables are unchanged and keys stay unique. |
| DbService.Database.UpsertIncomeDtos | src/FinancialPlanner.Blazor/FinancialPlanner.Blazor/Services/DbService.cs:140-177 | The same for Incomes. |
| DbService.FindMonth | src/FinancialPlanner.Blazor/FinancialPlanner.Blazor/Services/DbService.cs:185-186 | The first stored month with the same start and end date, and None iff there is none. |
| DbService.StepMonth | src/FinancialPlanner.Blazor/FinancialPlanner.Blazor/Services/DbService.cs:185-225 | One loop step adds one result and never removes a month. |
| DbService.GetOrCreate | src/FinancialPlanner.Blazor/FinancialPlanner.Blazor/Services/DbService.cs:179-230 | One result per input, and the table only grows. |
| DbService.GetOrCreateResults | src/FinancialPlanner.Blazor/FinancialPlanner.Blazor/Services/DbService.cs:183-227 | Each result is the DTO of the first month in the final table with that range. |
| DbService.GetOrCreateKeepsRows | src/FinancialPlanner.Blazor/FinancialPlanner.Blazor/Services/DbService.cs:208-216 | Existing months are kept unchanged, and new ones are only appended. |
| DbService.StepMatches | src/FinancialPlanner.Blazor/FinancialPlanner.Blazor/Services/DbService.cs:185-225 | One step keeps every earlier result matching the table. |
| DbService.ResultRanges | src/FinancialPlanner.Blazor/FinancialPlanner.Blazor/Services/DbService.cs:190-225 | Result k has the start and end date of input k. |
| DbService.RepeatedRangeReused | src/FinancialPlanner.Blazor/FinancialPlanner.Blazor/Services/DbService.cs:185-216 | Two inputs with the same range get the same result, because the month created first is found again. |
| DbService.ExistingMonthReused | src/FinancialPlanner.Blazor/FinancialPlanner.Blazor/Services/DbService.cs:188-205 | An input whose range is already stored gets that month's stored values, notes and totals included. |
| DbService.RepeatedRangeExample | src/FinancialPlanner.Blazor/FinancialPlanner.Blazor/Services/DbService.cs:208-225 | Two copies of a new range create a single month, reported twice. |
| DbService.GetOrCreateKeys | src/FinancialPlanner.Blazor/FinancialPlanner.Blazor/Services/DbService.cs:208-216 | Month ids stay unique and below the counter. The counter advances by the number of months created. |
| DbService.Database.GetOrCreateMonths | src/FinancialPlanner.Blazor/FinancialPlanner.Blazor/Services/DbService.cs:179-230 | The results, Months and its counter are those of GetOrCreate. The other tables are unchanged and keys stay unique. |
| DbService.FindMonthById | src/FinancialPlanner.Blazor/FinancialPlanner.Blazor/Services/DbService.cs:234 | A month with the id, and None iff there is none. |
| DbService.NotesChangeOnlyThatMonth | src/FinancialPlanner.Blazor/FinancialPlanner.Blazor/Services/DbService.cs:234-240 | Only the Notes of the month with the id change. An unknown id changes nothing, and ids stay unique. |
| DbService.NotesVisibleToGetOrCreate | src/FinancialPlanner.Blazor/FinancialPlanner.Blazor/Services/DbService.cs:203 | After a notes update, GetOrCreateMonths finds the same month and reports the new notes. |
| DbService.WithNotesAt | src/FinancialPlanner.Blazor/FinancialPlanner.Blazor/Services/DbService.cs:240 | With unique ids, the update is a single-entry replacement. |
| DbService.Database.UpdateMonthNotes | src/FinancialPlanner.Blazor/FinancialPlanner.Blazor/Services/DbService.cs:232-243 | True iff a month has the id. Exactly that month's notes change, and nothing else. |

## Findings

| source | as written | input that shows it | evidently intended | confidence | as-written member | corrected member |
|---|---|---|---|---|---|---|
| src/FinancialPlanner.Blazor/FinancialPlanner.Blazor/Services/DbService.cs:103-113 | GetIncomeDtos does not copy IncomeType into the DTO, so it keeps its default. | One Actual income row, listed with `GetIncomeDtos(Actual)`: it is returned typed Projected. | Copy IncomeType, as GetIncomeDto does at line 136. | medium, not executed | DbService.IncomeTypeLostAsWritten | DbService.IncomeDtosOfType |
| src/FinancialPlanner.Blazor/FinancialPlanner.Blazor/Services/HistoryService.cs:11-21 | The cursor keeps the start date's day, so when that day is later than the end date's day the end month is not listed, against the interface's promise at lines 31-32 of all the months between the two dates. | 15 January to 10 March 2025: January and February only. | Step from the first of the start's month (`monthStart`). | low, not executed | HistoryService.EndMonthMissedExample | HistoryService.MonthStartListsEveryMonth |

## Left out

- DbService.Database.UpsertExpenditureDtos: always returns true. The exception-to-false path depends on database failures, which are not modelled.
- DbService.Database.UpsertIncomeDtos: always returns true, for the same reason.
- GetBankStatementForMonth is not modelled.
- The upload's I/O is not modelled: `IBrowserFile`, the 5 MB read cap, async reads and the rethrow on a line's exception. The file is a sequence of lines.
- Logging is not modelled.
- BankStatementImport.ReadLines takes the per-line parser as a parameter, so the main loop's proof is independent of the row parser.
- DateParsing.TryParseExact works on ASCII only: the invariant culture's five exact formats, without surrounding white space. .NET's full DateTime lexer is not modelled.
- NumberParsing.ParseDecimal covers an ASCII subset of `NumberStyles.Currency | Float`: sign, digits with group commas, a point and an exponent-free fraction. Currency symbols other than the stripped U+FFFD are not handled. The accounting form in parentheses, `(12.50)` for -12.50, and a trailing sign, `12.50-`, are accepted by .NET and rejected by the model.
- Text.Trim, Text.ToUpper and Text.ToLower work on ASCII white space and letters. Full Unicode case mapping and white space are not modelled. The same holds for the regex classes `\d` and `\s`.
- The current culture is fixed to an English one: `ToString("MMMM yyyy")` in HistoryService uses English month names, and the culture-sensitive `ToUpper` and `ToLower` in BankStatementImportService and DbService use the ASCII mapping. Cultures with other month names or other case rules (Turkish dotted and dotless i) are not modelled.
- CurrentUserService.FindFirstValue: the claim type is compared ignoring ASCII case only, not the full Unicode case folding of `OrdinalIgnoreCase`.
- DateTime values are taken at midnight: the model's dates have no time of day. Two consequences. GetHistoricalMonths from 15 October 2025 10:00 to 15 December 2025 00:00 lists two months in .NET, since the cursor of 15 December 10:00 is past the end, but three in the model. A one-off payment at 12:00 on 31 January is outside January in .NET, since `month.EndDate` is 31 January 00:00, but inside it in the model.
- The clock (`DateTime.UtcNow`) and `Guid.NewGuid` are parameters. The two clock reads in CreateSessionAsync and in CleanupExpiredSessionsAsync are one `now`.
- Entity Framework behaviour is not modelled: Include, AsNoTracking, change tracking and object identity. The category name is a field of the row.
- DbService.FindExpenditureDto: `GetExpenditureDto` has no Include, so the category is "Uncategorized" unless the scoped context already tracks that row's ExpenseCategory, which relationship fix-up then attaches (for example after GetExpenditureDtos, whose tracking query includes the category). The model always gives "Uncategorized".
- SessionService.SessionStore.CreateSession: always succeeds. CreateSessionAsync throws on two paths that are not modelled: `DateTime.UtcNow.Add(expiry)` past DateTime's range (ArgumentOutOfRangeException), and SaveChanges when `userId` names no user, through the session-to-user foreign key.
- FirstOrDefault without OrderBy is taken to return rows in insertion order.
- Dates.AddMonths: does not raise the exception DateTime throws past year 9999. The history lemmas require dates within years 1 to 9999.
- `decimal` is modelled as a mathematical real: precision, rounding and overflow are not modelled.
- The empty "pixel" block in GetCashflowForMonth and the unused locals (`income`, `lastRunningDate`) have no effect and are left out.
- The user Profile navigation loaded by CurrentUserService is not modelled.
- The class query functions `Database.GetExpenditureDtos`, `GetExpenditureDto`, `GetIncomeDtos` and `GetIncomeDto` carry no contract of their own. The lemmas about the specification functions they return cover them.
- DbService.Database.GetIncomeDtos returns the corrected mapping of the first Findings row (`IncomeDtos`, proved by `IncomeDtosOfType`), not the query as written; `IncomeDtosAsWritten` models the code as written.
- HistoryService.GetHistoricalMonths models the loop as written, keeping the start date's day; `MonthsFromMonthStart` is the corrected listing of the second Findings row.
- The legacy project tree, the migrations, the Blazor components and the endpoints are not part of this model.
