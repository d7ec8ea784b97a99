# Decoricks Finance Tracker: a Dafny model of the core

Decoricks Finance Tracker is a single-page React application. It keeps a small business's
income and expense transactions and the categories they are filed under. It stores the
whole document in `localStorage`, shows a dashboard for a chosen period (today, this week,
this month, or a custom range), and exports and imports the document as JSON or CSV.

This project models the part of it that computes things:

- the period arithmetic of `getDateRange` and the USD→PKR conversion (`dateUtils.ts`);
- the dashboard's period filter, totals, per-category breakdowns and summary counts
  (`Dashboard.tsx`);
- loading and saving the document, and the CSV text of the export (`storage.ts`);
- the application's handlers, which change the document and persist it (`App.tsx`);
- the import check and the "Current Data Summary" counts (`ExportImport.tsx`);
- the transaction form: blank state, edit prefill, type change, offered categories,
  submit, add a category (`TransactionForm.tsx`);
- the date-filter component's updates (`DateFilter.tsx`);
- the seed categories and the record types (`categories.ts`, `types/index.ts`).

Modules, one per source file, plus four that supply the JavaScript and calendar meaning
the source relies on:

| module | models |
|---|---|
| `Js` | truthiness, `String.prototype.trim`, `join`, `split` |
| `Folds` | `filter`, summing reduces, `new Set(...)`, map sums |
| `Calendar` | ECMAScript day arithmetic: `DayFromYear`, `MakeDay` with month overflow, `getDay` |
| `IsoDate` | `new Date("YYYY-MM-DD")`, `new Date("YYYY-MM-DDT23:59:59")`, `toISOString().split('T')[0]` |
| `Types`, `Categories` | the record types and `DEFAULT_CATEGORIES` |
| `DateUtils` | `getDateRange`, `convertToPKR` |
| `Periods` | which transactions each period shows, stated per selector |
| `Dashboard` | the dashboard's figures |
| `Storage` | `loadData`, `saveData`, `exportToCSV`'s text |
| `TransactionForm`, `DateFilter`, `ExportImport`, `App` | the components and handlers |
| `Scenarios` | worked examples over the whole application |

Conventions of the model:

- Time is an integer count of milliseconds since 1970-01-01T00:00. The clock is an input,
  `Clock(today, msOfDay)`, and local time is taken to be UTC.
- A `Date` is `At(ms)` or `InvalidDate`. Comparisons with `InvalidDate` are false, as with NaN.
- Amounts are exact reals.
- `JSON.stringify`/`JSON.parse` are a pair of functions `Codec(stringify, parse)`.
  `RoundTrips(codec, data)` states that parsing the stringified `data` gives back both of its
  fields; it is assumed of one document at a time, never of all documents at once.
- `generateId()`, `new Date().toISOString()`, `parseFloat` and `Number.prototype.toString`
  are inputs.

## Model

| member | source | states |
|---|---|---|
| `Categories.DefaultCategories` | src/data/categories.ts:3-16 | nine seed categories: the first three income, the other six expense, all marked default, ids and names pairwise distinct |
| `DateUtils.GetDateRange` | src/utils/dateUtils.ts:3-37 | for a clock in years 100–275759, every preset yields real dates; daily, weekly and monthly ranges contain the current instant; the fall-through branch is the zero-length range at today's midnight |
| `DateUtils.DailyRange` | src/utils/dateUtils.ts:8-12 | the daily range starts at today's midnight and ends one day less a millisecond later |
| `DateUtils.WeeklyRange` | src/utils/dateUtils.ts:14-20 | the weekly range starts at the midnight `getDay()` days before today and ends at a real date |
| `DateUtils.MonthlyRange` | src/utils/dateUtils.ts:22-26 | the monthly range starts at the midnight of the 1st of today's month and ends at a real date |
| `DateUtils.DailyRangeIsToday` | src/utils/dateUtils.ts:8-12 | an instant is in the daily range exactly when it falls on today's date |
| `DateUtils.DayOfBounds` | src/utils/dateUtils.ts:11 | a millisecond belongs to day n exactly when it lies in [n·86400000, (n+1)·86400000) |
| `DateUtils.WeeklyRangeIsThisWeek` | src/utils/dateUtils.ts:14-20 | the week starts at the midnight of a Sunday at most six days back and ends at the last millisecond six days later; an instant is inside exactly when its Sunday-anchored week is today's |
| `DateUtils.SameWeek` | src/utils/dateUtils.ts:16-18 | for a Sunday s, a day lies in s..s+6 exactly when its own week starts at s |
| `DateUtils.MonthlyRangeIsThisMonth` | src/utils/dateUtils.ts:22-26 | the range runs from the 1st of today's month to the last millisecond of its last day, and an instant is inside exactly when its day lies between those two days |
| `DateUtils.CustomRange` | src/utils/dateUtils.ts:28-32 | a missing or empty bound falls back to today's midnight at either end; a given start is read as a date, a given end as that date at 23:59:59 |
| `DateUtils.ConvertToPkr` | src/utils/dateUtils.ts:43-45 | PKR amounts pass unchanged; USD amounts are multiplied by 280 |
| `DateUtils.ConversionProperties` | src/utils/dateUtils.ts:43-45 | converting is idempotent, keeps signs and order, and is additive |
| `Calendar.YearLength` | src/utils/dateUtils.ts:23-24 | consecutive January 1sts are 366 days apart in Gregorian leap years and 365 otherwise |
| `Calendar.DayZeroOfNextMonth` | src/utils/dateUtils.ts:24 | `new Date(y, m + 1, 0)` is the last day of month m, December rolling into the next year, and the 1st of the next month follows it |
| `Calendar.MakeDayShift` | src/utils/dateUtils.ts:16-18 | `setDate(d + k)` moves the day number by exactly k, across month and year ends |
| `Calendar.EndOfDayIsLastMillisecond` | src/utils/dateUtils.ts:19 | `setHours(23, 59, 59, 999)` is the last millisecond of the day, and 23:59:59 is one second before the day ends |
| `Calendar.FebruaryLength` | src/utils/dateUtils.ts:24 | counted as `new Date(y, 2, 0)` counts it, from February 1st to day 0 of March, February has 29 days exactly in leap years and 28 otherwise |
| `Calendar.DayNumberInjective` | src/utils/dateUtils.ts:5 | two valid calendar dates with the same day number are the same date |
| `Calendar.Normalize` | src/utils/dateUtils.ts:15-18 | the date fields read back after `setDate` on a nearby day form a valid date with that day number |
| `Calendar.SundayOnOrBefore` | src/utils/dateUtils.ts:16 | stepping back by `getDay()` lands on a Sunday, zero to six days earlier |
| `IsoDate.ParseDateOnly` | src/components/Dashboard.tsx:19 | a string that reads as a date names a valid calendar date with a four-digit year |
| `IsoDate.FormatThenParse` | src/components/TransactionForm.tsx:27 | the `YYYY-MM-DD` text of a date reads back as the same date |
| `IsoDate.ParseThenFormat` | src/components/Dashboard.tsx:19 | a string that reads as a date is exactly the text of the date it names |
| `IsoDate.EndOfNamedDay` | src/utils/dateUtils.ts:31 | appending `T23:59:59` to a date string names one second before the end of that day, and yields an Invalid Date when the string is not a date |
| `IsoDate.StartOfNamedDay` | src/utils/dateUtils.ts:30-31 | the `YYYY-MM-DD` text of a calendar day names that day's midnight, and with `T23:59:59` appended one second before the next midnight |
| `IsoDate.NewDate` | src/components/Dashboard.tsx:19 | a date-only string always gives a real date, and any real date it gives falls on the day its first ten characters name |
| `IsoDate.FormatDate` | src/components/TransactionForm.tsx:27 | the text of a date has the `YYYY-MM-DD` shape the parser accepts |
| `Dashboard.FilterByRange` | src/components/Dashboard.tsx:18-21 | a transaction is shown exactly when it is stored and its date lies inside the range, and never more are shown than stored |
| `Dashboard.FilterByRangeKeepsOrder` | src/components/Dashboard.tsx:18-21 | filtering two stored runs separately and concatenating gives the filter of the concatenation |
| `Dashboard.UnparsedDateNeverShown` | src/components/Dashboard.tsx:19-20 | a transaction whose date does not read as a date is never shown, whatever the period |
| `Dashboard.Tally` | src/components/Dashboard.tsx:23-35 | the totals reduce itself, with no contract of its own; `TallyBySide` and `TallyTotal` state what it computes |
| `Dashboard.Balance` | src/components/Dashboard.tsx:37 | the balance plus the expenses is the income |
| `Dashboard.TallyBySide` | src/components/Dashboard.tsx:23-35 | the income total is the converted sum of the income transactions, and the expense total that of the expense transactions |
| `Dashboard.TallyTotal` | src/components/Dashboard.tsx:23-35 | every converted amount lands in exactly one of the two totals |
| `Dashboard.TallyPermutation` | src/components/Dashboard.tsx:23-37 | reordering the transactions changes neither the totals nor the balance |
| `Dashboard.TallyNonNegative` | src/components/Dashboard.tsx:23-37 | with non-negative amounts both totals are non-negative and the balance never exceeds the income |
| `Dashboard.Breakdown` | src/components/Dashboard.tsx:42-46 | the category reduce itself, with no contract of its own; `BreakdownKeys` and `BreakdownValues` state what it computes |
| `Dashboard.BreakdownKeys` | src/components/Dashboard.tsx:40-46 | the breakdown has one key per distinct category name among the transactions |
| `Dashboard.BreakdownValues` | src/components/Dashboard.tsx:42-46 | each category's value is the converted sum of exactly the transactions filed under it |
| `Dashboard.NoCategoryNoTotal` | src/components/Dashboard.tsx:44 | a category with no transaction has no entry |
| `Dashboard.BreakdownSum` | src/components/Dashboard.tsx:42-46 | the values of a breakdown add up to the converted sum of its transactions |
| `Dashboard.BreakdownPermutation` | src/components/Dashboard.tsx:40-55 | reordering the transactions does not change the breakdown |
| `Dashboard.BreakdownEmpty` | src/components/Dashboard.tsx:40-46 | the breakdown is empty exactly when there are no transactions |
| `Dashboard.BreakdownsMatchTotals` | src/components/Dashboard.tsx:23-55 | the income breakdown adds up to the income total and the expense breakdown to the expense total |
| `Dashboard.IncomeByCategory` | src/components/Dashboard.tsx:40-46 | the keys are the categories of the income transactions, each holding its category's converted income |
| `Dashboard.ExpensesByCategory` | src/components/Dashboard.tsx:49-55 | the keys are the categories of the expense transactions, each holding its category's converted expenses |
| `Dashboard.IncomeBreakdownKeys` | src/components/Dashboard.tsx:40-41 | a name is an income-breakdown key exactly when some shown income transaction is filed under it |
| `Dashboard.ExpenseBreakdownKeys` | src/components/Dashboard.tsx:49-50 | a name is an expense-breakdown key exactly when some shown expense transaction is filed under it |
| `Dashboard.BreakdownKeysOf` | src/components/Dashboard.tsx:40-55 | for any selection of transactions, the keys are the categories of the selected ones |
| `Dashboard.Summarize` | src/components/Dashboard.tsx:208-231 | the entry count is the number shown; the income and expense counts are the numbers of positions holding a transaction of that type; the category count is the number of distinct category names; income and expense entries add up to the total |
| `Dashboard.SummaryPermutation` | src/components/Dashboard.tsx:208-231 | the four summary counts do not depend on the order of the transactions |
| `Dashboard.CategoriesUsedAreBreakdownKeys` | src/components/Dashboard.tsx:226-231 | the categories counted are exactly the keys of the two breakdowns together |
| `Dashboard.DashboardView` | src/components/Dashboard.tsx:15-55 | the view shows the transactions of the period, and everything else is computed from those: each total is the converted sum of its type, the balance is income minus expenses, the breakdowns and the counts are those of the shown transactions |
| `Dashboard.EmptyPeriod` | src/components/Dashboard.tsx:18-55 | both breakdowns are empty exactly when the period shows nothing, and then totals and balance are zero |
| `Dashboard.ViewPermutation` | src/components/Dashboard.tsx:15-55 | reordering the stored transactions leaves the totals, balance, breakdowns and counts unchanged |
| `Periods.MidnightDay` | src/utils/dateUtils.ts:5 | the midnight of day n falls on day n |
| `Periods.DailyShowsToday` | src/utils/dateUtils.ts:8-12 | the daily view shows a transaction exactly when it is dated today |
| `Periods.WeeklyShowsThisWeek` | src/utils/dateUtils.ts:14-20 | the weekly view shows a transaction exactly when its date's Sunday-started week is today's |
| `Periods.MonthlyShowsThisMonth` | src/utils/dateUtils.ts:22-26 | the monthly view shows a transaction exactly when it is dated in today's year and month |
| `Periods.CustomShowsBetween` | src/utils/dateUtils.ts:28-32 | with both bounds given as dates, the view shows a transaction exactly when its date lies between them, both ends included |
| `Periods.CustomWithoutBoundsShowsToday` | src/utils/dateUtils.ts:30-31 | a custom period with neither bound set shows only today's transactions |
| `Periods.UnlistedShowsToday` | src/utils/dateUtils.ts:34-35 | the fall-through branch shows exactly the transactions dated today |
| `Periods.ReversedCustomShowsNothing` | src/utils/dateUtils.ts:28-32 | an end date before the start date shows nothing, with zero totals and balance |
| `Periods.NothingBetween` | src/components/Dashboard.tsx:20 | a range that ends before it starts contains no transaction |
| `Periods.UnparsedCustomBoundShowsNothing` | src/utils/dateUtils.ts:30-31 | a custom bound that is set but is not a date shows nothing |
| `Storage.DefaultData` | src/utils/storage.ts:20-23 | the default document has no transactions and the nine seed categories |
| `Storage.LoadData` | src/utils/storage.ts:6-24 | no slot, an empty slot, a parse error or a `null` document give the default document; otherwise each falsy or missing field falls back on its own default |
| `Storage.SaveData` | src/utils/storage.ts:26-32 | the slot holds exactly the stringified document |
| `Storage.RoundTripsPossible` | src/utils/storage.ts:6-32 | for every document some codec reads it back, so the round-trip premise can be met |
| `Storage.SaveThenLoad` | src/utils/storage.ts:6-32 | when the codec reads this document back, loading what was saved gives back the saved document, empty lists included |
| `Storage.LoadSaveLoad` | src/utils/storage.ts:6-32 | when the codec reads the loaded document back, saving it and loading again changes nothing |
| `Storage.CsvHeaderColumns` | src/utils/storage.ts:52 | the header splits by commas into the six column names and holds no line break |
| `Storage.CsvHeader` | src/utils/storage.ts:52 | the header line itself; `CsvHeaderColumns` states what it holds |
| `Storage.Quoted` | src/utils/storage.ts:56-59 | a quoted cell is the text between two quote marks, nothing escaped |
| `Storage.CsvCells` | src/utils/storage.ts:53-60 | a row has one cell per header column: date, type name, category in quotes, amount text, currency name, description in quotes |
| `Storage.CsvRow` | src/utils/storage.ts:53-60 | a row is its cells joined by commas; `CsvColumns` states when it splits back |
| `Storage.ExportCsv` | src/utils/storage.ts:51-61 | the export is the header and the rows joined by line breaks; `CsvLines` and `CsvStartsWithHeader` state what it holds |
| `Storage.CsvRows` | src/utils/storage.ts:53-60 | one row per transaction, in order |
| `Storage.CsvLines` | src/utils/storage.ts:51-61 | the export splits by line breaks into the header and then the rows exactly when no row holds a line break |
| `Storage.CsvStartsWithHeader` | src/utils/storage.ts:51-61 | the first line of the export is the header |
| `Storage.CsvColumns` | src/utils/storage.ts:53-60 | a row splits by commas back into its cells exactly when date, category, amount text and description hold no comma; the quotes do not protect one |
| `Storage.CsvFieldsUnderHeader` | src/utils/storage.ts:52-60 | with no comma in any cell, each cell of a row read back sits under the header column that names it |
| `Storage.QuotedContains` | src/utils/storage.ts:56 | quoting adds nothing but quote marks |
| `TransactionForm.BlankData` | src/components/TransactionForm.tsx:21-28 | a blank form is an expense in PKR with empty amount, category and description, dated today |
| `TransactionForm.InitialForm` | src/components/TransactionForm.tsx:21-31 | the first render is the blank form with the add-category input closed and empty |
| `TransactionForm.InitialFormIncomplete` | src/components/TransactionForm.tsx:21-48 | the form as first rendered cannot be saved |
| `TransactionForm.Prefill` | src/components/TransactionForm.tsx:33-44 | opening an edit copies the transaction's type, printed amount, currency, category, description and date into the form, and leaves the add-category controls as they were |
| `TransactionForm.ChangeType` | src/components/TransactionForm.tsx:117 | choosing a type sets it and clears the category, leaving the other fields and the add-category controls |
| `TransactionForm.ChangeTypeBlocksSave` | src/components/TransactionForm.tsx:48-117 | after a type change nothing can be saved until a category is picked again |
| `TransactionForm.ChangeTypeLastWins` | src/components/TransactionForm.tsx:117 | of two type changes only the last matters |
| `TransactionForm.OfferedCategories` | src/components/TransactionForm.tsx:91 | a category is offered exactly when it is stored and of the form's type |
| `TransactionForm.OfferedCategoriesPartition` | src/components/TransactionForm.tsx:91 | the categories offered for income and for expenses together number all categories |
| `TransactionForm.Complete` | src/components/TransactionForm.tsx:48 | the required fields: amount, category and date non-empty; `Submit` states its role |
| `TransactionForm.Submit` | src/components/TransactionForm.tsx:46-73 | nothing is saved, and the form is kept, exactly when amount, category or date is empty; otherwise the saved transaction carries the form's fields with the amount parsed, a new entry resets the fields, an edit keeps them, and the add-category controls stay either way |
| `TransactionForm.SubmitIdentity` | src/components/TransactionForm.tsx:51-58 | an edit keeps the edited transaction's non-empty id and creation time; a new one takes the fresh id and the current time |
| `TransactionForm.PrefillThenSubmit` | src/components/TransactionForm.tsx:33-59 | opening a transaction and submitting the untouched form saves the same transaction when its amount text reads back |
| `Js.Trim` | src/components/TransactionForm.tsx:76-80 | the trimmed name is the part of the input between white space at both ends, starts and ends with a non-space, and is empty exactly when the input is all white space |
| `TransactionForm.AddCategory` | src/components/TransactionForm.tsx:75-89 | a blank name adds nothing and keeps the form; otherwise a non-default category with the trimmed name and the form's type is added and selected, and the add-category input is cleared and closed |
| `TransactionForm.AddedCategoryIsUsable` | src/components/TransactionForm.tsx:75-91 | a new category's name is non-empty and trimmed, and once appended it is offered by the form and already selected in it |
| `DateFilter.PresetOptions` | src/components/DateFilter.tsx:19-24 | four buttons with pairwise distinct selectors |
| `DateFilter.SelectableSelectors` | src/components/DateFilter.tsx:19-27 | a button produces a selector exactly when it is one of the four named ones |
| `DateFilter.Update` | src/components/DateFilter.tsx:27-59 | a button sets only the selector; each date input sets only its own bound |
| `DateFilter.Shown` | src/components/DateFilter.tsx:47 | an input shows its bound when that is non-empty and nothing otherwise |
| `DateFilter.StaysSelectable` | src/components/DateFilter.tsx:19-36 | no sequence of events leads from a named selector to the fall-through one |
| `DateFilter.PressesKeepDates` | src/components/DateFilter.tsx:27 | switching presets never loses the custom dates |
| `DateFilter.EditsCommute` | src/components/DateFilter.tsx:48-59 | editing the start and end dates in either order gives the same filter |
| `ExportImport.CheckImport` | src/components/ExportImport.tsx:19-34 | a document is accepted exactly when both its fields are truthy, and is then passed on as read; a parse error or `null` ends in the error message, any other rejection in the format message |
| `ExportImport.ExportThenImport` | src/components/ExportImport.tsx:22-26 | when the codec reads the document back, its JSON backup imports as the same document, even with empty lists |
| `ExportImport.MissingFieldRejected` | src/components/ExportImport.tsx:25-29 | a backup lacking either field is rejected with the format message |
| `ExportImport.ImportAgreesWithLoad` | src/components/ExportImport.tsx:25-26 | a document that import accepts is loaded back unchanged from the same text |
| `ExportImport.QuickStats` | src/components/ExportImport.tsx:111-127 | the transaction and category counts are the stored numbers; the income and expense counts are the numbers of positions holding a transaction of that type, and add up to the total |
| `ExportImport.QuickStatsZero` | src/components/ExportImport.tsx:115-123 | a zero income (expense) count means no income (expense) transaction is stored |
| `App.Mount` | src/App.tsx:17-20 | on mount the document is what the slot loads to, and nothing else changes |
| `App.Initial` | src/App.tsx:12-15 | the state before mounting, with no contract of its own: an empty document, the dashboard tab, no editor, the monthly filter |
| `App.Persist` | src/App.tsx:22-25 | the new document is shown and written to the slot; tab, editor and filter stay |
| `App.ReplaceById` | src/App.tsx:29 | same length; entries with the saved transaction's id become it, the others stay |
| `App.ReplaceByIdProperties` | src/App.tsx:28-30 | replacing keeps the ids, replacing twice is replacing once, and an unknown id changes nothing, so the save is lost |
| `App.ReplaceUnique` | src/App.tsx:29 | with unique ids, an edit replaces exactly one transaction in place |
| `App.RemoveById` | src/App.tsx:48 | a transaction remains exactly when it was stored and has another id |
| `App.RemoveByIdProperties` | src/App.tsx:48 | deletion keeps the order of the rest, removes exactly the matching transactions, and deleting again changes nothing |
| `App.RemoveKeepsUnique` | src/App.tsx:46-52 | deleting keeps ids unique |
| `App.SaveTransaction` | src/App.tsx:27-39 | a new transaction is appended and an edit replaces by id; categories stay; after an edit the editor closes and the list tab opens; the document is persisted |
| `App.EditTransaction` | src/App.tsx:41-44 | the transaction is opened in the form tab; document, slot and date filter are untouched |
| `App.DeleteTransaction` | src/App.tsx:46-52 | without confirmation nothing changes; with it the id's transactions are removed, categories stay, and the slot holds the new document; tab, editor and filter stay |
| `App.AddCategoryTo` | src/App.tsx:54-57 | the category is appended, transactions stay, and the slot holds the new document; tab, editor and filter stay |
| `App.CancelEdit` | src/App.tsx:59-62 | the editor closes and the list tab opens; document, slot and date filter are untouched |
| `App.ImportDocument` | src/App.tsx:64-66 | the imported document replaces the whole document and is written to the slot; tab, editor and filter stay |
| `App.Step` | src/App.tsx:17-66 | every action either leaves document and slot alone or writes the new document to the slot; only the filter controls move the filter; only adding a category or an import changes the categories |
| `App.MountPersisted` | src/App.tsx:17-20 | after mounting, a reload shows the same document |
| `App.StepPersisted` | src/App.tsx:22-25 | when the codec reads back the document an action leaves, a reload after that action shows it |
| `App.RejectedImportChangesNothing` | src/App.tsx:64-66 | a rejected or failed import leaves the whole application state as it was |
| `App.FilterStaysSelectable` | src/App.tsx:122 | no user action leaves the date filter on a selector no button produces |
| `App.InitialFilterSelectable` | src/App.tsx:15 | the initial monthly filter is one a button produces |
| `App.StepKeepsIdsUnique` | src/App.tsx:27-52 | saving with a fresh id, editing, deleting and every action other than import keep transaction ids unique |
| `Scenarios.FreshInstall` | src/utils/storage.ts:20-23 | a fresh install shows no transactions and the nine seed categories |
| `Scenarios.SeedCategoriesOffered` | src/components/TransactionForm.tsx:91 | of the seed categories the form offers the first three for income and the other six for expenses |
| `Scenarios.FirstSave` | src/App.tsx:27-33 | after a fresh install, a complete new-entry form stores exactly the transaction it describes |
| `Scenarios.SingleTodayShown` | src/components/Dashboard.tsx:18-21 | a lone transaction dated today is the whole daily view |
| `Scenarios.BlankDateShownToday` | src/components/TransactionForm.tsx:27 | with the browser's date string as today's `YYYY-MM-DD` text, a transaction saved with the blank form's date is in the daily view |
| `Scenarios.LoneExpenseTotals` | src/components/Dashboard.tsx:23-35 | a lone 100 PKR expense gives totals of 0 income and 100 expenses |
| `Scenarios.LoneExpenseBreakdowns` | src/components/Dashboard.tsx:40-55 | a lone 100 PKR expense gives an empty income breakdown and a single 100 expense entry |
| `Scenarios.LoneExpenseSummary` | src/components/Dashboard.tsx:208-231 | a lone expense counts 0 income, 1 expense, 1 entry and 1 category |
| `Scenarios.OneExpenseToday` | src/components/Dashboard.tsx:15-55 | the daily view of one 100 PKR expense dated today: totals 0 and 100, balance −100, one expense category, no income |
| `Scenarios.MixedCurrencies` | src/components/Dashboard.tsx:23-37 | 10 USD income and 500 PKR expense today give income 2800, expenses 500 and balance 2300 |

## Left out

- Time zones and daylight saving. Local time is UTC, so the UTC reading of `new Date("YYYY-MM-DD")` and the local reading of `new Date("YYYY-MM-DDT23:59:59")` coincide. In a browser with a non-zero offset they differ by that offset.
- Date strings other than `YYYY-MM-DD` and `YYYY-MM-DDT23:59:59` are an Invalid Date. Browsers accept more forms.
- Years outside 0–9999 in date strings. The `YYYY-MM-DD` form cannot write them.
- DateUtils.GetDateRange: the clock's year is taken to lie in 100–275759. `new Date(y, m, d)` at dateUtils.ts:5 and 23-24 reads years 0–99 as 1900–1999, so for such a clock the source's ranges lie in the twentieth century and miss the current instant. Near year 275760 the range ends pass ECMAScript's TimeClip limit and become an Invalid Date. Neither case is modelled.
- IsoDate.ParseDateOnly: a `YYYY-MM-DD` string whose day exceeds its month's length (`2023-02-30`) is an Invalid Date here. ECMA-262 leaves such a string to the engine: V8 rolls it into the next month, other engines reject it. The form's date input never produces one; only an imported or hand-edited document can hold it.
- Dashboard.Tally: amounts are exact reals. IEEE-754 rounding of the sums is not modelled, and neither is the NaN that `parseFloat` gives for non-numeric text.
- `formatCurrency` and every `toLocaleString`: display formatting only.
- Charts, rendering, `alert`/`confirm` dialogs and `FileReader`. The user's answer to `confirm` is an input of `DeleteTransaction`. The file's text reaches the model as what `JSON.parse` made of it.
- `exportToJSON` and the download links: the JSON text is `codec.stringify`; the data URI and the dated file names are left out.
- `generateId`: the model takes the id as an input. Its uniqueness is a precondition of `App.StepKeepsIdsUnique`, not a property of the generator.
- `localStorage` write failures (quota). `saveData` swallows them, so the slot would keep its old text.
- Imported or stored documents whose fields are truthy but are not arrays of well-formed records: the model's document holds only typed records. Fields other than `transactions` and `categories` are also dropped.
- Object keys that collide with `Object.prototype` names in the breakdown reduce (e.g. a category named `constructor`). Key order of the breakdown is also not modelled: the breakdown is a map.
- `TransactionList` is not part of this model. The handlers it calls (edit, delete) are.
- The form's local state is modelled as a value passed to `Submit`. Its loss when the form unmounts is left out.
- App.StepKeepsIdsUnique: excludes import, because an imported document may hold duplicate ids, and the source does not check them.
- Storage.CsvHeaderColumns: states the header through its split into the six column names, with no line break. It does not compare the header with the literal text `Date,Type,Category,Amount,Currency,Description`. The two say the same, because the header is the comma join of those names.
