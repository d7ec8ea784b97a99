/** Worked examples of the whole application: a fresh install, a first expense, and a mixed
    currency day, each read off the dashboard's `daily` view. */
module Scenarios {
  import opened Js
  import opened Types
  import opened Folds
  import opened Categories
  import opened Calendar
  import opened IsoDate
  import opened DateUtils
  import opened Storage
  import opened Dashboard
  import opened Periods
  import opened TransactionForm
  import opened App

  /** A fresh install starts with no transactions and the nine seed categories. */
  lemma FreshInstall(codec: Codec)
    ensures Mount(Initial(None), codec.parse).data == AppData([], DefaultCategories())
  {
  }

  /** Of the seed categories the form offers the first three for income and the other six
      for expenses. */
  lemma SeedCategoriesOffered()
    ensures OfferedCategories(DefaultCategories(), Income) == DefaultCategories()[..3]
    ensures OfferedCategories(DefaultCategories(), Expense) == DefaultCategories()[3..]
  {
    var cs := DefaultCategories();
    var a, b := cs[..3], cs[3..];
    assert cs == a + b;
    FilterConcat(a, b, OfType(Income));
    FilterAll(a, OfType(Income));
    FilterNone(b, OfType(Income));
    FilterConcat(a, b, OfType(Expense));
    FilterNone(a, OfType(Expense));
    FilterAll(b, OfType(Expense));
  }

  /** A single transaction dated today is the whole daily view. */
  lemma SingleTodayShown(c: Clock, t: Transaction)
    requires ValidClock(c) && DatedOn(t, c.today)
    ensures FilterByRange([t], GetDateRange(DailyFilter(), c)) == [t]
  {
    DailyShowsToday(c, DailyFilter(), t, c.today);
    assert [t][..0] == [];
  }

  /** The form and the dashboard agree on "today": when the browser's date string is today's
      `YYYY-MM-DD` text, a transaction saved with the blank form's date is in the daily view. */
  lemma BlankDateShownToday(c: Clock, t: Transaction)
    requires ValidClock(c) && 0 <= c.today.year < 10000
    requires t.date == BlankData(FormatDate(c.today)).date
    ensures InPeriod(GetDateRange(DailyFilter(), c), t)
  {
    FormatThenParse(c.today);
    DailyShowsToday(c, DailyFilter(), t, c.today);
  }

  /** After a fresh install, submitting a complete new-transaction form stores exactly the
      transaction it describes, under the fresh id and the current time. */
  lemma FirstSave(codec: Codec, form: Form, env: Env)
    requires Complete(form.data)
    ensures var s := Step(Mount(Initial(None), codec.parse), SubmitForm(form, env), codec.stringify);
      var d := form.data;
      s.data.transactions == [Transaction(env.freshId, d.txType, env.parseAmount(d.amount), d.currency, d.category, d.description, d.date, env.nowIso)]
  {
    assert [] + [Transaction(env.freshId, form.data.txType, env.parseAmount(form.data.amount), form.data.currency,
      form.data.category, form.data.description, form.data.date, env.nowIso)]
      == [Transaction(env.freshId, form.data.txType, env.parseAmount(form.data.amount), form.data.currency,
      form.data.category, form.data.description, form.data.date, env.nowIso)];
  }

  /** The totals of a lone 100 PKR expense. */
  lemma LoneExpenseTotals(t: Transaction)
    requires t.txType == Expense && t.currency == PKR && t.amount == 100.0
    ensures Tally([t]) == Totals(0.0, 100.0)
  {
    assert [t][..0] == [];
  }

  /** The breakdowns of a lone 100 PKR expense: one expense category and no income. */
  lemma LoneExpenseBreakdowns(t: Transaction)
    requires t.txType == Expense && t.currency == PKR && t.amount == 100.0
    ensures IncomeByCategory([t]) == map[] && ExpensesByCategory([t]) == map[t.category := 100.0]
  {
    assert [t][..0] == [];
    assert Filter([t], IsExpense) == [t];
    assert Filter([t], IsIncome) == [];
    assert Converted(t) == 100.0;
    assert Breakdown([t]) == AddTo(map[], t.category, 100.0);
  }

  /** The summary counts of a lone expense. */
  lemma LoneExpenseSummary(t: Transaction)
    requires t.txType == Expense
    ensures Summarize([t]) == Summary(0, 1, 1, 1)
  {
    assert [t][..0] == [];
    assert Filter([t], IsExpense) == [t];
    assert Filter([t], IsIncome) == [];
    assert Names([t]) == [t.category];
    assert Distinct([t.category]) == {t.category};
  }

  /** One 100 PKR expense dated today: in the daily view an expense total of 100, no income,
      a balance of -100 and one expense category. */
  lemma OneExpenseToday(c: Clock, t: Transaction)
    requires ValidClock(c) && DatedOn(t, c.today)
    requires t.txType == Expense && t.currency == PKR && t.amount == 100.0
    ensures var v := DashboardView([t], DailyFilter(), c);
      && v.totals == Totals(0.0, 100.0) && v.balance == -100.0
      && v.expensesByCategory == map[t.category := 100.0] && v.incomeByCategory == map[]
      && v.summary == Summary(0, 1, 1, 1)
  {
    SingleTodayShown(c, t);
    LoneExpenseTotals(t);
    LoneExpenseBreakdowns(t);
    LoneExpenseSummary(t);
  }

  /** Two transactions of today, 10 USD income and 500 PKR expense: the daily view shows an
      income of 2800, expenses of 500 and a balance of 2300. */
  lemma MixedCurrencies(c: Clock, income: Transaction, expense: Transaction)
    requires ValidClock(c)
    requires income.txType == Income && income.currency == USD && income.amount == 10.0
    requires expense.txType == Expense && expense.currency == PKR && expense.amount == 500.0
    requires DatedOn(income, c.today) && DatedOn(expense, c.today)
    ensures var v := DashboardView([income, expense], DailyFilter(), c);
      v.totals == Totals(2800.0, 500.0) && v.balance == 2300.0
  {
    var r := GetDateRange(DailyFilter(), c);
    DailyShowsToday(c, DailyFilter(), income, c.today);
    DailyShowsToday(c, DailyFilter(), expense, c.today);
    var ts := [income, expense];
    FilterAll(ts, t => InPeriod(r, t));
    assert ts[..1] == [income] && [income][..0] == [];
    assert Tally([income]) == Totals(2800.0, 0.0);
    assert Tally(ts) == Totals(2800.0, 500.0);
    assert DashboardView(ts, DailyFilter(), c).filtered == ts;
  }
}
