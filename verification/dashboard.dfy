/** The computations behind src/components/Dashboard.tsx: the period filter, the PKR totals
    and balance, the two per-category breakdowns and the summary counts. */
module Dashboard {
  import opened Js
  import opened Types
  import opened Folds
  import opened Calendar
  import opened IsoDate
  import opened DateUtils

  /** The amount in the reporting currency. */
  function Converted(t: Transaction): real
  {
    ConvertToPkr(t.amount, t.currency)
  }

  /** `new Date(t.date) >= start && new Date(t.date) <= end` */
  predicate InPeriod(r: Range, t: Transaction)
  {
    InRange(NewDate(t.date), r)
  }

  /** The transactions shown for a period, in their stored order. */
  function FilterByRange(ts: seq<Transaction>, r: Range): (f: seq<Transaction>)
    ensures |f| <= |ts|
    ensures forall t :: t in f <==> t in ts && InPeriod(r, t)
  {
    var f := Filter(ts, t => InPeriod(r, t));
    forall t ensures t in f <==> t in ts && InPeriod(r, t) {
      FilterMembership(ts, t => InPeriod(r, t), t);
    }
    f
  }

  /** Filtering keeps order: filtering a concatenation concatenates the filtered parts. */
  lemma FilterByRangeKeepsOrder(a: seq<Transaction>, b: seq<Transaction>, r: Range)
    ensures FilterByRange(a + b, r) == FilterByRange(a, r) + FilterByRange(b, r)
  {
    FilterConcat(a, b, t => InPeriod(r, t));
  }

  /** A transaction whose date does not parse is never shown. */
  lemma UnparsedDateNeverShown(ts: seq<Transaction>, r: Range, t: Transaction)
    requires NewDate(t.date) == InvalidDate
    ensures t !in FilterByRange(ts, r)
  {
  }

  /** `{ income, expenses }` as the reduce accumulates it. */
  datatype Totals = Totals(income: real, expenses: real)

  /** The totals reduce: each transaction's converted amount goes to income when its type
      is income, and to expenses otherwise. */
  function Tally(ts: seq<Transaction>): Totals
    decreases |ts|
  {
    if |ts| == 0 then Totals(0.0, 0.0)
    else
      var acc := Tally(ts[..|ts| - 1]);
      var t := ts[|ts| - 1];
      var amount := Converted(t);
      if t.txType == Income then Totals(acc.income + amount, acc.expenses)
      else Totals(acc.income, acc.expenses + amount)
  }

  /** `totalIncome - totalExpenses`: what is left of the income once the expenses are paid. */
  function Balance(totals: Totals): (b: real)
    ensures b + totals.expenses == totals.income
  {
    totals.income - totals.expenses
  }

  /** Each total is the sum of the converted amounts of its own type. */
  lemma {:induction false} TallyBySide(ts: seq<Transaction>)
    ensures Tally(ts).income == SumBy(Filter(ts, IsIncome), Converted)
    ensures Tally(ts).expenses == SumBy(Filter(ts, IsExpense), Converted)
    decreases |ts|
  {
    if |ts| > 0 {
      var ts' := ts[..|ts| - 1];
      var t := ts[|ts| - 1];
      TallyBySide(ts');
      SumByConcat(Filter(ts', IsIncome), if IsIncome(t) then [t] else [], Converted);
      SumByConcat(Filter(ts', IsExpense), if IsExpense(t) then [t] else [], Converted);
    }
  }

  /** Every amount lands in exactly one total. */
  lemma {:induction false} TallyTotal(ts: seq<Transaction>)
    ensures Tally(ts).income + Tally(ts).expenses == SumBy(ts, Converted)
    decreases |ts|
  {
    if |ts| > 0 {
      TallyTotal(ts[..|ts| - 1]);
    }
  }

  /** Reordering the transactions does not change the totals or the balance. */
  lemma TallyPermutation(a: seq<Transaction>, b: seq<Transaction>)
    requires multiset(a) == multiset(b)
    ensures Tally(a) == Tally(b)
    ensures Balance(Tally(a)) == Balance(Tally(b))
  {
    TallyBySide(a);
    TallyBySide(b);
    FilterPermutation(a, b, IsIncome);
    FilterPermutation(a, b, IsExpense);
    SumByPermutation(Filter(a, IsIncome), Filter(b, IsIncome), Converted);
    SumByPermutation(Filter(a, IsExpense), Filter(b, IsExpense), Converted);
  }

  /** With non-negative amounts both totals are non-negative and the balance is at most the income. */
  lemma {:induction false} TallyNonNegative(ts: seq<Transaction>)
    requires forall k :: 0 <= k < |ts| ==> ts[k].amount >= 0.0
    ensures Tally(ts).income >= 0.0 && Tally(ts).expenses >= 0.0
    ensures Balance(Tally(ts)) <= Tally(ts).income
    decreases |ts|
  {
    if |ts| > 0 {
      var ts' := ts[..|ts| - 1];
      assert forall k :: 0 <= k < |ts'| ==> ts'[k] == ts[k];
      TallyNonNegative(ts');
      assert Converted(ts[|ts| - 1]) >= 0.0;
    }
  }

  /** The category-breakdown reduce: `acc[t.category] = (acc[t.category] || 0) + amount`. */
  function Breakdown(ts: seq<Transaction>): map<string, real>
    decreases |ts|
  {
    if |ts| == 0 then map[]
    else AddTo(Breakdown(ts[..|ts| - 1]), ts[|ts| - 1].category, Converted(ts[|ts| - 1]))
  }

  /** The category names of a sequence of transactions, in order. */
  function Names(ts: seq<Transaction>): (r: seq<string>)
    ensures |r| == |ts| && forall k :: 0 <= k < |ts| ==> r[k] == ts[k].category
  {
    seq(|ts|, k requires 0 <= k < |ts| => ts[k].category)
  }

  /** The selector of the transactions filed under category `c`. */
  function FiledUnder(c: string): Transaction -> bool
  {
    (t: Transaction) => t.category == c
  }

  /** The sum of the converted amounts of the transactions filed under `c`. */
  function CategoryTotal(ts: seq<Transaction>, c: string): real
  {
    SumBy(Filter(ts, FiledUnder(c)), Converted)
  }

  /** The breakdown's keys are exactly the categories that occur. */
  lemma {:induction false} BreakdownKeys(ts: seq<Transaction>)
    ensures Breakdown(ts).Keys == Distinct(Names(ts))
    decreases |ts|
  {
    if |ts| > 0 {
      var ts' := ts[..|ts| - 1];
      BreakdownKeys(ts');
      assert Names(ts) == Names(ts') + [ts[|ts| - 1].category];
      assert Distinct(Names(ts)) == Distinct(Names(ts')) + {ts[|ts| - 1].category};
    }
  }

  /** Each breakdown value is the sum of that category's converted amounts. */
  lemma {:induction false} BreakdownValues(ts: seq<Transaction>)
    ensures forall c :: c in Breakdown(ts) ==> Breakdown(ts)[c] == CategoryTotal(ts, c)
    decreases |ts|
  {
    if |ts| > 0 {
      var ts' := ts[..|ts| - 1];
      var t := ts[|ts| - 1];
      BreakdownValues(ts');
      BreakdownKeys(ts');
      forall c | c in Breakdown(ts) ensures Breakdown(ts)[c] == CategoryTotal(ts, c) {
        BreakdownValueStep(ts', t, c);
      }
    }
  }

  lemma BreakdownValueStep(ts': seq<Transaction>, t: Transaction, c: string)
    requires Breakdown(ts').Keys == Distinct(Names(ts'))
    requires c in Breakdown(ts') ==> Breakdown(ts')[c] == CategoryTotal(ts', c)
    requires c in Breakdown(ts' + [t])
    ensures Breakdown(ts' + [t])[c] == CategoryTotal(ts' + [t], c)
  {
    var ts := ts' + [t];
    assert ts[..|ts| - 1] == ts';
    var p := FiledUnder(c);
    assert Filter(ts, p) == Filter(ts', p) + (if p(t) then [t] else []);
    SumByConcat(Filter(ts', p), if p(t) then [t] else [], Converted);
    if c !in Breakdown(ts') {
      NoCategoryNoTotal(ts', c);
    }
  }

  /** A category that never occurs contributes nothing. */
  lemma {:induction false} NoCategoryNoTotal(ts: seq<Transaction>, c: string)
    requires c !in Distinct(Names(ts))
    ensures Filter(ts, FiledUnder(c)) == []
    ensures CategoryTotal(ts, c) == 0.0
    decreases |ts|
  {
    if |ts| > 0 {
      var ts' := ts[..|ts| - 1];
      assert Names(ts) == Names(ts') + [ts[|ts| - 1].category];
      assert Distinct(Names(ts')) <= Distinct(Names(ts));
      NoCategoryNoTotal(ts', c);
    }
  }

  /** The breakdown's values add up to the sum of all converted amounts. */
  lemma {:induction false} BreakdownSum(ts: seq<Transaction>)
    ensures SumValues(Breakdown(ts)) == SumBy(ts, Converted)
    decreases |ts|
  {
    if |ts| > 0 {
      BreakdownSum(ts[..|ts| - 1]);
      AddToSum(Breakdown(ts[..|ts| - 1]), ts[|ts| - 1].category, Converted(ts[|ts| - 1]));
    }
  }

  /** Reordering the transactions does not change the breakdown. */
  lemma BreakdownPermutation(a: seq<Transaction>, b: seq<Transaction>)
    requires multiset(a) == multiset(b)
    ensures Breakdown(a) == Breakdown(b)
  {
    var ma, mb := Breakdown(a), Breakdown(b);
    BreakdownKeys(a);
    BreakdownKeys(b);
    forall c ensures c in ma <==> c in mb {
      SameNames(a, b, c);
    }
    BreakdownValues(a);
    BreakdownValues(b);
    forall c | c in ma ensures ma[c] == mb[c] {
      CategoryTotalPermutation(a, b, c);
    }
    MapExt(ma, mb);
  }

  lemma MapExt<K, V>(m1: map<K, V>, m2: map<K, V>)
    requires forall k :: k in m1 <==> k in m2
    requires forall k :: k in m1 ==> m1[k] == m2[k]
    ensures m1 == m2
  {
  }

  lemma CategoryTotalPermutation(a: seq<Transaction>, b: seq<Transaction>, c: string)
    requires multiset(a) == multiset(b)
    ensures CategoryTotal(a, c) == CategoryTotal(b, c)
  {
    FilterPermutation(a, b, FiledUnder(c));
    SumByPermutation(Filter(a, FiledUnder(c)), Filter(b, FiledUnder(c)), Converted);
  }

  lemma SameNames(a: seq<Transaction>, b: seq<Transaction>, c: string)
    requires multiset(a) == multiset(b)
    ensures c in Distinct(Names(a)) <==> c in Distinct(Names(b))
  {
    if c in Distinct(Names(a)) {
      var k :| 0 <= k < |a| && a[k].category == c;
      assert a[k] in multiset(b);
      var j :| 0 <= j < |b| && b[j] == a[k];
      assert Names(b)[j] == c;
    }
    if c in Distinct(Names(b)) {
      var k :| 0 <= k < |b| && b[k].category == c;
      assert b[k] in multiset(a);
      var j :| 0 <= j < |a| && a[j] == b[k];
      assert Names(a)[j] == c;
    }
  }

  /** An empty breakdown means there was nothing to break down. */
  lemma BreakdownEmpty(ts: seq<Transaction>)
    ensures Breakdown(ts) == map[] <==> ts == []
  {
    BreakdownKeys(ts);
    if ts != [] {
      assert Names(ts)[0] in Distinct(Names(ts));
    }
  }

  /** `incomeByCategory`: a key per category of an income transaction, holding that
      category's converted income. */
  function IncomeByCategory(f: seq<Transaction>): (m: map<string, real>)
    ensures m.Keys == set t | t in Filter(f, IsIncome) :: t.category
    ensures forall c :: c in m ==> m[c] == CategoryTotal(Filter(f, IsIncome), c)
  {
    BreakdownKeys(Filter(f, IsIncome));
    CategoryNames(Filter(f, IsIncome));
    BreakdownValues(Filter(f, IsIncome));
    Breakdown(Filter(f, IsIncome))
  }

  /** `expensesByCategory`: a key per category of an expense transaction, holding that
      category's converted expenses. */
  function ExpensesByCategory(f: seq<Transaction>): (m: map<string, real>)
    ensures m.Keys == set t | t in Filter(f, IsExpense) :: t.category
    ensures forall c :: c in m ==> m[c] == CategoryTotal(Filter(f, IsExpense), c)
  {
    BreakdownKeys(Filter(f, IsExpense));
    CategoryNames(Filter(f, IsExpense));
    BreakdownValues(Filter(f, IsExpense));
    Breakdown(Filter(f, IsExpense))
  }

  /** Each side's breakdown adds up to that side's total. */
  lemma BreakdownsMatchTotals(f: seq<Transaction>)
    ensures SumValues(IncomeByCategory(f)) == Tally(f).income
    ensures SumValues(ExpensesByCategory(f)) == Tally(f).expenses
  {
    TallyBySide(f);
    BreakdownSum(Filter(f, IsIncome));
    BreakdownSum(Filter(f, IsExpense));
  }

  /** The income breakdown's keys are exactly the categories of income transactions. */
  lemma IncomeBreakdownKeys(f: seq<Transaction>, c: string)
    ensures c in IncomeByCategory(f) <==> exists t :: t in f && IsIncome(t) && t.category == c
  {
    BreakdownKeysOf(f, IsIncome, c);
  }

  /** The expense breakdown's keys are exactly the categories of expense transactions. */
  lemma ExpenseBreakdownKeys(f: seq<Transaction>, c: string)
    ensures c in ExpensesByCategory(f) <==> exists t :: t in f && IsExpense(t) && t.category == c
  {
    BreakdownKeysOf(f, IsExpense, c);
  }

  lemma BreakdownKeysOf(f: seq<Transaction>, p: Transaction -> bool, c: string)
    ensures c in Breakdown(Filter(f, p)) <==> exists t :: t in f && p(t) && t.category == c
  {
    var s := Filter(f, p);
    BreakdownKeys(s);
    if c in Breakdown(s) {
      var k :| 0 <= k < |s| && Names(s)[k] == c;
      FilterMembership(f, p, s[k]);
    }
    if exists t :: t in f && p(t) && t.category == c {
      var t :| t in f && p(t) && t.category == c;
      FilterMembership(f, p, t);
      var k :| 0 <= k < |s| && s[k] == t;
      assert Names(s)[k] == c;
    }
  }

  /** The "Transaction Summary" counts. */
  datatype Summary = Summary(incomeEntries: nat, expenseEntries: nat, totalEntries: nat, categoriesUsed: nat)

  /** The counts of the shown transactions: income entries, expense entries, all entries, and
      the distinct category names among them. */
  function Summarize(f: seq<Transaction>): (s: Summary)
    ensures s.totalEntries == |f|
    ensures s.incomeEntries == |Positions(f, IsIncome)| && s.expenseEntries == |Positions(f, IsExpense)|
    ensures s.categoriesUsed == |set t | t in f :: t.category|
    ensures s.incomeEntries + s.expenseEntries == s.totalEntries
    ensures s.categoriesUsed <= s.totalEntries
    ensures s.totalEntries > 0 <==> s.categoriesUsed > 0
  {
    FilterPartitionLength(f, IsIncome, IsExpense);
    FilterCountsPositions(f, IsIncome);
    FilterCountsPositions(f, IsExpense);
    DistinctBound(Names(f));
    CategoryNames(f);
    Summary(|Filter(f, IsIncome)|, |Filter(f, IsExpense)|, |f|, |Distinct(Names(f))|)
  }

  /** The distinct entries of the name column are the categories of the transactions. */
  lemma CategoryNames(f: seq<Transaction>)
    ensures Distinct(Names(f)) == set t | t in f :: t.category
  {
    forall c | c in set t | t in f :: t.category ensures c in Distinct(Names(f)) {
      var t :| t in f && t.category == c;
      var k :| 0 <= k < |f| && f[k] == t;
      assert Names(f)[k] == c;
    }
  }

  /** The categories used are exactly the keys of the two breakdowns together. */
  lemma CategoriesUsedAreBreakdownKeys(f: seq<Transaction>)
    ensures Distinct(Names(f)) == IncomeByCategory(f).Keys + ExpensesByCategory(f).Keys
    ensures Summarize(f).categoriesUsed == |IncomeByCategory(f).Keys + ExpensesByCategory(f).Keys|
  {
    forall c ensures c in Distinct(Names(f)) <==> c in IncomeByCategory(f) || c in ExpensesByCategory(f) {
      UsedCategoryIsKey(f, c);
    }
  }

  lemma UsedCategoryIsKey(f: seq<Transaction>, c: string)
    ensures c in Distinct(Names(f)) <==> c in IncomeByCategory(f) || c in ExpensesByCategory(f)
  {
    IncomeBreakdownKeys(f, c);
    ExpenseBreakdownKeys(f, c);
    if c in Distinct(Names(f)) {
      var k :| 0 <= k < |f| && Names(f)[k] == c;
      assert f[k] in f;
    }
  }

  /** Everything the dashboard derives from the stored transactions and the filter. */
  datatype View = View(
    filtered: seq<Transaction>,
    totals: Totals,
    balance: real,
    incomeByCategory: map<string, real>,
    expensesByCategory: map<string, real>,
    summary: Summary)

  function DashboardView(ts: seq<Transaction>, filter: DateRangeFilter, c: Clock): (v: View)
    requires ValidClock(c)
    ensures v.filtered == FilterByRange(ts, GetDateRange(filter, c))
    ensures v.totals.income == SumBy(Filter(v.filtered, IsIncome), Converted)
    ensures v.totals.expenses == SumBy(Filter(v.filtered, IsExpense), Converted)
    ensures v.balance == v.totals.income - v.totals.expenses
    ensures v.incomeByCategory == IncomeByCategory(v.filtered)
    ensures v.expensesByCategory == ExpensesByCategory(v.filtered)
    ensures v.summary == Summarize(v.filtered)
  {
    var f := FilterByRange(ts, GetDateRange(filter, c));
    TallyBySide(f);
    var totals := Tally(f);
    View(f, totals, Balance(totals), IncomeByCategory(f), ExpensesByCategory(f), Summarize(f))
  }

  /** Both breakdowns are empty (both "no data" placeholders show) exactly when the period
      holds no transaction, and then the totals and the balance are zero. */
  lemma EmptyPeriod(ts: seq<Transaction>, filter: DateRangeFilter, c: Clock)
    requires ValidClock(c)
    ensures var v := DashboardView(ts, filter, c);
      v.incomeByCategory == map[] && v.expensesByCategory == map[] <==> v.filtered == []
    ensures var v := DashboardView(ts, filter, c);
      v.filtered == [] ==> v.totals == Totals(0.0, 0.0) && v.balance == 0.0
  {
    var f := FilterByRange(ts, GetDateRange(filter, c));
    BreakdownEmpty(Filter(f, IsIncome));
    BreakdownEmpty(Filter(f, IsExpense));
    FilterPartitionLength(f, IsIncome, IsExpense);
  }

  /** The view does not depend on the order transactions are stored in. */
  lemma ViewPermutation(a: seq<Transaction>, b: seq<Transaction>, filter: DateRangeFilter, c: Clock)
    requires ValidClock(c)
    requires multiset(a) == multiset(b)
    ensures var va := DashboardView(a, filter, c); var vb := DashboardView(b, filter, c);
      va.totals == vb.totals && va.balance == vb.balance
      && va.incomeByCategory == vb.incomeByCategory && va.expensesByCategory == vb.expensesByCategory
      && va.summary == vb.summary
  {
    var r := GetDateRange(filter, c);
    var fa := FilterByRange(a, r);
    var fb := FilterByRange(b, r);
    FilterPermutation(a, b, t => InPeriod(r, t));
    TallyPermutation(fa, fb);
    FilterPermutation(fa, fb, IsIncome);
    FilterPermutation(fa, fb, IsExpense);
    BreakdownPermutation(Filter(fa, IsIncome), Filter(fb, IsIncome));
    BreakdownPermutation(Filter(fa, IsExpense), Filter(fb, IsExpense));
    SummaryPermutation(fa, fb);
  }

  /** The summary counts do not depend on the order of the transactions. */
  lemma SummaryPermutation(a: seq<Transaction>, b: seq<Transaction>)
    requires multiset(a) == multiset(b)
    ensures Summarize(a) == Summarize(b)
  {
    FilterPermutation(a, b, IsIncome);
    FilterPermutation(a, b, IsExpense);
    assert |Filter(a, IsIncome)| == |multiset(Filter(a, IsIncome))|;
    assert |Filter(b, IsIncome)| == |multiset(Filter(b, IsIncome))|;
    assert |Filter(a, IsExpense)| == |multiset(Filter(a, IsExpense))|;
    assert |Filter(b, IsExpense)| == |multiset(Filter(b, IsExpense))|;
    assert |a| == |multiset(a)| && |b| == |multiset(b)|;
    forall c ensures c in Distinct(Names(a)) <==> c in Distinct(Names(b)) {
      SameNames(a, b, c);
    }
    assert Distinct(Names(a)) == Distinct(Names(b));
  }
}
