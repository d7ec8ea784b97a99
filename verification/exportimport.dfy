/** src/components/ExportImport.tsx: the check an imported backup must pass, and the
    "Current Data Summary" counts. Reading the file is outside the model; the import starts
    from what `JSON.parse` made of its text. */
module ExportImport {
  import opened Js
  import opened Types
  import opened Folds
  import opened Storage

  /** The three messages the import can end with. */
  datatype Notice = Imported | InvalidFormat | ImportError

  /** The document handed to `onImport`, if any, and the message shown. */
  datatype Outcome = Outcome(accepted: Option<AppData>, notice: Notice)

  /** The import check: both top-level fields truthy, and nothing deeper. A parse error and a
      `null` document (whose field read throws) end in the error message. */
  function CheckImport(p: Parsed): (o: Outcome)
    ensures o.accepted.Some? <==> p.Value? && p.transactions.Truthy() && p.categories.Truthy()
    ensures o.accepted.Some? ==> o.accepted.value == AppData(p.transactions.value, p.categories.value)
    ensures o.notice == Imported <==> o.accepted.Some?
    ensures o.notice == ImportError <==> !p.Value?
  {
    match p
    case SyntaxError => Outcome(None, ImportError)
    case NullValue => Outcome(None, ImportError)
    case Value(transactions, categories) =>
      if transactions.Truthy() && categories.Truthy() then
        Outcome(Some(AppData(transactions.value, categories.value)), Imported)
      else
        Outcome(None, InvalidFormat)
  }

  /** A JSON backup imports back as the same document, including one with no transactions
      or no categories (an empty array is truthy). `codec.stringify` is the indented
      `JSON.stringify(data, null, 2)` of the export. */
  lemma ExportThenImport(data: AppData, codec: Codec)
    requires RoundTrips(codec, data)
    ensures CheckImport(codec.parse(codec.stringify(data))) == Outcome(Some(data), Imported)
  {
  }

  /** A backup lacking `categories` (or `transactions`) is rejected with the format message. */
  lemma MissingFieldRejected(p: Parsed)
    requires p.Value? && (p.categories == Missing || p.transactions == Missing)
    ensures CheckImport(p) == Outcome(None, InvalidFormat)
  {
  }

  /** Whatever import accepts, a later load of the same text keeps as it is: the load
      defaults never replace an accepted document. */
  lemma ImportAgreesWithLoad(text: string, parse: string -> Parsed)
    requires text != ""
    requires CheckImport(parse(text)).accepted.Some?
    ensures LoadData(Some(text), parse) == CheckImport(parse(text)).accepted.value
  {
  }

  /** The "Current Data Summary" counts. */
  datatype Stats = Stats(transactions: nat, incomeEntries: nat, expenseEntries: nat, categories: nat)

  /** Each count is the number of stored entries of its kind. */
  function QuickStats(data: AppData): (s: Stats)
    ensures s.transactions == |data.transactions| && s.categories == |data.categories|
    ensures s.incomeEntries == |Positions(data.transactions, IsIncome)|
    ensures s.expenseEntries == |Positions(data.transactions, IsExpense)|
    ensures s.incomeEntries + s.expenseEntries == s.transactions
  {
    var ts := data.transactions;
    FilterPartitionLength(ts, IsIncome, IsExpense);
    FilterCountsPositions(ts, IsIncome);
    FilterCountsPositions(ts, IsExpense);
    Stats(|ts|, |Filter(ts, IsIncome)|, |Filter(ts, IsExpense)|, |data.categories|)
  }

  /** No income entries means no income transaction at all, and likewise for expenses. */
  lemma QuickStatsZero(data: AppData)
    ensures QuickStats(data).incomeEntries == 0 <==> forall t :: t in data.transactions ==> t.txType != Income
    ensures QuickStats(data).expenseEntries == 0 <==> forall t :: t in data.transactions ==> t.txType != Expense
  {
    var ts := data.transactions;
    forall t ensures t in Filter(ts, IsIncome) <==> t in ts && IsIncome(t) {
      FilterMembership(ts, IsIncome, t);
    }
    forall t ensures t in Filter(ts, IsExpense) <==> t in ts && IsExpense(t) {
      FilterMembership(ts, IsExpense, t);
    }
    var inc := Filter(ts, IsIncome);
    var exp := Filter(ts, IsExpense);
    if |inc| > 0 { assert inc[0] in inc; }
    if |exp| > 0 { assert exp[0] in exp; }
  }
}
