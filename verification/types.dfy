/** The records of src/types/index.ts. String unions become enumerations; amounts are
    exact reals instead of IEEE doubles; dates stay the strings the application stores. */
module Types {
  import opened Js

  datatype TxType = Income | Expense

  datatype Currency = PKR | USD

  datatype Transaction = Transaction(
    id: string,
    txType: TxType,
    amount: real,
    currency: Currency,
    category: string,    // a category name, matched as free text
    description: string,
    date: string,        // `YYYY-MM-DD` as entered
    createdAt: string    // an ISO timestamp, fixed when the transaction is first saved
  )

  predicate IsIncome(t: Transaction) { t.txType == Income }

  predicate IsExpense(t: Transaction) { t.txType == Expense }

  datatype Category = Category(id: string, name: string, catType: TxType, isDefault: bool)

  /** The whole persisted document: transactions and categories in insertion order. */
  datatype AppData = AppData(transactions: seq<Transaction>, categories: seq<Category>)

  /** The date-range selector. `Unlisted` stands for any other string the field could hold,
      which reaches the fall-through branch of the range resolver. */
  datatype Selector = Daily | Weekly | Monthly | Custom | Unlisted

  datatype DateRangeFilter = DateRangeFilter(selector: Selector, startDate: Option<string>, endDate: Option<string>)

  function TxTypeName(t: TxType): string
  {
    match t
    case Income => "income"
    case Expense => "expense"
  }

  function CurrencyName(c: Currency): string
  {
    match c
    case PKR => "PKR"
    case USD => "USD"
  }
}
