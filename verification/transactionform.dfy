/** src/components/TransactionForm.tsx: the form's state, the edit prefill, the type-change
    reset, the offered categories, submission and the inline "add category" action.
    `generateId()`, `new Date().toISOString()`, `parseFloat` and `Number.prototype.toString`
    enter as inputs. */
module TransactionForm {
  import opened Js
  import opened Types
  import opened Folds

  /** `formData`: every input as the text the control holds, type and currency as selected. */
  datatype FormData = FormData(
    txType: TxType,
    amount: string,
    currency: Currency,
    category: string,
    description: string,
    date: string)

  /** The whole component state: `formData`, `showAddCategory`, `newCategoryName`. */
  datatype Form = Form(data: FormData, showAddCategory: bool, newCategoryName: string)

  /** What the browser supplies at the moment of an action. */
  datatype Env = Env(
    freshId: string,                 // `generateId()`
    nowIso: string,                  // `new Date().toISOString()`
    todayIso: string,                // `new Date().toISOString().split('T')[0]`
    parseAmount: string -> real)     // `parseFloat`

  /** The blank form: an expense in PKR dated today. */
  function BlankData(todayIso: string): (d: FormData)
    ensures d.txType == Expense && d.currency == PKR
    ensures d.amount == "" && d.category == "" && d.description == "" && d.date == todayIso
  {
    FormData(Expense, "", PKR, "", "", todayIso)
  }

  /** The form as it first renders: blank, with the add-category input closed and empty. */
  function InitialForm(todayIso: string): (f: Form)
    ensures f.data == BlankData(todayIso) && !f.showAddCategory && f.newCategoryName == ""
  {
    Form(BlankData(todayIso), false, "")
  }

  /** The edit effect: every field is copied from the transaction, the amount printed as text. */
  function Prefill(f: Form, t: Transaction, numberText: real -> string): (r: Form)
    ensures r.data.txType == t.txType && r.data.amount == numberText(t.amount)
    ensures r.data.currency == t.currency && r.data.category == t.category
    ensures r.data.description == t.description && r.data.date == t.date
    ensures r.showAddCategory == f.showAddCategory && r.newCategoryName == f.newCategoryName
  {
    f.(data := FormData(t.txType, numberText(t.amount), t.currency, t.category, t.description, t.date))
  }

  /** Choosing a type in the select: the type changes and the chosen category is cleared. */
  function ChangeType(f: Form, txType: TxType): (r: Form)
    ensures r.data.txType == txType && r.data.category == ""
    ensures r.data.amount == f.data.amount && r.data.currency == f.data.currency
    ensures r.data.description == f.data.description && r.data.date == f.data.date
    ensures r.showAddCategory == f.showAddCategory && r.newCategoryName == f.newCategoryName
  {
    f.(data := f.data.(txType := txType, category := ""))
  }

  /** Why the category is cleared: after a type change nothing can be saved until a category
      of the new type is picked, so a category of the old type is never saved under the new
      one. Only the last of two changes matters. */
  lemma ChangeTypeBlocksSave(f: Form, txType: TxType, editing: Option<Transaction>, env: Env)
    ensures Submit(ChangeType(f, txType), editing, env) == Submitted(None, ChangeType(f, txType))
  {
  }

  lemma ChangeTypeLastWins(f: Form, a: TxType, b: TxType)
    ensures ChangeType(ChangeType(f, a), b) == ChangeType(f, b)
    ensures ChangeType(ChangeType(f, a), a) == ChangeType(f, a)
  {
  }

  /** The test `filteredCategories` applies: the category belongs to this type. */
  function OfType(txType: TxType): Category -> bool
  {
    (c: Category) => c.catType == txType
  }

  /** `filteredCategories`: the categories of the form's type, in stored order. */
  function OfferedCategories(categories: seq<Category>, txType: TxType): (r: seq<Category>)
    ensures |r| <= |categories|
    ensures forall c :: c in r <==> c in categories && c.catType == txType
  {
    var r := Filter(categories, OfType(txType));
    forall c ensures c in r <==> c in categories && c.catType == txType {
      FilterMembership(categories, OfType(txType), c);
    }
    r
  }

  /** The offered lists of the two types split the categories between them. */
  lemma OfferedCategoriesPartition(categories: seq<Category>)
    ensures |OfferedCategories(categories, Income)| + |OfferedCategories(categories, Expense)| == |categories|
  {
    FilterPartitionLength(categories, OfType(Income), OfType(Expense));
  }

  /** Amount, category and date are the required inputs; the description is not checked. */
  predicate Complete(d: FormData)
  {
    StrTruthy(d.amount) && StrTruthy(d.category) && StrTruthy(d.date)
  }

  /** The outcome of a submit: the transaction handed to `onSave`, if any, and the form after. */
  datatype Submitted = Submitted(saved: Option<Transaction>, form: Form)

  /** `handleSubmit`. `editing` is the transaction being edited, if any. */
  function Submit(f: Form, editing: Option<Transaction>, env: Env): (r: Submitted)
    ensures r.saved.None? <==> !Complete(f.data)
    ensures r.saved.None? ==> r.form == f
    ensures r.saved.Some? ==>
      var t := r.saved.value;
      && t.txType == f.data.txType && t.amount == env.parseAmount(f.data.amount)
      && t.currency == f.data.currency && t.category == f.data.category
      && t.description == f.data.description && t.date == f.data.date
    ensures r.saved.Some? && editing.Some? ==> r.form == f
    ensures r.saved.Some? && editing.None? ==> r.form.data == BlankData(env.todayIso)
    ensures r.form.showAddCategory == f.showAddCategory && r.form.newCategoryName == f.newCategoryName
  {
    if !Complete(f.data) then Submitted(None, f)
    else
      var d := f.data;
      var id := if editing.Some? && StrTruthy(editing.value.id) then editing.value.id else env.freshId;
      var createdAt := if editing.Some? && StrTruthy(editing.value.createdAt) then editing.value.createdAt else env.nowIso;
      var t := Transaction(id, d.txType, env.parseAmount(d.amount), d.currency, d.category, d.description, d.date, createdAt);
      Submitted(Some(t), if editing.Some? then f else f.(data := BlankData(env.todayIso)))
  }

  /** An edit keeps the identity of the transaction being edited (a non-empty id and creation
      time); a new transaction takes the fresh id and the current time. */
  lemma SubmitIdentity(f: Form, editing: Option<Transaction>, env: Env)
    requires Complete(f.data)
    ensures var t := Submit(f, editing, env).saved.value;
      && (editing.Some? && editing.value.id != "" ==> t.id == editing.value.id)
      && (editing.Some? && editing.value.createdAt != "" ==> t.createdAt == editing.value.createdAt)
      && (editing.None? ==> t.id == env.freshId && t.createdAt == env.nowIso)
  {
  }

  /** Opening a transaction for editing and submitting the untouched form saves the same
      transaction, provided its amount prints and reads back unchanged and its identity and
      required fields are non-empty. */
  lemma PrefillThenSubmit(f: Form, t: Transaction, numberText: real -> string, env: Env)
    requires numberText(t.amount) != "" && env.parseAmount(numberText(t.amount)) == t.amount
    requires t.id != "" && t.createdAt != "" && t.category != "" && t.date != ""
    ensures Submit(Prefill(f, t, numberText), Some(t), env).saved == Some(t)
  {
  }

  /** The form as it first renders cannot be saved: its amount and category are empty. */
  lemma InitialFormIncomplete(todayIso: string, editing: Option<Transaction>, env: Env)
    ensures Submit(InitialForm(todayIso), editing, env) == Submitted(None, InitialForm(todayIso))
  {
  }

  /** `handleAddCategory`: the outcome is the category handed to `onAddCategory`, if any,
      and the form after. */
  datatype Added = Added(category: Option<Category>, form: Form)

  function AddCategory(f: Form, freshId: string): (r: Added)
    ensures r.category.None? <==> AllWhiteSpace(f.newCategoryName)
    ensures r.category.None? ==> r.form == f
    ensures r.category.Some? ==>
      var c := r.category.value;
      && c == Category(freshId, Trim(f.newCategoryName), f.data.txType, false)
      && r.form.data == f.data.(category := c.name)
      && r.form.newCategoryName == "" && !r.form.showAddCategory
  {
    var name := Trim(f.newCategoryName);
    if !StrTruthy(name) then Added(None, f)
    else
      var c := Category(freshId, name, f.data.txType, false);
      Added(Some(c), Form(f.data.(category := c.name), false, ""))
  }

  /** A custom category has a non-blank name with no white space at either end, is not a
      seed category, and once appended is offered by the form and already selected in it. */
  lemma AddedCategoryIsUsable(f: Form, freshId: string, categories: seq<Category>)
    requires !AllWhiteSpace(f.newCategoryName)
    ensures var r := AddCategory(f, freshId);
      var c := r.category.value;
      && c.name != "" && Trim(c.name) == c.name && !c.isDefault
      && c in OfferedCategories(categories + [c], r.form.data.txType)
      && r.form.data.category == c.name
  {
    TrimIdempotent(f.newCategoryName);
    var c := AddCategory(f, freshId).category.value;
    assert c in categories + [c];
  }
}
