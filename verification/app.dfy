/** src/App.tsx: the application state and its handlers, each a pure step from one state to
    the next. Every change to the document goes through `handleSaveData`, which also writes
    the storage slot. Confirmation dialogs, fresh ids and clock readings are inputs. */
module App {
  import opened Js
  import opened Types
  import opened Folds
  import opened Categories
  import opened Storage
  import opened TransactionForm
  import opened ExportImport
  import DateFilter

  datatype Tab = DashboardTab | AddTab | TransactionsTab | SettingsTab

  /** `data`, `activeTab`, `editingTransaction`, `dateFilter`, and the storage slot. */
  datatype State = State(
    data: AppData,
    tab: Tab,
    editing: Option<Transaction>,
    dateFilter: DateRangeFilter,
    slot: Option<string>)

  /** The state before the mount effect runs: an empty document, the dashboard, this month. */
  function Initial(slot: Option<string>): State
  {
    State(AppData([], []), DashboardTab, None, DateRangeFilter(Monthly, None, None), slot)
  }

  /** The mount effect: the document is whatever `loadData` reads from the slot. */
  function Mount(s: State, parse: string -> Parsed): (r: State)
    ensures r.data == LoadData(s.slot, parse)
    ensures r.(data := s.data) == s
  {
    s.(data := LoadData(s.slot, parse))
  }

  /** `handleSaveData`: the new document is shown and written to the slot. */
  function Persist(s: State, data: AppData, stringify: AppData -> string): (r: State)
    ensures r.data == data && r.slot == SaveData(data, stringify)
    ensures r.tab == s.tab && r.editing == s.editing && r.dateFilter == s.dateFilter
  {
    s.(data := data, slot := SaveData(data, stringify))
  }

  // ---- sequence operations on the transactions ----

  /** `ts.map(x => x.id === t.id ? t : x)` */
  function ReplaceById(ts: seq<Transaction>, t: Transaction): (r: seq<Transaction>)
    ensures |r| == |ts|
    ensures forall k :: 0 <= k < |ts| && ts[k].id != t.id ==> r[k] == ts[k]
    ensures forall k :: 0 <= k < |ts| && ts[k].id == t.id ==> r[k] == t
  {
    seq(|ts|, k requires 0 <= k < |ts| => if ts[k].id == t.id then t else ts[k])
  }

  /** The ids of a transaction sequence, in order. */
  function Ids(ts: seq<Transaction>): (r: seq<string>)
    ensures |r| == |ts| && forall k :: 0 <= k < |ts| ==> r[k] == ts[k].id
  {
    seq(|ts|, k requires 0 <= k < |ts| => ts[k].id)
  }

  predicate UniqueIds(ts: seq<Transaction>)
  {
    forall j, k :: 0 <= j < k < |ts| ==> ts[j].id != ts[k].id
  }

  /** Replacing by id never changes the id sequence, replacing twice is replacing once, and
      an id that matches nothing leaves the sequence as it was (the save is silently lost). */
  lemma ReplaceByIdProperties(ts: seq<Transaction>, t: Transaction)
    ensures Ids(ReplaceById(ts, t)) == Ids(ts)
    ensures ReplaceById(ReplaceById(ts, t), t) == ReplaceById(ts, t)
    ensures t.id !in Ids(ts) ==> ReplaceById(ts, t) == ts
  {
  }

  /** With unique ids, replacing by id swaps exactly one element in place. */
  lemma ReplaceUnique(ts: seq<Transaction>, t: Transaction, i: nat)
    requires UniqueIds(ts) && i < |ts| && ts[i].id == t.id
    ensures ReplaceById(ts, t) == ts[..i] + [t] + ts[i + 1..]
  {
  }

  /** `ts.filter(x => x.id !== id)` */
  function RemoveById(ts: seq<Transaction>, id: string): (r: seq<Transaction>)
    ensures forall t :: t in r <==> t in ts && t.id != id
  {
    var r := Filter(ts, (t: Transaction) => t.id != id);
    forall t ensures t in r <==> t in ts && t.id != id {
      FilterMembership(ts, (t: Transaction) => t.id != id, t);
    }
    r
  }

  /** Removal keeps the relative order of the rest, drops exactly the elements with that id
      (so the length falls by their number), and removing again changes nothing. */
  lemma RemoveByIdProperties(a: seq<Transaction>, b: seq<Transaction>, id: string)
    ensures RemoveById(a + b, id) == RemoveById(a, id) + RemoveById(b, id)
    ensures |RemoveById(a, id)| + |Filter(a, (t: Transaction) => t.id == id)| == |a|
    ensures RemoveById(RemoveById(a, id), id) == RemoveById(a, id)
  {
    FilterConcat(a, b, (t: Transaction) => t.id != id);
    FilterPartitionLength(a, (t: Transaction) => t.id != id, (t: Transaction) => t.id == id);
    RemoveAgain(a, id);
  }

  lemma {:induction false} RemoveAgain(ts: seq<Transaction>, id: string)
    ensures RemoveById(RemoveById(ts, id), id) == RemoveById(ts, id)
    decreases |ts|
  {
    if |ts| > 0 {
      var ts' := ts[..|ts| - 1];
      var x := ts[|ts| - 1];
      RemoveAgain(ts', id);
      var p := (t: Transaction) => t.id != id;
      assert RemoveById(ts, id) == RemoveById(ts', id) + (if p(x) then [x] else []);
      FilterConcat(RemoveById(ts', id), if p(x) then [x] else [], p);
    }
  }

  /** Removing keeps ids unique. */
  lemma {:induction false} RemoveKeepsUnique(ts: seq<Transaction>, id: string)
    requires UniqueIds(ts)
    ensures UniqueIds(RemoveById(ts, id))
    decreases |ts|
  {
    if |ts| > 0 {
      var ts' := ts[..|ts| - 1];
      var x := ts[|ts| - 1];
      RemoveKeepsUnique(ts', id);
      var r' := RemoveById(ts', id);
      forall k | 0 <= k < |r'| ensures r'[k].id != x.id {
        assert r'[k] in ts';
        var j :| 0 <= j < |ts'| && ts'[j] == r'[k];
      }
    }
  }

  // ---- the handlers ----

  /** `handleSaveTransaction`: an edit replaces by id, anything else appends; categories are
      untouched; after an edit the editor closes and the list is shown. */
  function SaveTransaction(s: State, t: Transaction, stringify: AppData -> string): (r: State)
    ensures r.data.categories == s.data.categories
    ensures s.editing.None? ==> r.data.transactions == s.data.transactions + [t]
    ensures s.editing.Some? ==> r.data.transactions == ReplaceById(s.data.transactions, t)
    ensures s.editing.Some? ==> r.editing.None? && r.tab == TransactionsTab
    ensures s.editing.None? ==> r.editing == s.editing && r.tab == s.tab
    ensures r.dateFilter == s.dateFilter && r.slot == SaveData(r.data, stringify)
  {
    var ts := if s.editing.Some? then ReplaceById(s.data.transactions, t) else s.data.transactions + [t];
    var r := Persist(s, s.data.(transactions := ts), stringify);
    if s.editing.Some? then r.(editing := None, tab := TransactionsTab) else r
  }

  /** `handleEditTransaction` */
  function EditTransaction(s: State, t: Transaction): (r: State)
    ensures r.editing == Some(t) && r.tab == AddTab
    ensures r.data == s.data && r.slot == s.slot && r.dateFilter == s.dateFilter
  {
    s.(editing := Some(t), tab := AddTab)
  }

  /** `handleDeleteTransaction`: nothing happens unless the user confirms. */
  function DeleteTransaction(s: State, id: string, confirmed: bool, stringify: AppData -> string): (r: State)
    ensures !confirmed ==> r == s
    ensures confirmed ==> r.data.transactions == RemoveById(s.data.transactions, id)
    ensures confirmed ==> r.slot == SaveData(r.data, stringify)
    ensures r.data.categories == s.data.categories
    ensures r.tab == s.tab && r.editing == s.editing && r.dateFilter == s.dateFilter
  {
    if confirmed then Persist(s, s.data.(transactions := RemoveById(s.data.transactions, id)), stringify)
    else s
  }

  /** `handleAddCategory` */
  function AddCategoryTo(s: State, c: Category, stringify: AppData -> string): (r: State)
    ensures r.data.categories == s.data.categories + [c]
    ensures r.data.transactions == s.data.transactions
    ensures r.slot == SaveData(r.data, stringify)
    ensures r.tab == s.tab && r.editing == s.editing && r.dateFilter == s.dateFilter
  {
    Persist(s, s.data.(categories := s.data.categories + [c]), stringify)
  }

  /** `handleCancelEdit` */
  function CancelEdit(s: State): (r: State)
    ensures r.editing.None? && r.tab == TransactionsTab
    ensures r.data == s.data && r.slot == s.slot && r.dateFilter == s.dateFilter
  {
    s.(editing := None, tab := TransactionsTab)
  }

  /** `handleImport`: the whole document is replaced. */
  function ImportDocument(s: State, data: AppData, stringify: AppData -> string): (r: State)
    ensures r.data == data && r.slot == SaveData(data, stringify)
    ensures r.tab == s.tab && r.editing == s.editing && r.dateFilter == s.dateFilter
  {
    Persist(s, data, stringify)
  }

  // ---- user actions, each wired through its component ----

  datatype Action =
    | SubmitForm(form: Form, env: Env)
    | AddCustomCategory(form: Form, freshId: string)
    | Edit(t: Transaction)
    | Delete(id: string, confirmed: bool)
    | Cancel
    | ImportFile(parsed: Parsed)
    | ChangeFilter(event: DateFilter.Event)
    | SelectTab(tab: Tab)

  /** One user action. Whatever it is, either the document and the slot are as before or
      the slot holds the new document; only the filter controls move the filter, and only
      an accepted import can replace the categories wholesale. */
  function Step(s: State, a: Action, stringify: AppData -> string): (r: State)
    ensures (r.data == s.data && r.slot == s.slot) || r.slot == SaveData(r.data, stringify)
    ensures !a.ChangeFilter? ==> r.dateFilter == s.dateFilter
    ensures !a.ImportFile? && !a.AddCustomCategory? ==> r.data.categories == s.data.categories
  {
    match a
    case SubmitForm(form, env) =>
      var r := Submit(form, s.editing, env);
      if r.saved.Some? then SaveTransaction(s, r.saved.value, stringify) else s
    case AddCustomCategory(form, freshId) =>
      var r := AddCategory(form, freshId);
      if r.category.Some? then AddCategoryTo(s, r.category.value, stringify) else s
    case Edit(t) => EditTransaction(s, t)
    case Delete(id, confirmed) => DeleteTransaction(s, id, confirmed, stringify)
    case Cancel => CancelEdit(s)
    case ImportFile(parsed) =>
      var o := CheckImport(parsed);
      if o.accepted.Some? then ImportDocument(s, o.accepted.value, stringify) else s
    case ChangeFilter(e) => s.(dateFilter := DateFilter.Update(s.dateFilter, e))
    case SelectTab(tab) => s.(tab := tab)
  }

  /** A reload would show the document on screen: the slot loads back as `data`. */
  predicate Persisted(s: State, codec: Codec)
  {
    LoadData(s.slot, codec.parse) == s.data
  }

  /** After mounting, and after every action, reloading shows the same document. */
  lemma MountPersisted(slot: Option<string>, codec: Codec)
    ensures Persisted(Mount(Initial(slot), codec.parse), codec)
  {
  }

  /** Provided the codec reads back the document an action leaves, a reload after the
      action shows that document. */
  lemma StepPersisted(s: State, a: Action, codec: Codec)
    requires Persisted(s, codec) && RoundTrips(codec, Step(s, a, codec.stringify).data)
    ensures Persisted(Step(s, a, codec.stringify), codec)
  {
    var r := Step(s, a, codec.stringify);
    if r.slot != s.slot || r.data != s.data {
      SaveThenLoad(r.data, codec);
    }
  }

  /** A rejected or failed import leaves the whole state as it was. */
  lemma RejectedImportChangesNothing(s: State, p: Parsed, stringify: AppData -> string)
    requires CheckImport(p).accepted.None?
    ensures Step(s, ImportFile(p), stringify) == s
  {
  }

  /** The date filter only ever holds a selector one of its buttons produces. */
  lemma FilterStaysSelectable(s: State, a: Action, stringify: AppData -> string)
    requires DateFilter.Selectable(s.dateFilter.selector)
    ensures DateFilter.Selectable(Step(s, a, stringify).dateFilter.selector)
  {
    if a.ChangeFilter? {
      DateFilter.StaysSelectable(s.dateFilter, [a.event]);
      assert [a.event][1..] == [];
    }
  }

  lemma InitialFilterSelectable(slot: Option<string>)
    ensures DateFilter.Selectable(Initial(slot).dateFilter.selector)
  {
    DateFilter.SelectableSelectors(Monthly);
  }

  /** Saving a new transaction with a fresh id, editing, and deleting keep ids unique. */
  lemma StepKeepsIdsUnique(s: State, a: Action, stringify: AppData -> string)
    requires UniqueIds(s.data.transactions)
    requires a.SubmitForm? && s.editing.None? ==> a.env.freshId !in Ids(s.data.transactions)
    requires !a.ImportFile?
    ensures UniqueIds(Step(s, a, stringify).data.transactions)
  {
    var ts := s.data.transactions;
    match a
    case SubmitForm(form, env) =>
      var r := Submit(form, s.editing, env);
      if r.saved.Some? {
        if s.editing.Some? {
          ReplaceByIdProperties(ts, r.saved.value);
          var ts' := ReplaceById(ts, r.saved.value);
          assert forall k :: 0 <= k < |ts'| ==> ts'[k].id == Ids(ts')[k];
        } else {
          assert r.saved.value.id == env.freshId;
          var ts' := ts + [r.saved.value];
          forall j, k | 0 <= j < k < |ts'| ensures ts'[j].id != ts'[k].id {
            if k == |ts| {
              assert Ids(ts)[j] == ts[j].id;
            }
          }
        }
      }
    case Delete(id, confirmed) =>
      if confirmed {
        RemoveKeepsUnique(ts, id);
      }
    case AddCustomCategory(_, _) =>
    case Edit(_) =>
    case Cancel =>
    case ChangeFilter(_) =>
    case SelectTab(_) =>
  }
}
