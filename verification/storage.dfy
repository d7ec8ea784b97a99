/** src/utils/storage.ts: reading the persisted document back with field-by-field defaults,
    writing it, and the text `exportToCSV` produces. `localStorage`, `JSON.parse`,
    `JSON.stringify` and `Number.prototype.toString` are outside the model; they enter as the
    slot's contents and as function parameters. */
module Storage {
  import opened Js
  import opened Types
  import opened Categories

  /** What `JSON.parse` makes of the stored text, as far as `loadData` looks into it.
      `SyntaxError` is a throw; `NullValue` is the `null` literal, whose property read throws;
      any other value is read field by field (a number or string has neither field). */
  datatype Parsed =
    | SyntaxError
    | NullValue
    | Value(transactions: Field<seq<Transaction>>, categories: Field<seq<Category>>)

  /** A JSON codec: `JSON.stringify` and `JSON.parse`. */
  datatype Codec = Codec(stringify: AppData -> string, parse: string -> Parsed)

  /** The codec reads `data` back as it wrote it: the text is non-empty and parses to a
      document whose two fields are the arrays written, as JSON does for a document of
      arrays. This is a fact about one document, not about every document: no function from
      documents with real amounts to strings is one-to-one on all of them. */
  predicate RoundTrips(codec: Codec, data: AppData)
  {
    codec.stringify(data) != ""
    && codec.parse(codec.stringify(data)) == Value(Present(data.transactions), Present(data.categories))
  }

  /** Every document has a codec that reads it back, so the premise is one a caller can meet. */
  lemma RoundTripsPossible(data: AppData)
    ensures exists codec :: RoundTrips(codec, data)
  {
    var codec := Codec((d: AppData) => "{}", (text: string) => Value(Present(data.transactions), Present(data.categories)));
    assert RoundTrips(codec, data);
  }

  /** The document a fresh install starts from. */
  function DefaultData(): (r: AppData)
    ensures r.transactions == [] && |r.categories| == 9
  {
    AppData([], DefaultCategories())
  }

  /** `loadData()`: `slot` is what `getItem` returned (`None` for `null`). A falsy (empty)
      text, a parse error and a `null` document all give the default document; otherwise each
      falsy or missing field falls back on its own. */
  function LoadData(slot: Option<string>, parse: string -> Parsed): (r: AppData)
    ensures slot.None? ==> r == DefaultData()
    ensures slot.Some? && slot.value != "" && parse(slot.value).Value? ==>
      var p := parse(slot.value);
      && (p.transactions.Truthy() ==> r.transactions == p.transactions.value)
      && (!p.transactions.Truthy() ==> r.transactions == [])
      && (p.categories.Truthy() ==> r.categories == p.categories.value)
      && (!p.categories.Truthy() ==> r.categories == DefaultCategories())
    ensures slot.Some? && (slot.value == "" || !parse(slot.value).Value?) ==> r == DefaultData()
  {
    if slot.Some? && StrTruthy(slot.value) then
      match parse(slot.value)
      case SyntaxError => DefaultData()
      case NullValue => DefaultData()
      case Value(transactions, categories) =>
        AppData(transactions.Or([]), categories.Or(DefaultCategories()))
    else
      DefaultData()
  }

  /** `saveData(data)`: the slot afterwards holds the serialised document. Write failures
      are outside the model. */
  function SaveData(data: AppData, stringify: AppData -> string): (slot: Option<string>)
    ensures slot == Some(stringify(data))
  {
    Some(stringify(data))
  }

  /** Loading what was saved gives the document back, empty arrays included: an empty array
      is truthy, so it is kept rather than replaced by a default. */
  lemma SaveThenLoad(data: AppData, codec: Codec)
    requires RoundTrips(codec, data)
    ensures LoadData(SaveData(data, codec.stringify), codec.parse) == data
  {
  }

  /** Whatever the slot held, saving the loaded document and loading again changes nothing. */
  lemma LoadSaveLoad(slot: Option<string>, codec: Codec)
    requires RoundTrips(codec, LoadData(slot, codec.parse))
    ensures LoadData(SaveData(LoadData(slot, codec.parse), codec.stringify), codec.parse) == LoadData(slot, codec.parse)
  {
    SaveThenLoad(LoadData(slot, codec.parse), codec);
  }

  // ---- CSV export ----

  const HeaderNames: seq<string> := ["Date", "Type", "Category", "Amount", "Currency", "Description"]

  /** `['Date', 'Type', 'Category', 'Amount', 'Currency', 'Description'].join(',')` */
  function CsvHeader(): string
  {
    Join(HeaderNames, ',')
  }

  /** Reading the header back by commas gives the six column names, and it is one line. */
  lemma CsvHeaderColumns()
    ensures Split(CsvHeader(), ',') == HeaderNames
    ensures '\n' !in CsvHeader()
  {
    HeaderNamesPlain();
    SplitJoinInverse(HeaderNames, ',');
    JoinAvoids(HeaderNames, ',', '\n');
  }

  /** The column names are plain words: no comma, no line break. */
  lemma HeaderNamesPlain()
    ensures NoneContains(HeaderNames, ',') && NoneContains(HeaderNames, '\n')
  {
    forall k | 0 <= k < |HeaderNames| ensures ',' !in HeaderNames[k] && '\n' !in HeaderNames[k] {
      PlainWord(HeaderNames[k]);
    }
  }

  /** A word of letters holds neither a comma nor a line break. */
  lemma PlainWord(w: string)
    requires w in HeaderNames
    ensures ',' !in w && '\n' !in w
  {
    assert forall c :: c in w ==> 'A' <= c <= 'z';
  }

  /** A template literal `"${s}"`: quotes around the text, nothing escaped inside. */
  function Quoted(s: string): (r: string)
    ensures |r| == |s| + 2 && r[0] == '"' && r[|r| - 1] == '"' && r[1..|r| - 1] == s
  {
    "\"" + s + "\""
  }

  /** The six cells of a row, in header order; `numberText` is how the amount prints. The
      category and the description are the only quoted cells. */
  function CsvCells(t: Transaction, numberText: real -> string): (cells: seq<string>)
    ensures |cells| == |HeaderNames|
    ensures cells[0] == t.date && cells[1] == TxTypeName(t.txType) && cells[3] == numberText(t.amount)
      && cells[4] == CurrencyName(t.currency)
    ensures cells[2] == "\"" + t.category + "\"" && cells[5] == "\"" + t.description + "\""
  {
    [t.date, TxTypeName(t.txType), Quoted(t.category), numberText(t.amount), CurrencyName(t.currency), Quoted(t.description)]
  }

  function CsvRow(t: Transaction, numberText: real -> string): string
  {
    Join(CsvCells(t, numberText), ',')
  }

  function CsvRows(ts: seq<Transaction>, numberText: real -> string): (rows: seq<string>)
    ensures |rows| == |ts|
    ensures forall k :: 0 <= k < |ts| ==> rows[k] == CsvRow(ts[k], numberText)
  {
    seq(|ts|, k requires 0 <= k < |ts| => CsvRow(ts[k], numberText))
  }

  /** The `csvContent` string of `exportToCSV`. */
  function ExportCsv(ts: seq<Transaction>, numberText: real -> string): string
  {
    Join([CsvHeader()] + CsvRows(ts, numberText), '\n')
  }

  /** Reading the export back line by line gives the header and then one row per transaction
      in order, exactly when no row contains a line break; nothing escapes one that does. */
  lemma CsvLines(ts: seq<Transaction>, numberText: real -> string)
    ensures Split(ExportCsv(ts, numberText), '\n') == [CsvHeader()] + CsvRows(ts, numberText)
      <==> forall k :: 0 <= k < |ts| ==> '\n' !in CsvRow(ts[k], numberText)
  {
    var lines := [CsvHeader()] + CsvRows(ts, numberText);
    CsvHeaderColumns();
    SplitJoin(lines, '\n');
    if forall k :: 0 <= k < |ts| ==> '\n' !in CsvRow(ts[k], numberText) {
      forall k | 0 <= k < |lines| ensures '\n' !in lines[k] {
        if k > 0 {
          assert lines[k] == CsvRow(ts[k - 1], numberText);
        }
      }
    } else {
      var k :| 0 <= k < |ts| && '\n' in CsvRow(ts[k], numberText);
      assert lines[k + 1] == CsvRow(ts[k], numberText);
    }
  }

  /** The first line of the export is always the header. */
  lemma CsvStartsWithHeader(ts: seq<Transaction>, numberText: real -> string)
    ensures Split(ExportCsv(ts, numberText), '\n')[0] == CsvHeader()
  {
    CsvHeaderColumns();
    SplitFirst([CsvHeader()] + CsvRows(ts, numberText), '\n');
  }

  /** Reading a row back by commas gives its six cells exactly when no cell contains a comma;
      the quotes around category and description do not protect one. */
  lemma CsvColumns(t: Transaction, numberText: real -> string)
    ensures Split(CsvRow(t, numberText), ',') == CsvCells(t, numberText)
      <==> ',' !in t.date && ',' !in t.category && ',' !in numberText(t.amount) && ',' !in t.description
  {
    var cells := CsvCells(t, numberText);
    SplitJoin(cells, ',');
    QuotedContains(t.category, ',');
    QuotedContains(t.description, ',');
    assert ',' !in TxTypeName(t.txType) && ',' !in CurrencyName(t.currency);
    assert NoneContains(cells, ',') <==>
      ',' !in cells[0] && ',' !in cells[1] && ',' !in cells[2] && ',' !in cells[3] && ',' !in cells[4] && ',' !in cells[5];
  }

  /** Read back by commas, each cell of a row sits under the header column that names it,
      provided no cell contains a comma. */
  lemma CsvFieldsUnderHeader(t: Transaction, numberText: real -> string)
    requires ',' !in t.date && ',' !in t.category && ',' !in numberText(t.amount) && ',' !in t.description
    ensures var header := Split(CsvHeader(), ','); var row := Split(CsvRow(t, numberText), ',');
      && |header| == |row| == 6
      && header[0] == "Date" && row[0] == t.date
      && header[1] == "Type" && row[1] == TxTypeName(t.txType)
      && header[2] == "Category" && row[2] == "\"" + t.category + "\""
      && header[3] == "Amount" && row[3] == numberText(t.amount)
      && header[4] == "Currency" && row[4] == CurrencyName(t.currency)
      && header[5] == "Description" && row[5] == "\"" + t.description + "\""
  {
    CsvHeaderColumns();
    CsvColumns(t, numberText);
  }

  /** Quoting adds only quote marks. */
  lemma QuotedContains(s: string, c: char)
    requires c != '"'
    ensures c in Quoted(s) <==> c in s
  {
    var r := Quoted(s);
    if c in r {
      var k :| 0 <= k < |r| && r[k] == c;
      assert r[1..|r| - 1][k - 1] == c;
    }
    if c in s {
      var k :| 0 <= k < |s| && s[k] == c;
      assert r[k + 1] == c;
    }
  }
}
