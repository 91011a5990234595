/**
  The Prisma-backed store (src/lib/data-store-prisma.ts), over a model of its `VirtualItem` table.
  The table is the sequence of rows in creation order, so `orderBy: { createdAt: 'desc' }` reads
  it backwards. The database calls are specified rather than run: a `where` object is a list of
  conditions, `findMany` keeps the rows satisfying all of them, `skip`/`take` cut a window out of
  the ordered result, and a call the database refuses is the `null`/`false` the store turns it
  into. Row ids come from the database's generator and are passed in.
*/
module PrismaStore {
  import opened Wrappers
  import opened JsText
  import opened JsObject
  import opened VirtualItems
  import opened ItemFilters
  import opened StringOrder
  import DataStore

  /** The `VirtualItem` table, oldest row first. */
  type Table = seq<Item>

  /** Ids are unique and every row holds every column, as the schema has no optional column. */
  predicate Valid(table: Table) {
    && (forall i, j :: 0 <= i < j < |table| ==> table[i].id != table[j].id)
    && (forall i :: 0 <= i < |table| ==> Complete(table[i].fields))
  }

  // ----- create -----

  /** The fields `create` passes through as given; Prisma refuses the row when one is undefined. */
  const Required: seq<Field> := [Platform, Category, Type, Title]

  /** The `data` literal of `create`: the required fields as given, every other field
      `itemData.f || ''`. There is no row when a required field is undefined. */
  function CreateData(input: map<Field, string>): (r: Option<map<Field, string>>)
    ensures r.Some? <==> Platform in input && Category in input && Type in input && Title in input
    ensures r.Some? ==> Complete(r.value) && forall f: Field :: r.value[f] == ValueOr(input, f)
  {
    if forall f :: f in Required ==> f in input then
      FieldOrderIsPermutation();
      Some(map f: Field | f in FieldOrder() :: if f in Required then input[f] else ValueOr(input, f))
    else
      assert Platform in Required && Category in Required && Type in Required && Title in Required;
      None
  }

  /** On an input that already has every field, `create` stores it as is, like the in-memory
      store. */
  lemma CreateDataComplete(input: map<Field, string>)
    requires Complete(input)
    ensures CreateData(input) == Some(input)
  {
    var data := CreateData(input).value;
    assert forall f: Field :: f in data && f in input && data[f] == input[f];
    assert data == input;
  }

  /** `create(itemData)`, with `id` the id the database generates: the new row is the newest. */
  function Create(table: Table, id: string, input: map<Field, string>): (r: Option<(Table, Item)>)
    requires DataStore.IndexOf(table, id) == -1
    ensures r.Some? <==> CreateData(input).Some?
  {
    match CreateData(input)
    case None => None
    case Some(data) => Some((table + [Item(id, data)], Item(id, data)))
  }

  /** A create keeps the table valid, returns the new row, and `findUnique` finds it by its id
      while every other id finds what it found before. */
  lemma CreateFind(table: Table, id: string, input: map<Field, string>, other: string)
    requires Valid(table) && DataStore.IndexOf(table, id) == -1
    requires Create(table, id, input).Some?
    ensures var (t, item) := Create(table, id, input).value;
      && Valid(t) && t == table + [item] && item.id == id && Complete(item.fields)
      && DataStore.Find(t, id) == Some(item)
      && (other != id ==> DataStore.Find(t, other) == DataStore.Find(table, other))
  {
    var (t, item) := Create(table, id, input).value;
    assert forall i :: 0 <= i < |table| ==> t[i] == table[i];
    assert forall it :: it in t <==> it in table || it == item;
    if other != id {
      FindSame(t, table, other);
    }
    FindUnique(t, id);
  }

  /** In a table with unique ids, `findUnique` returns the one row with that id. */
  lemma FindUnique(table: Table, id: string)
    requires forall i, j :: 0 <= i < j < |table| ==> table[i].id != table[j].id
    ensures forall it :: it in table && it.id == id ==> DataStore.Find(table, id) == Some(it)
  {
  }

  /** Two tables with unique ids that hold the same rows with id `id` answer `findUnique(id)` alike. */
  lemma FindSame(a: Table, b: Table, id: string)
    requires forall i, j :: 0 <= i < j < |a| ==> a[i].id != a[j].id
    requires forall i, j :: 0 <= i < j < |b| ==> b[i].id != b[j].id
    requires forall it: Item :: it.id == id ==> (it in a <==> it in b)
    ensures DataStore.Find(a, id) == DataStore.Find(b, id)
  {
    FindUnique(a, id);
    FindUnique(b, id);
  }

  // ----- the where object of getAll and getAllWithPagination -----

  /** One entry of the `where` object: `{ contains, mode: 'insensitive' }` on a column, or the `OR`
      of such tests over several columns. */
  datatype Condition = FieldContains(field: Field, query: string) | AnyContains(fields: seq<Field>, term: string)

  /** The field conditions for the truthy queries among `fs`, in order. */
  function FieldConditions(fs: seq<Field>, filters: Filters): seq<Condition>
    decreases |fs|
  {
    if fs == [] then []
    else
      (if Active(filters, fs[0]) then [FieldContains(fs[0], filters.queries[fs[0]])] else [])
      + FieldConditions(fs[1..], filters)
  }

  /** The `where` object both listings build from `filters`. */
  function Where(filters: Filters): seq<Condition> {
    FieldConditions(FilterFields, filters)
    + if filters.search != "" then [AnyContains(SearchFields, filters.search)] else []
  }

  /** A row meets one condition: the column contains the text, ignoring case. */
  predicate Satisfies(fields: map<Field, string>, c: Condition) {
    match c
    case FieldContains(f, q) => f in fields && ContainsFolded(fields[f], q)
    case AnyContains(fs, t) => exists f :: f in fs && f in fields && ContainsFolded(fields[f], t)
  }

  /** A row meets every condition of a `where` object. */
  predicate SatisfiesAll(fields: map<Field, string>, w: seq<Condition>) {
    forall c :: c in w ==> Satisfies(fields, c)
  }

  /** There is one field condition per truthy query among `fs`, carrying that query. */
  lemma {:induction false} FieldConditionsMembers(fs: seq<Field>, filters: Filters)
    ensures forall c :: c in FieldConditions(fs, filters) <==>
      c.FieldContains? && c.field in fs && Active(filters, c.field) && c.query == filters.queries[c.field]
    decreases |fs|
  {
    if fs != [] {
      FieldConditionsMembers(fs[1..], filters);
      assert forall f :: f in fs <==> f == fs[0] || f in fs[1..];
    }
  }

  /** The field conditions for `fs` hold exactly when each truthy query among `fs` occurs in its
      column. */
  lemma FieldConditionsHold(fs: seq<Field>, filters: Filters, fields: map<Field, string>)
    ensures SatisfiesAll(fields, FieldConditions(fs, filters)) <==>
      forall f :: f in fs && Active(filters, f) ==> f in fields && ContainsFolded(fields[f], filters.queries[f])
  {
    var cs := FieldConditions(fs, filters);
    FieldConditionsMembers(fs, filters);
    if SatisfiesAll(fields, cs) {
      forall f | f in fs && Active(filters, f)
        ensures f in fields && ContainsFolded(fields[f], filters.queries[f])
      {
        assert FieldContains(f, filters.queries[f]) in cs;
      }
    }
  }

  /** The database's `where` selects exactly the rows the in-memory filters match: each truthy field
      query is a case-insensitive substring of its column, and the search text of one of title,
      description, intellectual property and artist. */
  lemma WhereMatches(fields: map<Field, string>, filters: Filters)
    ensures SatisfiesAll(fields, Where(filters)) == Matches(fields, filters)
  {
    SearchLast(FieldConditions(FilterFields, filters), filters.search, fields);
    FieldConditionsHold(FilterFields, filters, fields);
  }

  /** The `OR` over the searched columns, added after the field conditions when there is search
      text, adds its own test. */
  lemma SearchLast(cs: seq<Condition>, search: string, fields: map<Field, string>)
    ensures SatisfiesAll(fields, cs + if search != "" then [AnyContains(SearchFields, search)] else []) ==
      (SatisfiesAll(fields, cs) && (search != "" ==> Satisfies(fields, AnyContains(SearchFields, search))))
  {
    var sc := if search != "" then [AnyContains(SearchFields, search)] else [];
    assert forall c :: c in cs + sc <==> c in cs || c in sc;
    if search != "" {
      assert sc[0] in sc;
    }
  }

  // ----- findMany -----

  /** The rows meeting `w`, in creation order. */
  function Matching(table: Table, w: seq<Condition>): (r: Table)
    decreases |table|
  {
    if table == [] then []
    else
      var last := table[|table| - 1];
      Matching(table[..|table| - 1], w) + if SatisfiesAll(last.fields, w) then [last] else []
  }

  /** A sequence read backwards. */
  function Reverse<T>(s: seq<T>): (r: seq<T>)
    ensures |r| == |s|
    ensures forall i :: 0 <= i < |s| ==> r[i] == s[|s| - 1 - i]
    decreases |s|
  {
    if s == [] then [] else [s[|s| - 1]] + Reverse(s[..|s| - 1])
  }

  /** Reading backwards twice gives the sequence back. */
  lemma ReverseReverse<T>(s: seq<T>)
    ensures Reverse(Reverse(s)) == s
  {
  }

  /** `getAll(filters)`: `findMany({ where, orderBy: { createdAt: 'desc' } })`. */
  function FindAll(table: Table, filters: Filters): Table {
    Reverse(Matching(table, Where(filters)))
  }

  /** `findMany` keeps what the in-memory filter selects. */
  lemma {:induction false} MatchingSelects(table: Table, filters: Filters)
    ensures Matching(table, Where(filters)) == Select(table, filters)
    decreases |table|
  {
    if table != [] {
      MatchingSelects(table[..|table| - 1], filters);
      WhereMatches(table[|table| - 1].fields, filters);
    }
  }

  /** On the same complete rows, the database listing holds the very items the in-memory `getAll`
      returns, newest first instead of oldest first. */
  lemma FindAllReversesListing(table: Table, filters: Filters)
    requires Valid(table)
    ensures Listing(table, filters) == Ok(Reverse(FindAll(table, filters)))
  {
    MatchingSelects(table, filters);
    ListingSelects(table, filters);
    ReverseReverse(Select(table, filters));
  }

  // ----- getAllWithPagination -----

  /** `skip` and `take` on a result list: at most `take` elements, starting at position `skip`. */
  function Window<T>(s: seq<T>, skip: nat, take: nat): (r: seq<T>)
    ensures |r| <= take
    ensures forall i :: 0 <= i < |r| ==> skip + i < |s| && r[i] == s[skip + i]
    ensures skip + take <= |s| ==> |r| == take
    ensures skip + take > |s| ==> |r| == if skip <= |s| then |s| - skip else 0
  {
    if skip >= |s| then [] else if skip + take <= |s| then s[skip..skip + take] else s[skip..]
  }

  /** Two adjacent windows make up the window covering both. */
  lemma WindowsTile<T>(s: seq<T>, skip: nat, m: nat, n: nat)
    ensures Window(s, skip, m) + Window(s, skip + m, n) == Window(s, skip, m + n)
  {
    var a, b, c := Window(s, skip, m), Window(s, skip + m, n), Window(s, skip, m + n);
    assert |a + b| == |c|;
    forall i | 0 <= i < |c| ensures (a + b)[i] == c[i] {
      if i >= |a| {
        assert i - |a| < |b|;
        assert |a| == m;
      }
    }
  }

  /** The result of `getAllWithPagination`: one page and the count of every match. */
  datatype Page = Page(items: seq<Item>, total: nat)

  const DefaultSkip: nat := 0
  const DefaultLimit: nat := 10

  /** `getAllWithPagination(filters, skip, limit)`; an omitted `skip` or `limit` takes its default. */
  function Paginate(table: Table, filters: Filters, skip: Option<nat>, limit: Option<nat>): (p: Page)
    ensures p.total == |Matching(table, Where(filters))|
  {
    var all := FindAll(table, filters);
    var s := if skip.Some? then skip.value else DefaultSkip;
    var l := if limit.Some? then limit.value else DefaultLimit;
    Page(Window(all, s, l), |all|)
  }

  /** A page holds the listing from position `skip` on, at most `limit` rows (10 by default), and
      its total counts every match whatever the page. */
  lemma PaginateWindow(table: Table, filters: Filters, skip: nat, limit: nat)
    ensures Paginate(table, filters, Some(skip), Some(limit)).items == Window(FindAll(table, filters), skip, limit)
    ensures Paginate(table, filters, Some(skip), Some(limit)).total == |FindAll(table, filters)|
    ensures Paginate(table, filters, None, None).items == Window(FindAll(table, filters), 0, 10)
    ensures Paginate(table, filters, None, None).total == |FindAll(table, filters)|
  {
  }

  /** The first `k` windows of size `n`, one after another. */
  function Windows<T>(s: seq<T>, n: nat, k: nat): seq<T> {
    if k == 0 then [] else Windows(s, n, k - 1) + Window(s, (k - 1) * n, n)
  }

  /** Taking the pages of one size in turn spells out the listing from its start. */
  lemma {:induction false} WindowsCover<T>(s: seq<T>, n: nat, k: nat)
    ensures Windows(s, n, k) == Window(s, 0, k * n)
  {
    if k == 0 {
      assert Window(s, 0, 0) == [];
    } else {
      var m := (k - 1) * n;
      assert m + n == k * n;
      WindowsCover(s, n, k - 1);
      WindowsTile(s, 0, m, n);
    }
  }

  // ----- update and delete -----

  /** `update(id, updateData)`: the row with that id gets the given fields. A database failure,
      including an unknown id, is caught and gives `null` with the table unchanged; `fails` stands
      for any failure other than an unknown id. */
  function Update(table: Table, id: string, data: map<Field, string>, fails: bool): (r: (Table, Option<Item>))
    ensures r.1.None? <==> fails || DataStore.IndexOf(table, id) == -1
    ensures r.1.None? ==> r.0 == table
  {
    var k := DataStore.IndexOf(table, id);
    if fails || k == -1 then (table, None)
    else
      var item := Item(id, table[k].fields + data);
      (table[k := item], Some(item))
  }

  /** An update that succeeds changes that row alone: it keeps its id, its fields are the old ones
      overridden by `data`, the table stays valid, and `findUnique` returns the updated row. */
  lemma UpdateFind(table: Table, id: string, data: map<Field, string>, fails: bool, other: string)
    requires Valid(table)
    ensures var (t, r) := Update(table, id, data, fails);
      && Valid(t) && |t| == |table|
      && (r.Some? ==> r.value.id == id
                      && (forall f :: f in data ==> r.value.fields[f] == data[f])
                      && (forall f :: f !in data ==> r.value.fields[f] == DataStore.Find(table, id).value.fields[f])
                      && DataStore.Find(t, id) == r)
      && (other != id ==> DataStore.Find(t, other) == DataStore.Find(table, other))
  {
    var (t, r) := Update(table, id, data, fails);
    var k := DataStore.IndexOf(table, id);
    if r.Some? {
      assert forall i :: 0 <= i < |t| ==> t[i].id == table[i].id;
      assert forall i :: 0 <= i < |t| && i != k ==> t[i] == table[i];
      FindUnique(table, id);
      FindUnique(t, id);
      assert t[k] in t;
      if other != id {
        forall it: Item | it.id == other ensures it in t <==> it in table {
          if it in t {
            var i :| 0 <= i < |t| && t[i] == it;
          }
          if it in table {
            var i :| 0 <= i < |table| && table[i] == it;
            assert t[i] == it;
          }
        }
        FindSame(t, table, other);
      }
    }
  }

  /** `delete(id)`: removes the row with that id and answers `true`; a failure, including an
      unknown id, is caught and answers `false` with the table unchanged. */
  function Delete(table: Table, id: string, fails: bool): (r: (Table, bool))
    ensures r.1 <==> !fails && DataStore.IndexOf(table, id) >= 0
    ensures !r.1 ==> r.0 == table
  {
    var k := DataStore.IndexOf(table, id);
    if fails || k == -1 then (table, false) else (table[..k] + table[k + 1..], true)
  }

  /** A delete that succeeds removes exactly one row: afterwards no row has that id, every other id
      finds what it found before, and the table stays valid. */
  lemma DeleteFind(table: Table, id: string, fails: bool, other: string)
    requires Valid(table)
    ensures var (t, deleted) := Delete(table, id, fails);
      && Valid(t)
      && |t| == (if deleted then |table| - 1 else |table|)
      && (deleted ==> DataStore.Find(t, id).None?)
      && (other != id ==> DataStore.Find(t, other) == DataStore.Find(table, other))
  {
    var (t, deleted) := Delete(table, id, fails);
    if deleted {
      var k := DataStore.IndexOf(table, id);
      assert forall j :: 0 <= j < |t| ==> t[j] == table[if j < k then j else j + 1];
      forall it | it in t ensures it.id != id {
        var j :| 0 <= j < |t| && t[j] == it;
      }
      if other != id {
        forall it: Item | it.id == other ensures it in t <==> it in table {
          if it in table {
            var i :| 0 <= i < |table| && table[i] == it;
            assert t[if i < k then i else i - 1] == it;
          }
        }
        FindSame(t, table, other);
      }
    }
  }

  // ----- getUniqueValues -----

  /** `getUniqueValues(field)`: the loop keeps each trimmed non-blank value of the rows `findMany`
      returns, then `[...new Set(values)].sort()`. The result is what the in-memory store computes
      on the same rows. */
  method GetUniqueValues(table: Table, f: Field) returns (r: seq<string>)
    ensures r == UniqueValues(table, f)
  {
    var values: seq<string> := [];
    for i := 0 to |table|
      invariant values == TrimmedValues(table[..i], f)
    {
      var fields := table[i].fields;
      TrimmedValuesStep(table, f, i);
      if f in fields && Trim(fields[f]) != "" {
        values := values + [Trim(fields[f])];
      }
    }
    assert table[..|table|] == table;
    r := SortedSet(values);
  }

  /** One more row adds its trimmed value, unless blank. */
  lemma TrimmedValuesStep(table: Table, f: Field, i: nat)
    requires i < |table|
    ensures TrimmedValues(table[..i + 1], f) == TrimmedValues(table[..i], f) +
      if f in table[i].fields && Trim(table[i].fields[f]) != "" then [Trim(table[i].fields[f])] else []
  {
    assert table[..i + 1][..i] == table[..i];
  }

  // ----- importFromCSV -----

  /** `v && v.trim() !== ''` for the value `v` of `column` in a row. */
  predicate NonBlank(row: Obj, column: string) {
    Get(row, column).Some? && Get(row, column).value != "" && Trim(Get(row, column).value) != ""
  }

  /** The import test of this store: Platform and Title both non-blank after trimming. */
  predicate Acceptable(row: Obj) {
    NonBlank(row, Label(Platform)) && NonBlank(row, Label(Title))
  }

  /** Ids the generator hands out: distinct, and unused in the table. */
  predicate FreshIds(table: Table, ids: seq<string>) {
    && (forall i, j :: 0 <= i < j < |ids| ==> ids[i] != ids[j])
    && (forall i, k :: 0 <= i < |ids| && 0 <= k < |table| ==> ids[i] != table[k].id)
  }

  /** The rows an import of `rows` creates, the row at position `i` getting id `ids[i]`. */
  function Imports(rows: seq<Obj>, ids: seq<string>): seq<Item>
    requires |ids| == |rows|
    decreases |rows|
  {
    if rows == [] then []
    else
      var n := |rows| - 1;
      Imports(rows[..n], ids[..n]) + if Acceptable(rows[n]) then [Item(ids[n], RowInput(rows[n]))] else []
  }

  /** Every created row carries one of the given ids. */
  lemma {:induction false} ImportsIds(rows: seq<Obj>, ids: seq<string>)
    requires |ids| == |rows|
    ensures forall it :: it in Imports(rows, ids) ==> it.id in ids
    decreases |rows|
  {
    if rows != [] {
      var n := |rows| - 1;
      ImportsIds(rows[..n], ids[..n]);
      assert forall x :: x in ids[..n] ==> x in ids;
    }
  }

  /** `importFromCSV(csvData)`: each acceptable row, in order, becomes a `create` of its 44 labelled
      columns (`''` when missing, Platform and Title untrimmed); the created rows are returned. */
  method ImportFromCsv(table: Table, csvData: seq<Obj>, ids: seq<string>) returns (t: Table, imported: seq<Item>)
    requires |ids| == |csvData| && FreshIds(table, ids)
    ensures imported == Imports(csvData, ids)
    ensures t == table + imported
  {
    t, imported := table, [];
    for i := 0 to |csvData|
      invariant imported == Imports(csvData[..i], ids[..i])
      invariant t == table + imported
    {
      ImportsStep(csvData, ids, i);
      var row := csvData[i];
      var platform, title := Get(row, Label(Platform)), Get(row, Label(Title));
      if && platform.Some? && title.Some? && platform.value != "" && title.value != ""
         && Trim(platform.value) != "" && Trim(title.value) != ""
      {
        ImportedFresh(table, csvData, ids, i);
        var input := RowInput(row);
        CreateDataComplete(input);
        var created := Create(t, ids[i], input);
        t := created.value.0;
        imported := imported + [created.value.1];
      }
    }
    assert csvData[..|csvData|] == csvData && ids[..|ids|] == ids;
  }

  /** One more row extends the import by its item when it is acceptable. */
  lemma ImportsStep(rows: seq<Obj>, ids: seq<string>, i: nat)
    requires |ids| == |rows| && i < |rows|
    ensures Imports(rows[..i + 1], ids[..i + 1]) == Imports(rows[..i], ids[..i])
      + if Acceptable(rows[i]) then [Item(ids[i], RowInput(rows[i]))] else []
  {
    assert rows[..i + 1][..i] == rows[..i] && ids[..i + 1][..i] == ids[..i];
  }

  /** The id for row `i` is still unused after the rows before it were imported. */
  lemma ImportedFresh(table: Table, rows: seq<Obj>, ids: seq<string>, i: nat)
    requires |ids| == |rows| && i < |rows| && FreshIds(table, ids)
    ensures DataStore.IndexOf(table + Imports(rows[..i], ids[..i]), ids[i]) == -1
  {
    var t := table + Imports(rows[..i], ids[..i]);
    ImportsIds(rows[..i], ids[..i]);
    forall k | 0 <= k < |t| ensures t[k].id != ids[i] {
      if k >= |table| {
        assert t[k] in Imports(rows[..i], ids[..i]);
        var j :| 0 <= j < i && ids[..i][j] == t[k].id;
        assert ids[j] == t[k].id;
      }
    }
  }

  /** The rows this store's import accepts, in order. */
  function AcceptedRows(rows: seq<Obj>): seq<Obj>
    decreases |rows|
  {
    if rows == [] then []
    else
      var n := |rows| - 1;
      AcceptedRows(rows[..n]) + if Acceptable(rows[n]) then [rows[n]] else []
  }

  /** An import creates one row per acceptable row, in order, holding that row's labelled
      columns. */
  lemma {:induction false} ImportsFields(rows: seq<Obj>, ids: seq<string>)
    requires |ids| == |rows|
    ensures DataStore.FieldsOf(Imports(rows, ids)) == DataStore.RowInputs(AcceptedRows(rows))
    decreases |rows|
  {
    if rows != [] {
      var n := |rows| - 1;
      var init, acc := Imports(rows[..n], ids[..n]), AcceptedRows(rows[..n]);
      ImportsFields(rows[..n], ids[..n]);
      if Acceptable(rows[n]) {
        FieldsOfAppend(init, Item(ids[n], RowInput(rows[n])));
        RowInputsAppend(acc, rows[n]);
      }
    }
  }

  lemma FieldsOfAppend(items: seq<Item>, item: Item)
    ensures DataStore.FieldsOf(items + [item]) == DataStore.FieldsOf(items) + [item.fields]
  {
  }

  lemma RowInputsAppend(rows: seq<Obj>, row: Obj)
    ensures DataStore.RowInputs(rows + [row]) == DataStore.RowInputs(rows) + [RowInput(row)]
  {
  }

  /** Every created row is complete and has a Platform and a Title that are not blank. */
  lemma {:induction false} ImportsNonBlank(rows: seq<Obj>, ids: seq<string>)
    requires |ids| == |rows|
    ensures forall it :: it in Imports(rows, ids) ==>
      Complete(it.fields) && Trim(it.fields[Platform]) != "" && Trim(it.fields[Title]) != ""
    decreases |rows|
  {
    if rows != [] {
      var n := |rows| - 1;
      ImportsNonBlank(rows[..n], ids[..n]);
      if Acceptable(rows[n]) {
        var m := RowInput(rows[n]);
        assert m[Platform] == Get(rows[n], Label(Platform)).value;
        assert m[Title] == Get(rows[n], Label(Title)).value;
      }
    }
  }

  /** A row accepted here is accepted by the in-memory import, which only asks for non-empty
      columns; the converse fails for a blank title. */
  lemma AcceptableImportable(row: Obj)
    ensures Acceptable(row) ==> DataStore.Importable(row)
    ensures var blank := [(Label(Platform), "Steam"), (Label(Title), " ")];
      DataStore.Importable(blank) && !Acceptable(blank)
  {
    var blank := [(Label(Platform), "Steam"), (Label(Title), " ")];
    assert Label(Platform) != Label(Title);
    assert Get(blank, Label(Title)) == Some(" ");
    assert Trim(" ") == "";
  }

  // ----- exportToCSV -----

  /** `exportToCSV()`: one labelled row per table row, newest first. */
  function ExportToCsv(table: Table): (rows: seq<Obj>)
    ensures |rows| == |table|
  {
    var newest := Reverse(table);
    seq(|newest|, i requires 0 <= i < |newest| => ExportRow(newest[i].fields))
  }

  /** Every row is complete and has a Platform and a Title that are not blank. */
  predicate Reimportable(table: Table) {
    forall i :: 0 <= i < |table| ==>
      Complete(table[i].fields) && Trim(table[i].fields[Platform]) != "" && Trim(table[i].fields[Title]) != ""
  }

  /** Importing this store's export, when every row has a non-blank Platform and Title, creates one
      row per exported row with the same columns, newest first. */
  lemma ExportImport(table: Table, ids: seq<string>)
    requires Reimportable(table) && |ids| == |table|
    ensures var created := Imports(ExportToCsv(table), ids);
      |created| == |table| &&
      forall i :: 0 <= i < |table| ==> created[i] == Item(ids[i], table[|table| - 1 - i].fields)
  {
    var rows, newest := ExportToCsv(table), Reverse(table);
    forall i | 0 <= i < |rows|
      ensures Acceptable(rows[i]) && RowInput(rows[i]) == table[|table| - 1 - i].fields
    {
      assert newest[i] == table[|table| - 1 - i];
      ExportedRowAccepted(newest[i].fields);
    }
    ImportsAll(rows, ids);
  }

  /** When every row is acceptable, the import creates one row per row, holding its columns. */
  lemma ImportsAll(rows: seq<Obj>, ids: seq<string>)
    requires |ids| == |rows|
    requires forall i :: 0 <= i < |rows| ==> Acceptable(rows[i])
    ensures |Imports(rows, ids)| == |rows|
    ensures forall i :: 0 <= i < |rows| ==> Imports(rows, ids)[i] == Item(ids[i], RowInput(rows[i]))
  {
    ImportsAllIds(rows, ids);
    AcceptedAll(rows);
    ImportsFields(rows, ids);
    var created := Imports(rows, ids);
    forall i | 0 <= i < |rows|
      ensures created[i] == Item(ids[i], RowInput(rows[i]))
    {
      assert DataStore.FieldsOf(created)[i] == created[i].fields;
      assert DataStore.RowInputs(rows)[i] == RowInput(rows[i]);
    }
  }

  /** When every row is acceptable, the row at position `i` is created with id `ids[i]`. */
  lemma {:induction false} ImportsAllIds(rows: seq<Obj>, ids: seq<string>)
    requires |ids| == |rows|
    requires forall i :: 0 <= i < |rows| ==> Acceptable(rows[i])
    ensures |Imports(rows, ids)| == |rows|
    ensures forall i :: 0 <= i < |rows| ==> Imports(rows, ids)[i].id == ids[i]
    decreases |rows|
  {
    if rows != [] {
      var n := |rows| - 1;
      forall i | 0 <= i < n
        ensures Acceptable(rows[..n][i])
      {
        assert rows[..n][i] == rows[i];
      }
      ImportsAllIds(rows[..n], ids[..n]);
      assert forall i :: 0 <= i < n ==> ids[..n][i] == ids[i];
    }
  }

  /** When every row is acceptable, all of them are accepted. */
  lemma {:induction false} AcceptedAll(rows: seq<Obj>)
    requires forall i :: 0 <= i < |rows| ==> Acceptable(rows[i])
    ensures AcceptedRows(rows) == rows
    decreases |rows|
  {
    if rows != [] {
      var n := |rows| - 1;
      forall i | 0 <= i < n
        ensures Acceptable(rows[..n][i])
      {
        assert rows[..n][i] == rows[i];
      }
      AcceptedAll(rows[..n]);
      assert rows == rows[..n] + [rows[n]];
    }
  }

  /** The export row of a complete row with non-blank Platform and Title is accepted and imports
      back to the same columns. */
  lemma ExportedRowAccepted(fields: map<Field, string>)
    requires Complete(fields) && Trim(fields[Platform]) != "" && Trim(fields[Title]) != ""
    ensures Acceptable(ExportRow(fields)) && RowInput(ExportRow(fields)) == fields
  {
    TrimSpec(fields[Platform]);
    TrimSpec(fields[Title]);
    ExportRowGet(fields, Platform);
    ExportRowGet(fields, Title);
    ExportImportRow(fields);
  }

  // ----- getStats -----

  /** One entry of a `groupBy` answer: a column value and the number of rows holding it. */
  datatype Group = Group(value: string, count: nat)

  /** What `getStats` returns. */
  datatype Stats = Stats(totalItems: nat, byPlatform: seq<Group>, byCategory: seq<Group>, byRarity: seq<Group>)

  /** The number of rows whose column `f` holds `v`. */
  function CountOf(table: Table, f: Field, v: string): nat
    decreases |table|
  {
    if table == [] then 0
    else CountOf(table[..|table| - 1], f, v) + if ValueOr(table[|table| - 1].fields, f) == v then 1 else 0
  }

  /** The values of a group list, in order. */
  function GroupValues(groups: seq<Group>): (vs: seq<string>)
    ensures |vs| == |groups|
    ensures forall i :: 0 <= i < |groups| ==> vs[i] == groups[i].value
  {
    seq(|groups|, i requires 0 <= i < |groups| => groups[i].value)
  }

  /** A correct `groupBy(f)` answer ordered by count, descending: distinct values, each with its
      row count, every row's value listed. */
  predicate IsGrouping(table: Table, f: Field, groups: seq<Group>) {
    && (forall i, j :: 0 <= i < j < |groups| ==> groups[i].value != groups[j].value)
    && (forall i :: 0 <= i < |groups| ==> groups[i].count == CountOf(table, f, groups[i].value))
    && (forall it :: it in table ==> ValueOr(it.fields, f) in GroupValues(groups))
    && (forall i, j :: 0 <= i < j < |groups| ==> groups[i].count >= groups[j].count)
  }

  /** The counts of a group list, added up. */
  function Total(groups: seq<Group>): nat
    decreases |groups|
  {
    if groups == [] then 0 else Total(groups[..|groups| - 1]) + groups[|groups| - 1].count
  }

  /** The rarity groups as reported: an empty rarity shows as `'Unknown'`. */
  function RarityLabels(groups: seq<Group>): (r: seq<Group>)
    ensures |r| == |groups|
    ensures forall i :: 0 <= i < |groups| ==>
      r[i].count == groups[i].count && r[i].value == if groups[i].value == "" then "Unknown" else groups[i].value
    decreases |groups|
  {
    if groups == [] then []
    else
      var g := groups[|groups| - 1];
      RarityLabels(groups[..|groups| - 1]) + [Group(if g.value == "" then "Unknown" else g.value, g.count)]
  }

  /** `getStats()`, from the row count and the three `groupBy` answers. */
  function GetStats(table: Table, byPlatform: seq<Group>, byCategory: seq<Group>, byRarity: seq<Group>): Stats {
    Stats(|table|, byPlatform, byCategory, RarityLabels(byRarity))
  }

  /** Relabelling keeps the counts. */
  lemma {:induction false} RarityLabelsTotal(groups: seq<Group>)
    ensures Total(RarityLabels(groups)) == Total(groups)
    decreases |groups|
  {
    if groups != [] {
      var n := |groups| - 1;
      RarityLabelsTotal(groups[..n]);
      assert RarityLabels(groups)[..n] == RarityLabels(groups[..n]);
    }
  }

  /** Each list of the statistics counts every row once: its counts add up to `totalItems`, and it
      stays ordered by count, descending; the rarity list differs from the rarity groups only in
      showing `'Unknown'` for the empty rarity. */
  lemma StatsTotals(table: Table, byPlatform: seq<Group>, byCategory: seq<Group>, byRarity: seq<Group>)
    requires IsGrouping(table, Platform, byPlatform)
    requires IsGrouping(table, Category, byCategory)
    requires IsGrouping(table, Rarity, byRarity)
    ensures var s := GetStats(table, byPlatform, byCategory, byRarity);
      && Total(s.byPlatform) == s.totalItems
      && Total(s.byCategory) == s.totalItems
      && Total(s.byRarity) == s.totalItems
      && (forall i, j :: 0 <= i < j < |s.byRarity| ==> s.byRarity[i].count >= s.byRarity[j].count)
  {
    GroupingTotal(table, Platform, byPlatform);
    GroupingTotal(table, Category, byCategory);
    GroupingTotal(table, Rarity, byRarity);
    RarityLabelsTotal(byRarity);
  }

  /** The counts of a correct grouping add up to the number of rows. */
  lemma GroupingTotal(table: Table, f: Field, groups: seq<Group>)
    requires IsGrouping(table, f, groups)
    ensures Total(groups) == |table|
  {
    assert forall g :: g in groups ==> g.count == CountOf(table, f, g.value);
    TotalCounts(table, f, groups);
    CountSumCovers(table, f, groups);
  }

  /** The row counts of the values of `groups`, added up. */
  function CountSum(table: Table, f: Field, groups: seq<Group>): nat
    decreases |groups|
  {
    if groups == [] then 0
    else CountSum(table, f, groups[..|groups| - 1]) + CountOf(table, f, groups[|groups| - 1].value)
  }

  /** The number of groups with value `v`. */
  function Hits(groups: seq<Group>, v: string): nat
    decreases |groups|
  {
    if groups == [] then 0
    else Hits(groups[..|groups| - 1], v) + if groups[|groups| - 1].value == v then 1 else 0
  }

  lemma {:induction false} TotalCounts(table: Table, f: Field, groups: seq<Group>)
    requires forall g :: g in groups ==> g.count == CountOf(table, f, g.value)
    ensures Total(groups) == CountSum(table, f, groups)
    decreases |groups|
  {
    if groups != [] {
      var n := |groups| - 1;
      assert groups[n] in groups;
      TotalCounts(table, f, groups[..n]);
    }
  }

  /** With distinct values, a value is hit once if listed and never otherwise. */
  lemma {:induction false} HitsDistinct(groups: seq<Group>, v: string)
    requires forall i, j :: 0 <= i < j < |groups| ==> groups[i].value != groups[j].value
    ensures Hits(groups, v) == if v in GroupValues(groups) then 1 else 0
    decreases |groups|
  {
    if groups != [] {
      var n := |groups| - 1;
      HitsDistinct(groups[..n], v);
      var vs, ws := GroupValues(groups), GroupValues(groups[..n]);
      assert vs == ws + [groups[n].value];
      if groups[n].value == v {
        assert v !in ws;
      }
    }
  }

  /** Dropping the last row takes one away from the count of each group holding its value. */
  lemma {:induction false} CountSumSnoc(table: Table, f: Field, groups: seq<Group>)
    requires table != []
    ensures CountSum(table, f, groups) ==
      CountSum(table[..|table| - 1], f, groups) + Hits(groups, ValueOr(table[|table| - 1].fields, f))
    decreases |groups|
  {
    if groups != [] {
      CountSumSnoc(table, f, groups[..|groups| - 1]);
    }
  }

  /** When the distinct values of `groups` cover every row, their row counts add up to the number
      of rows. */
  lemma {:induction false} CountSumCovers(table: Table, f: Field, groups: seq<Group>)
    requires forall i, j :: 0 <= i < j < |groups| ==> groups[i].value != groups[j].value
    requires forall it :: it in table ==> ValueOr(it.fields, f) in GroupValues(groups)
    ensures CountSum(table, f, groups) == |table|
    decreases |table|
  {
    if table == [] {
      CountSumEmpty(f, groups);
    } else {
      var n := |table| - 1;
      assert forall it :: it in table[..n] ==> it in table;
      CountSumCovers(table[..n], f, groups);
      CountSumSnoc(table, f, groups);
      assert table[n] in table;
      HitsDistinct(groups, ValueOr(table[n].fields, f));
    }
  }

  lemma {:induction false} CountSumEmpty(f: Field, groups: seq<Group>)
    ensures CountSum([], f, groups) == 0
    decreases |groups|
  {
    if groups != [] {
      CountSumEmpty(f, groups[..|groups| - 1]);
    }
  }
}
