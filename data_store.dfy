/**
  The in-memory store of src/lib/data-store.ts: a list of items kept in insertion order and the
  counter that numbers them. Creation stores the input as given, without defaulting absent fields.
  An item's id is the decimal numeral of the counter, unless the input carries an `id` property of
  its own, which the object spread lets win. Counter numerals are never reused, so ids stay
  distinct as long as no input carries an `id`.
*/
module DataStore {
  import opened Wrappers
  import opened JsText
  import opened JsObject
  import opened VirtualItems
  import opened ItemFilters

  /** The position of the first item with id `id`, or -1: `findIndex`. */
  function IndexOf(items: seq<Item>, id: string): (i: int)
    ensures -1 <= i < |items|
    ensures i == -1 <==> forall k :: 0 <= k < |items| ==> items[k].id != id
    ensures i >= 0 ==> items[i].id == id && forall k :: 0 <= k < i ==> items[k].id != id
    decreases |items|
  {
    if items == [] then -1
    else if items[0].id == id then 0
    else
      var i := IndexOf(items[1..], id);
      if i == -1 then -1 else i + 1
  }

  /** `items.find(item => item.id === id)`. */
  function Find(items: seq<Item>, id: string): (r: Option<Item>)
    ensures r.None? <==> forall it :: it in items ==> it.id != id
    ensures r.Some? ==> r.value in items && r.value.id == id
  {
    var i := IndexOf(items, id);
    if i == -1 then None else Some(items[i])
  }

  /** The counter values rise along the list and stay below `next`. */
  ghost predicate Rising(numbers: seq<nat>, next: nat) {
    && (forall i :: 0 <= i < |numbers| ==> numbers[i] < next)
    && (forall i, j :: 0 <= i < j < |numbers| ==> numbers[i] < numbers[j])
  }

  /** Item `i` carries the id written from counter value `numbers[i]`. */
  ghost predicate CounterNumerals(items: seq<Item>, numbers: seq<nat>) {
    && |numbers| == |items|
    && forall i :: 0 <= i < |items| ==> items[i].id == NatToString(numbers[i])
  }

  /** Removing one item and its counter value keeps the counter values rising, and keeps every id
      the numeral of its counter value if they all were. */
  lemma NumberingRemove(items: seq<Item>, numbers: seq<nat>, next: nat, k: nat)
    requires Rising(numbers, next) && |numbers| == |items| && k < |items|
    ensures Rising(numbers[..k] + numbers[k + 1..], next)
    ensures CounterNumerals(items, numbers) ==>
      CounterNumerals(items[..k] + items[k + 1..], numbers[..k] + numbers[k + 1..])
  {
    var its, ns := items[..k] + items[k + 1..], numbers[..k] + numbers[k + 1..];
    assert forall j :: 0 <= j < |ns| ==> ns[j] == numbers[if j < k then j else j + 1];
    assert forall j :: 0 <= j < |its| ==> its[j] == items[if j < k then j else j + 1];
  }

  /** The id a created item gets: `{id: nextId.toString(), ...itemData}`, so the input's own `id`
      property, when it has one, replaces the counter's numeral. */
  function CreatedId(next: nat, idKey: Option<string>): string {
    match idKey
    case Some(id) => id
    case None => NatToString(next)
  }

  /** The import test: `row.Platform && row.Title`, both truthy. */
  predicate Importable(row: Obj) {
    Truthy(row, Label(Platform)) && Truthy(row, Label(Title))
  }

  /** The rows an import takes, in order. */
  function ImportableRows(rows: seq<Obj>): (r: seq<Obj>)
    ensures |r| <= |rows|
    ensures forall row :: row in r <==> row in rows && Importable(row)
    decreases |rows|
  {
    if rows == [] then []
    else
      var last := rows[|rows| - 1];
      assert forall row :: row in rows <==> row in rows[..|rows| - 1] || row == last;
      ImportableRows(rows[..|rows| - 1]) + if Importable(last) then [last] else []
  }

  /** The items created from `inputs` by successive `create` calls starting at counter `first`. */
  function Numbered(first: nat, inputs: seq<map<Field, string>>): (r: seq<Item>)
    ensures |r| == |inputs|
    ensures forall i :: 0 <= i < |r| ==> r[i] == Item(NatToString(first + i), inputs[i])
  {
    seq(|inputs|, i requires 0 <= i < |inputs| => Item(NatToString(first + i), inputs[i]))
  }

  /** The create inputs built from rows: every labelled column read, `''` when missing. */
  function RowInputs(rows: seq<Obj>): (r: seq<map<Field, string>>)
    ensures |r| == |rows|
    ensures forall i :: 0 <= i < |rows| ==> r[i] == RowInput(rows[i])
  {
    seq(|rows|, i requires 0 <= i < |rows| => RowInput(rows[i]))
  }

  /** The export rows of `items`, in stored order. */
  function ExportRows(items: seq<Item>): (rows: seq<Obj>)
    ensures |rows| == |items|
    decreases |items|
  {
    if items == [] then []
    else ExportRows(items[..|items| - 1]) + [ExportRow(items[|items| - 1].fields)]
  }

  /** One `filter` pass over `kept`, item by item; the first throwing callback aborts it. */
  method FilterItems(kept: seq<Item>, p: Pass) returns (r: Result<seq<Item>>)
    ensures r == FilterPass(kept, p)
  {
    var acc: seq<Item> := [];
    var i := 0;
    while i < |kept|
      invariant 0 <= i <= |kept|
      invariant FilterPass(kept[..i], p) == Ok(acc)
    {
      var t := Test(p, kept[i].fields);
      FilterPassStep(kept, i, p);
      if t.Err? {
        FilterPassPrefixErr(kept, p, i + 1);
        return Err(t.message);
      }
      if t.value {
        acc := acc + [kept[i]];
      } else {
        assert acc + [] == acc;
      }
      i := i + 1;
    }
    assert kept[..i] == kept;
    r := Ok(acc);
  }

  /** One more item through a pass: its callback decides whether it is kept. */
  lemma FilterPassStep(items: seq<Item>, i: nat, p: Pass)
    requires i < |items|
    ensures FilterPass(items[..i + 1], p) ==
      match FilterPass(items[..i], p)
      case Err(m) => Err(m)
      case Ok(kept) =>
        match Test(p, items[i].fields)
        case Err(m) => Err(m)
        case Ok(b) => Ok(kept + if b then [items[i]] else [])
  {
    assert items[..i + 1][..i] == items[..i];
  }

  /** One more pass in the chain runs on what the earlier passes kept. */
  lemma RunPassesStep(items: seq<Item>, ps: seq<Pass>, k: nat)
    requires k < |ps|
    ensures RunPasses(items, ps[..k + 1]) ==
      match RunPasses(items, ps[..k])
      case Err(m) => Err(m)
      case Ok(r) => FilterPass(r, ps[k])
  {
    assert ps[..k + 1][..k] == ps[..k];
  }

  /** The items an import of `rows` creates when the counter starts at `first`: the importable
      rows in order, numbered consecutively. */
  function Imported(first: nat, rows: seq<Obj>): seq<Item>
    decreases |rows|
  {
    if rows == [] then []
    else
      var init := Imported(first, rows[..|rows| - 1]);
      var last := rows[|rows| - 1];
      init + if Importable(last) then [Item(NatToString(first + |init|), RowInput(last))] else []
  }

  /** The import creates one item per importable row, in row order, from that row's columns,
      numbered from `first`. */
  lemma {:induction false} ImportedRows(first: nat, rows: seq<Obj>)
    ensures Imported(first, rows) == Numbered(first, RowInputs(ImportableRows(rows)))
    decreases |rows|
  {
    if rows != [] {
      var init, last := rows[..|rows| - 1], rows[|rows| - 1];
      ImportedRows(first, init);
      var accepted := ImportableRows(init);
      if Importable(last) {
        var inputs, item := RowInputs(accepted), Item(NatToString(first + |accepted|), RowInput(last));
        RowInputsSnoc(accepted, last);
        NumberedSnoc(first, inputs, RowInput(last));
        calc {
          Numbered(first, RowInputs(ImportableRows(rows)));
          Numbered(first, RowInputs(accepted + [last]));
          Numbered(first, inputs + [RowInput(last)]);
          Numbered(first, inputs) + [item];
          Imported(first, init) + [item];
          Imported(first, rows);
        }
      } else {
        assert ImportableRows(rows) == accepted + [] == accepted;
        assert Imported(first, rows) == Imported(first, init) + [];
      }
    }
  }

  lemma RowInputsSnoc(rows: seq<Obj>, row: Obj)
    ensures RowInputs(rows + [row]) == RowInputs(rows) + [RowInput(row)]
  {
  }

  lemma NumberedSnoc(first: nat, inputs: seq<map<Field, string>>, input: map<Field, string>)
    ensures Numbered(first, inputs + [input]) == Numbered(first, inputs) + [Item(NatToString(first + |inputs|), input)]
  {
  }

  /** Once a prefix of the items makes a pass throw, the whole pass throws. */
  lemma {:induction false} FilterPassPrefixErr(items: seq<Item>, p: Pass, k: nat)
    requires 0 < k <= |items| && FilterPass(items[..k], p).Err?
    ensures FilterPass(items, p) == Err(UndefinedLower)
    decreases |items|
  {
    if k < |items| {
      assert items[..|items| - 1][..k] == items[..k];
      FilterPassPrefixErr(items[..|items| - 1], p, k);
    } else {
      assert items[..k] == items;
    }
  }

  /** The in-memory `VirtualItemStore`. */
  class Store {
    /** The stored items, in insertion order. */
    var items: seq<Item>
    /** The counter for the next id. */
    var nextId: nat
    /** The counter value each stored item was created with. */
    ghost var numbers: seq<nat>

    /** Every item has the counter value it was created with; counter values increase along the
        list and stay below `nextId`. */
    ghost predicate Valid()
      reads this
    {
      nextId >= 1 && |numbers| == |items| && Rising(numbers, nextId)
    }

    /** Every item's id is the numeral of its counter value: no create or update input so far
        carried an `id` of its own. */
    ghost predicate CounterIds()
      reads this
    {
      CounterNumerals(items, numbers)
    }

    /** In a valid store whose ids all come from the counter no two items share an id. */
    lemma IdsDistinct()
      requires Valid() && CounterIds()
      ensures forall i, j :: 0 <= i < j < |items| ==> items[i].id != items[j].id
    {
      forall i, j | 0 <= i < j < |items| ensures items[i].id != items[j].id {
        if items[i].id == items[j].id {
          NatToStringInjective(numbers[i], numbers[j]);
        }
      }
    }

    constructor ()
      ensures Valid() && CounterIds()
      ensures items == [] && nextId == 1
    {
      items := [];
      nextId := 1;
      numbers := [];
    }

    /** `create`: stores the input's fields under the next id, or under the input's own `id`
        property `idKey` when it has one, and advances the counter. */
    method Create(input: map<Field, string>, idKey: Option<string>) returns (item: Item)
      requires Valid()
      modifies this
      ensures Valid()
      ensures item == Item(CreatedId(old(nextId), idKey), input)
      ensures items == old(items) + [item]
      ensures nextId == old(nextId) + 1
      ensures idKey.None? && old(CounterIds()) ==>
        CounterIds() && forall it :: it in old(items) ==> it.id != item.id
    {
      item := Item(CreatedId(nextId, idKey), input);
      if idKey.None? && CounterIds() {
        forall it | it in items ensures it.id != item.id {
          var k :| 0 <= k < |items| && items[k] == it;
          if it.id == item.id {
            NatToStringInjective(numbers[k], nextId);
          }
        }
      }
      items := items + [item];
      numbers := numbers + [nextId];
      nextId := nextId + 1;
    }

    /** `getAll(filters)`: the passes run one after another on a copy of the list. */
    method GetAll(filters: Filters) returns (r: Result<seq<Item>>)
      ensures r == Listing(items, filters)
    {
      r := RunAll(Passes(filters));
    }

    /** The chain of `filter` calls in `getAll`, stopping at the first that throws. */
    method RunAll(passes: seq<Pass>) returns (r: Result<seq<Item>>)
      ensures r == RunPasses(items, passes)
    {
      var kept := items;
      var k := 0;
      while k < |passes|
        invariant 0 <= k <= |passes|
        invariant RunPasses(items, passes[..k]) == Ok(kept)
      {
        RunPassesStep(items, passes, k);
        var next := FilterItems(kept, passes[k]);
        if next.Err? {
          RunPassesPrefixErr(items, passes, k + 1);
          return next;
        }
        kept := next.value;
        k := k + 1;
      }
      assert passes[..k] == passes;
      r := Ok(kept);
    }

    /** The position of the item with id `id`, by linear search. */
    method FindIndex(id: string) returns (i: int)
      ensures i == IndexOf(items, id)
    {
      i := 0;
      while i < |items|
        invariant 0 <= i <= |items|
        invariant forall k :: 0 <= k < i ==> items[k].id != id
      {
        if items[i].id == id {
          return;
        }
        i := i + 1;
      }
      i := -1;
    }

    /** `getById(id)`. */
    method GetById(id: string) returns (r: Option<Item>)
      ensures r == Find(items, id)
    {
      var i := FindIndex(id);
      r := if i == -1 then None else Some(items[i]);
    }

    /** `update(id, patch)`: the patch's fields overwrite the item's, and the patch's own `id`
        property `idKey`, when it has one, replaces the id; `None` for an unknown id. */
    method Update(id: string, patch: map<Field, string>, idKey: Option<string>) returns (r: Option<Item>)
      requires Valid()
      modifies this
      ensures Valid()
      ensures nextId == old(nextId)
      ensures IndexOf(old(items), id) == -1 ==> r == None && items == old(items)
      ensures IndexOf(old(items), id) >= 0 ==>
        var k := IndexOf(old(items), id);
        && r == Some(Item(if idKey.Some? then idKey.value else id, old(items)[k].fields + patch))
        && items == old(items)[k := r.value]
      ensures idKey.None? && old(CounterIds()) ==> CounterIds()
    {
      var i := FindIndex(id);
      if i == -1 {
        return None;
      }
      var updated := Item(if idKey.Some? then idKey.value else items[i].id, items[i].fields + patch);
      items := items[i := updated];
      r := Some(updated);
    }

    /** `delete(id)`: removes the item with that id; `false` for an unknown id. */
    method Delete(id: string) returns (deleted: bool)
      requires Valid()
      modifies this
      ensures Valid()
      ensures nextId == old(nextId)
      ensures deleted <==> IndexOf(old(items), id) >= 0
      ensures !deleted ==> items == old(items)
      ensures deleted ==>
        var k := IndexOf(old(items), id);
        items == old(items)[..k] + old(items)[k + 1..]
      ensures old(CounterIds()) ==> CounterIds()
    {
      var i := FindIndex(id);
      if i == -1 {
        return false;
      }
      NumberingRemove(items, numbers, nextId, i);
      items := items[..i] + items[i + 1..];
      numbers := numbers[..i] + numbers[i + 1..];
      deleted := true;
    }

    /** `getUniqueValues(f)` on the stored items. */
    function UniqueValuesOf(f: Field): seq<string>
      reads this
    {
      UniqueValues(items, f)
    }

    /** One iteration of the import loop: an importable row becomes a new item. */
    method ImportRow(row: Obj) returns (created: seq<Item>)
      requires Valid()
      modifies this
      ensures Valid()
      ensures created == if Importable(row) then [Item(NatToString(old(nextId)), RowInput(row))] else []
      ensures items == old(items) + created
      ensures nextId == old(nextId) + |created|
      ensures old(CounterIds()) ==> CounterIds()
    {
      created := [];
      if Importable(row) {
        var item := Create(RowInput(row), None);
        created := [item];
      } else {
        assert items + [] == items;
      }
    }

    /** `importFromCSV(rows)`: creates an item from each row with a truthy `Platform` and `Title`,
        in row order, and returns the created items. */
    method ImportFromCsv(rows: seq<Obj>) returns (imported: seq<Item>)
      requires Valid()
      modifies this
      ensures Valid()
      ensures imported == Imported(old(nextId), rows)
      ensures items == old(items) + imported
      ensures nextId == old(nextId) + |imported|
      ensures old(CounterIds()) ==> CounterIds()
    {
      imported := [];
      var i := 0;
      while i < |rows|
        invariant 0 <= i <= |rows|
        invariant Valid()
        invariant old(CounterIds()) ==> CounterIds()
        invariant imported == Imported(old(nextId), rows[..i])
        invariant items == old(items) + imported
        invariant nextId == old(nextId) + |imported|
      {
        assert rows[..i + 1][..i] == rows[..i];
        var created := ImportRow(rows[i]);
        imported := imported + created;
        i := i + 1;
      }
      assert rows[..i] == rows;
    }

    /** `exportToCSV()`: one labelled row per stored item, in stored order. */
    function ExportToCsv(): seq<Obj>
      reads this
    {
      ExportRows(items)
    }
  }

  /** An exported row is imported exactly when its item has a non-empty platform and title. */
  lemma ExportedRowImportable(fields: map<Field, string>)
    ensures Importable(ExportRow(fields)) <==> Present(fields, Platform) && Present(fields, Title)
  {
    ExportRowGet(fields, Platform);
    ExportRowGet(fields, Title);
  }

  /** The fields of each item, in order. */
  function FieldsOf(items: seq<Item>): (r: seq<map<Field, string>>)
    ensures |r| == |items|
    ensures forall i :: 0 <= i < |items| ==> r[i] == items[i].fields
  {
    seq(|items|, i requires 0 <= i < |items| => items[i].fields)
  }

  /** Importing an export of complete items that all have a platform and a title takes every row
      and recreates every item's fields, in stored order, under fresh consecutive ids. */
  lemma {:induction false} ExportImportStore(first: nat, items: seq<Item>)
    requires forall i :: 0 <= i < |items| ==> Complete(items[i].fields)
    requires forall i :: 0 <= i < |items| ==> Present(items[i].fields, Platform) && Present(items[i].fields, Title)
    ensures Imported(first, ExportRows(items)) == Numbered(first, FieldsOf(items))
    decreases |items|
  {
    if items != [] {
      var init, last := items[..|items| - 1], items[|items| - 1];
      assert forall i :: 0 <= i < |init| ==> init[i] == items[i];
      ExportImportStore(first, init);
      var row := ExportRow(last.fields);
      ImportedSnoc(first, ExportRows(init), row);
      ExportedRowImportable(last.fields);
      ExportImportRow(last.fields);
      assert RowInput(row) == last.fields;
      NumberedSnoc(first, FieldsOf(init), last.fields);
      FieldsOfSnoc(items);
    }
  }

  lemma FieldsOfSnoc(items: seq<Item>)
    requires items != []
    ensures FieldsOf(items) == FieldsOf(items[..|items| - 1]) + [items[|items| - 1].fields]
  {
  }

  /** Importing one more row appends at most one item, numbered after the others. */
  lemma ImportedSnoc(first: nat, rows: seq<Obj>, row: Obj)
    ensures Imported(first, rows + [row]) == Imported(first, rows)
      + if Importable(row) then [Item(NatToString(first + |Imported(first, rows)|), RowInput(row))] else []
  {
    assert (rows + [row])[..|rows|] == rows;
  }

  /** An import creates one item per importable row, and every created item is complete and
      keeps the non-empty platform and title of its row. */
  lemma ImportedItems(first: nat, rows: seq<Obj>)
    ensures |Imported(first, rows)| == |ImportableRows(rows)|
    ensures forall it :: it in Imported(first, rows) ==>
      && Complete(it.fields)
      && it.fields[Platform] != "" && it.fields[Title] != ""
  {
    ImportedRows(first, rows);
    var accepted := ImportableRows(rows);
    forall it | it in Imported(first, rows)
      ensures Complete(it.fields) && it.fields[Platform] != "" && it.fields[Title] != ""
    {
      var i :| 0 <= i < |accepted| && Numbered(first, RowInputs(accepted))[i] == it;
      assert accepted[i] in accepted;
    }
  }
}
