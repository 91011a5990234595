/**
  Filtering a list of virtual items by `VirtualItemFilters` (src/lib/data-store.ts, `getAll`).
  The in-memory store applies one `filter` pass per active query, in a fixed order, each lowering
  both sides and testing `includes`; the search pass tests four fields with a short-circuit `||`.
  A pass reads a field of every item it sees, so an item that lacks that field makes the whole call
  throw. `Matches` is the reference meaning of a filter set; `ListingSelects` shows that whenever
  the passes return, they return exactly the matching items in stored order.
*/
module ItemFilters {
  import opened Wrappers
  import opened JsText
  import opened VirtualItems
  import opened StringOrder

  /** `VirtualItemFilters`: the query for each filterable field that has one, and the search text.
      An absent and an empty query are both falsy and both ignored, so a missing search is `""`.
      Keys outside `FilterFields` are ignored, as the interface has none. */
  datatype Filters = Filters(queries: map<Field, string>, search: string)

  /** The fields with a query of their own, in the order `getAll` applies them. */
  const FilterFields: seq<Field> :=
    [Platform, IntellectualProperty, Category, Type, Collection, Series, Artist, Rarity]

  /** The fields the search text is looked for in, in the order the search pass tests them. */
  const SearchFields: seq<Field> := [Title, Description, IntellectualProperty, Artist]

  /** The message of the `TypeError` from calling `toLowerCase` on an undefined field. */
  const UndefinedLower: string := "Cannot read properties of undefined (reading 'toLowerCase')"

  /** `filters.f` is truthy. */
  predicate Active(filters: Filters, f: Field) {
    f in filters.queries && filters.queries[f] != ""
  }

  /** `value.toLowerCase().includes(query.toLowerCase())`. */
  predicate ContainsFolded(value: string, query: string) {
    Contains(Lower(value), Lower(query))
  }

  /** The items a filter set selects: each active field query occurs in that field, and the search
      text, when given, occurs in at least one searched field, all ignoring ASCII case. */
  predicate Matches(fields: map<Field, string>, filters: Filters) {
    && (forall f :: f in FilterFields && Active(filters, f) ==>
          f in fields && ContainsFolded(fields[f], filters.queries[f]))
    && (filters.search != "" ==>
          exists f :: f in SearchFields && f in fields && ContainsFolded(fields[f], filters.search))
  }

  /** The reference listing: the matching items, in stored order. */
  function Select(items: seq<Item>, filters: Filters): (r: seq<Item>)
    ensures |r| <= |items|
    ensures forall it :: it in r <==> it in items && Matches(it.fields, filters)
    decreases |items|
  {
    if items == [] then []
    else
      var last := items[|items| - 1];
      assert items == items[..|items| - 1] + [last];
      Select(items[..|items| - 1], filters) + if Matches(last.fields, filters) then [last] else []
  }

  /** One `filter` pass of `getAll`: a field query, or the lowered search term. */
  datatype Pass = FieldPass(field: Field, query: string) | SearchPass(term: string)

  /** The field passes for the active queries among `fs`, in order. */
  function FieldPasses(fs: seq<Field>, filters: Filters): seq<Pass>
    decreases |fs|
  {
    if fs == [] then []
    else
      (if Active(filters, fs[0]) then [FieldPass(fs[0], filters.queries[fs[0]])] else [])
      + FieldPasses(fs[1..], filters)
  }

  /** There is one field pass per active query among `fs`, carrying that query. */
  lemma {:induction false} FieldPassesMembers(fs: seq<Field>, filters: Filters)
    ensures forall p :: p in FieldPasses(fs, filters) <==>
      p.FieldPass? && p.field in fs && Active(filters, p.field) && p.query == filters.queries[p.field]
    decreases |fs|
  {
    if fs != [] {
      FieldPassesMembers(fs[1..], filters);
      assert forall f :: f in fs <==> f == fs[0] || f in fs[1..];
    }
  }

  /** The passes `getAll` runs for `filters`, in source order: the eight field queries, then the
      search. */
  function Passes(filters: Filters): seq<Pass> {
    FieldPasses(FilterFields, filters)
    + if filters.search != "" then [SearchPass(Lower(filters.search))] else []
  }

  /** The search callback: the searched fields are read in order until one contains the term. */
  function SearchTest(fs: seq<Field>, fields: map<Field, string>, term: string): (r: Result<bool>)
    ensures r.Err? ==> r.message == UndefinedLower
    ensures r.Ok? && r.value ==> exists f :: f in fs && f in fields && Contains(Lower(fields[f]), term)
    ensures r.Ok? && !r.value ==> forall f :: f in fs ==> f in fields && !Contains(Lower(fields[f]), term)
    ensures (forall f :: f in fs ==> f in fields) ==> r.Ok?
    decreases |fs|
  {
    if fs == [] then Ok(false)
    else if fs[0] !in fields then Err(UndefinedLower)
    else if Contains(Lower(fields[fs[0]]), term) then Ok(true)
    else SearchTest(fs[1..], fields, term)
  }

  /** The callback of pass `p` on one item; `Err` when it reads an undefined field. */
  function Test(p: Pass, fields: map<Field, string>): (r: Result<bool>)
    ensures r.Err? ==> r.message == UndefinedLower
  {
    match p
    case FieldPass(f, q) => if f !in fields then Err(UndefinedLower) else Ok(ContainsFolded(fields[f], q))
    case SearchPass(t) => SearchTest(SearchFields, fields, t)
  }

  /** What pass `p` accepts, stated without the order of evaluation. */
  predicate Holds(p: Pass, fields: map<Field, string>) {
    match p
    case FieldPass(f, q) => f in fields && ContainsFolded(fields[f], q)
    case SearchPass(t) => exists f :: f in SearchFields && f in fields && Contains(Lower(fields[f]), t)
  }

  /** A callback that returns agrees with `Holds`, and on a complete item it always returns. */
  lemma TestHolds(p: Pass, fields: map<Field, string>)
    ensures Test(p, fields).Ok? ==> Test(p, fields).value == Holds(p, fields)
    ensures Complete(fields) ==> Test(p, fields).Ok?
  {
  }

  /** Every pass in `ps` accepts the item. */
  predicate AllHold(ps: seq<Pass>, fields: map<Field, string>) {
    forall p :: p in ps ==> Holds(p, fields)
  }

  /** The items every pass in `ps` accepts, in order. */
  function Restrict(items: seq<Item>, ps: seq<Pass>): seq<Item>
    decreases |items|
  {
    if items == [] then []
    else
      var last := items[|items| - 1];
      Restrict(items[..|items| - 1], ps) + if AllHold(ps, last.fields) then [last] else []
  }

  /** `items.filter(callback)` for pass `p`: the accepted items in order, or the error thrown. */
  function FilterPass(items: seq<Item>, p: Pass): (r: Result<seq<Item>>)
    ensures r.Err? ==> r.message == UndefinedLower
    decreases |items|
  {
    if items == [] then Ok([])
    else
      match FilterPass(items[..|items| - 1], p)
      case Err(m) => Err(m)
      case Ok(kept) =>
        match Test(p, items[|items| - 1].fields)
        case Err(m) => Err(m)
        case Ok(b) => Ok(kept + if b then [items[|items| - 1]] else [])
  }

  /** The passes `ps` run one after another, as the successive reassignments of `filteredItems`. */
  function RunPasses(items: seq<Item>, ps: seq<Pass>): (r: Result<seq<Item>>)
    ensures r.Err? ==> r.message == UndefinedLower
    decreases |ps|
  {
    if ps == [] then Ok(items)
    else
      match RunPasses(items, ps[..|ps| - 1])
      case Err(m) => Err(m)
      case Ok(r) => FilterPass(r, ps[|ps| - 1])
  }

  /** `getAll(filters)` on the stored items. */
  function Listing(items: seq<Item>, filters: Filters): Result<seq<Item>> {
    RunPasses(items, Passes(filters))
  }

  /** A pass that returns keeps exactly the items its callback accepts; on complete items it
      returns. */
  lemma {:induction false} FilterPassKeeps(items: seq<Item>, p: Pass)
    ensures FilterPass(items, p).Ok? ==> FilterPass(items, p).value == Restrict(items, [p])
    ensures (forall it :: it in items ==> Complete(it.fields)) ==> FilterPass(items, p).Ok?
    decreases |items|
  {
    if items != [] {
      var last := items[|items| - 1];
      assert forall it :: it in items[..|items| - 1] ==> it in items;
      FilterPassKeeps(items[..|items| - 1], p);
      TestHolds(p, last.fields);
      assert AllHold([p], last.fields) == Holds(p, last.fields) by {
        assert p in [p];
      }
    }
  }

  /** Restricting by `ps` and then by `p` restricts by `ps + [p]`. */
  lemma {:induction false} RestrictThen(items: seq<Item>, ps: seq<Pass>, p: Pass)
    ensures Restrict(Restrict(items, ps), [p]) == Restrict(items, ps + [p])
    decreases |items|
  {
    if items != [] {
      var init, last := items[..|items| - 1], items[|items| - 1];
      RestrictThen(init, ps, p);
      assert AllHold(ps + [p], last.fields) == (AllHold(ps, last.fields) && AllHold([p], last.fields)) by {
        assert forall q :: q in ps + [p] <==> q in ps || q in [p];
      }
      var r := Restrict(init, ps);
      if AllHold(ps, last.fields) {
        assert Restrict(items, ps) == r + [last];
        assert (r + [last])[..|r|] == r;
      } else {
        assert Restrict(items, ps) == r + [] == r;
      }
    }
  }

  /** Passes that return keep exactly the items every pass accepts; on complete items they
      return. */
  lemma {:induction false} RunPassesRestricts(items: seq<Item>, ps: seq<Pass>)
    ensures RunPasses(items, ps).Ok? ==> RunPasses(items, ps).value == Restrict(items, ps)
    ensures (forall it :: it in items ==> Complete(it.fields)) ==> RunPasses(items, ps).Ok?
    decreases |ps|
  {
    if ps == [] {
      RestrictNone(items);
    } else {
      var init, p := ps[..|ps| - 1], ps[|ps| - 1];
      RunPassesRestricts(items, init);
      assert init + [p] == ps;
      if RunPasses(items, init).Ok? {
        var r := RunPasses(items, init).value;
        FilterPassKeeps(r, p);
        RestrictThen(items, init, p);
        RestrictSubset(items, init);
      }
    }
  }

  /** No pass keeps every item. */
  lemma {:induction false} RestrictNone(items: seq<Item>)
    ensures Restrict(items, []) == items
    decreases |items|
  {
    if items != [] {
      RestrictNone(items[..|items| - 1]);
      assert items == items[..|items| - 1] + [items[|items| - 1]];
    }
  }

  /** Restricting keeps only items of the input. */
  lemma {:induction false} RestrictSubset(items: seq<Item>, ps: seq<Pass>)
    ensures forall it :: it in Restrict(items, ps) ==> it in items
    decreases |items|
  {
    if items != [] {
      RestrictSubset(items[..|items| - 1], ps);
      assert forall it :: it in items[..|items| - 1] ==> it in items;
    }
  }

  /** The field passes for `fs` accept an item exactly when each active query among `fs` occurs
      in its field. */
  lemma FieldPassesHold(fs: seq<Field>, filters: Filters, fields: map<Field, string>)
    ensures AllHold(FieldPasses(fs, filters), fields) <==>
      forall f :: f in fs && Active(filters, f) ==> f in fields && ContainsFolded(fields[f], filters.queries[f])
  {
    var ps := FieldPasses(fs, filters);
    FieldPassesMembers(fs, filters);
    if AllHold(ps, fields) {
      forall f | f in fs && Active(filters, f)
        ensures f in fields && ContainsFolded(fields[f], filters.queries[f])
      {
        assert FieldPass(f, filters.queries[f]) in ps;
      }
    }
  }

  /** The search pass accepts an item exactly when the search text occurs in a searched field. */
  lemma SearchPassHolds(filters: Filters, fields: map<Field, string>)
    ensures Holds(SearchPass(Lower(filters.search)), fields) <==>
      exists f :: f in SearchFields && f in fields && ContainsFolded(fields[f], filters.search)
  {
  }

  /** Passes in sequence accept an item when both parts do. */
  lemma AllHoldAppend(a: seq<Pass>, b: seq<Pass>, fields: map<Field, string>)
    ensures AllHold(a + b, fields) == (AllHold(a, fields) && AllHold(b, fields))
  {
    assert forall p :: p in a + b <==> p in a || p in b;
  }

  /** The passes for `filters` accept an item when the field passes and the search pass do. */
  lemma PassesHold(filters: Filters, fields: map<Field, string>)
    ensures AllHold(Passes(filters), fields) ==
      (AllHold(FieldPasses(FilterFields, filters), fields)
       && (filters.search != "" ==> Holds(SearchPass(Lower(filters.search)), fields)))
  {
    SearchLastHolds(FieldPasses(FilterFields, filters), filters.search, fields);
  }

  /** Appending the search pass, when there is search text, adds its condition. */
  lemma SearchLastHolds(ps: seq<Pass>, search: string, fields: map<Field, string>)
    ensures AllHold(ps + if search != "" then [SearchPass(Lower(search))] else [], fields) ==
      (AllHold(ps, fields) && (search != "" ==> Holds(SearchPass(Lower(search)), fields)))
  {
    var last := SearchPass(Lower(search));
    if search != "" {
      AllHoldAppend(ps, [last], fields);
      assert AllHold([last], fields) == Holds(last, fields) by { assert last in [last]; }
    } else {
      assert ps + [] == ps;
    }
  }

  /** An item passes every pass for `filters` exactly when it matches them. */
  lemma PassesMatch(fields: map<Field, string>, filters: Filters)
    ensures AllHold(Passes(filters), fields) == Matches(fields, filters)
  {
    PassesHold(filters, fields);
    FieldPassesHold(FilterFields, filters, fields);
    SearchPassHolds(filters, fields);
  }

  /** The listing selects by `Matches` on both sides. */
  lemma {:induction false} RestrictSelect(items: seq<Item>, filters: Filters)
    ensures Restrict(items, Passes(filters)) == Select(items, filters)
    decreases |items|
  {
    if items != [] {
      RestrictSelect(items[..|items| - 1], filters);
      PassesMatch(items[|items| - 1].fields, filters);
    }
  }

  /** Whenever `getAll` returns, it returns exactly the items that match, in stored order; and it
      always returns when every item has all its fields. */
  lemma ListingSelects(items: seq<Item>, filters: Filters)
    ensures Listing(items, filters).Ok? ==> Listing(items, filters) == Ok(Select(items, filters))
    ensures (forall it :: it in items ==> Complete(it.fields)) ==> Listing(items, filters).Ok?
  {
    RunPassesRestricts(items, Passes(filters));
    RestrictSelect(items, filters);
  }

  /** With no active query and no search text, `getAll` lists every item, whatever fields they
      lack. */
  lemma ListingUnfiltered(items: seq<Item>, filters: Filters)
    requires forall f :: f in FilterFields ==> !Active(filters, f)
    requires filters.search == ""
    ensures Listing(items, filters) == Ok(items)
  {
    assert Passes(filters) == [];
  }

  /** A platform query is the first pass and reads every item, so a stored item without a
      platform makes `getAll` throw. */
  lemma ListingThrows(items: seq<Item>, filters: Filters, it: Item)
    requires Active(filters, Platform)
    requires it in items && Platform !in it.fields
    ensures Listing(items, filters) == Err(UndefinedLower)
  {
    var ps := Passes(filters);
    var p := FieldPass(Platform, filters.queries[Platform]);
    assert FilterFields[0] == Platform;
    assert ps[0] == p;
    var i :| 0 <= i < |items| && items[i] == it;
    FilterPassThrows(items, p, i);
    assert ps[..1] == [p];
    assert RunPasses(items, ps[..1]) == FilterPass(items, p) by {
      assert ps[..1][..0] == [];
    }
    RunPassesPrefixErr(items, ps, 1);
  }

  /** A pass whose callback throws on some item throws. */
  lemma {:induction false} FilterPassThrows(items: seq<Item>, p: Pass, i: nat)
    requires i < |items| && Test(p, items[i].fields).Err?
    ensures FilterPass(items, p).Err?
    decreases |items|
  {
    if i < |items| - 1 {
      FilterPassThrows(items[..|items| - 1], p, i);
    }
  }

  /** Once a prefix of the passes throws, the whole chain does. */
  lemma {:induction false} RunPassesPrefixErr(items: seq<Item>, ps: seq<Pass>, k: nat)
    requires 0 < k <= |ps| && RunPasses(items, ps[..k]).Err?
    ensures RunPasses(items, ps).Err?
    decreases |ps|
  {
    if k < |ps| {
      assert ps[..|ps| - 1][..k] == ps[..k];
      RunPassesPrefixErr(items, ps[..|ps| - 1], k);
    } else {
      assert ps[..k] == ps;
    }
  }

  /** The trimmed, non-blank string values of field `f` across `items`, in order. */
  function TrimmedValues(items: seq<Item>, f: Field): (vs: seq<string>)
    ensures forall v :: v in vs <==> exists it :: it in items && f in it.fields && v == Trim(it.fields[f]) && v != ""
    decreases |items|
  {
    if items == [] then []
    else
      var last := items[|items| - 1];
      assert forall it :: it in items <==> it in items[..|items| - 1] || it == last;
      TrimmedValues(items[..|items| - 1], f)
      + if f in last.fields && Trim(last.fields[f]) != "" then [Trim(last.fields[f])] else []
  }

  /** `getUniqueValues(f)`: each distinct trimmed non-blank value of `f` once, ascending. */
  function UniqueValues(items: seq<Item>, f: Field): (r: seq<string>)
    ensures StrictlyAscending(r)
    ensures forall v :: v in r <==> exists it :: it in items && f in it.fields && v == Trim(it.fields[f]) && v != ""
  {
    SortedSet(TrimmedValues(items, f))
  }
}
