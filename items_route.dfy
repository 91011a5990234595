/**
  The list-and-create endpoint `/api/virtual-items` (src/app/api/virtual-items/route.ts), over the
  in-memory store. `GET` turns the query string into filters and lists the matching items with
  their count; `POST` checks the four required properties of the JSON body and creates the item.
  An exception inside either handler becomes a 500 answer with a fixed message. The query string
  is its name/value pairs, the parsed body a string-valued object, or nothing when it is not JSON.
*/
module ItemsRoute {
  import opened Wrappers
  import opened JsText
  import opened JsObject
  import opened VirtualItems
  import opened ItemFilters
  import opened DataStore

  /** `URLSearchParams`: name/value pairs in order; `get(name)` gives the first value for `name`. */
  type Params = seq<(string, string)>

  /** The JSON answers of the two handlers. */
  datatype Payload = Listed(data: seq<Item>, count: nat) | Created(item: Item) | Failed(error: string)

  /** An HTTP status and its JSON payload; `success` is true exactly when the payload is not `Failed`. */
  datatype Response = Response(status: nat, payload: Payload)

  const FetchFailed: string := "Failed to fetch virtual items"
  const CreateFailed: string := "Failed to create virtual item"
  const MissingPrefix: string := "Missing required fields: "

  // ----- GET -----

  /** The filters `GET` builds: a query for each filterable field whose parameter is truthy, and
      the search text when its parameter is. */
  function FiltersOf(params: Params): Filters {
    Filters(
      map f: Field | f in FilterFields && Truthy(params, Name(f)) :: Get(params, Name(f)).value,
      if Truthy(params, "search") then Get(params, "search").value else "")
  }

  /** A field query is set exactly when its parameter is present and non-empty, and then holds that
      parameter's first value; the search text likewise, `""` standing for no search. */
  lemma FiltersOfSpec(params: Params, f: Field)
    ensures Active(FiltersOf(params), f) <==> f in FilterFields && Truthy(params, Name(f))
    ensures Active(FiltersOf(params), f) ==> FiltersOf(params).queries[f] == Get(params, Name(f)).value
    ensures FiltersOf(params).search != "" <==> Truthy(params, "search")
    ensures Truthy(params, "search") ==> FiltersOf(params).search == Get(params, "search").value
  {
  }

  /** What `GET` answers for the stored `items`. */
  function GetResponse(items: seq<Item>, params: Params): Response {
    match Listing(items, FiltersOf(params))
    case Ok(data) => Response(200, Listed(data, |data|))
    case Err(_) => Response(500, Failed(FetchFailed))
  }

  /** `GET /api/virtual-items`. */
  method HandleGet(store: Store, params: Params) returns (r: Response)
    ensures r == GetResponse(store.items, params)
  {
    var listed := store.GetAll(FiltersOf(params));
    match listed
    case Ok(data) => r := Response(200, Listed(data, |data|));
    case Err(_) => r := Response(500, Failed(FetchFailed));
  }

  /** `GET` answers 200 with the items matching the parameters' filters, in stored order, and their
      count, or 500 when a filter pass throws; when every item has all its fields it never throws. */
  lemma GetLists(items: seq<Item>, params: Params)
    ensures var r := GetResponse(items, params);
      && (r.status == 200 || r == Response(500, Failed(FetchFailed)))
      && (r.status == 200 ==>
            r.payload == Listed(Select(items, FiltersOf(params)), |Select(items, FiltersOf(params))|))
      && ((forall it :: it in items ==> Complete(it.fields)) ==> r.status == 200)
  {
    ListingSelects(items, FiltersOf(params));
  }

  /** No field pass for fields without an active query. */
  lemma {:induction false} NoPasses(fs: seq<Field>, filters: Filters)
    requires forall g :: g in fs ==> !Active(filters, g)
    ensures FieldPasses(fs, filters) == []
    decreases |fs|
  {
    if fs != [] {
      NoPasses(fs[1..], filters);
    }
  }

  /** The field passes for filters whose one active query among the distinct fields `fs` is `f`'s. */
  lemma {:induction false} LonePass(fs: seq<Field>, filters: Filters, f: Field)
    requires f in fs
    requires forall i, j :: 0 <= i < j < |fs| ==> fs[i] != fs[j]
    requires Active(filters, f)
    requires forall g :: g in fs && g != f ==> !Active(filters, g)
    ensures FieldPasses(fs, filters) == [FieldPass(f, filters.queries[f])]
    decreases |fs|
  {
    if fs[0] == f {
      forall g | g in fs[1..]
        ensures !Active(filters, g)
      {
        var j :| 0 <= j < |fs[1..]| && fs[1..][j] == g;
        assert fs[j + 1] == g;
      }
      NoPasses(fs[1..], filters);
    } else {
      assert forall i, j :: 0 <= i < j < |fs[1..]| ==> fs[1..][i] == fs[i + 1] && fs[1..][j] == fs[j + 1];
      LonePass(fs[1..], filters, f);
    }
  }

  lemma FilterFieldsDistinct()
    ensures forall i, j :: 0 <= i < j < |FilterFields| ==> FilterFields[i] != FilterFields[j]
  {
  }

  /** With only the query parameter of `f` among the filters, `GET` runs the one pass for `f`. */
  lemma LoneFilterPasses(params: Params, f: Field)
    requires f in FilterFields
    requires forall g :: g in FilterFields ==> (Truthy(params, Name(g)) <==> g == f)
    requires !Truthy(params, "search")
    ensures Passes(FiltersOf(params)) == [FieldPass(f, Get(params, Name(f)).value)]
  {
    var filters := FiltersOf(params);
    forall g | g in FilterFields
      ensures Active(filters, g) <==> g == f
    {
      FiltersOfSpec(params, g);
    }
    FiltersOfSpec(params, f);
    FilterFieldsDistinct();
    LonePass(FilterFields, filters, f);
  }

  /** The in-memory store keeps an item as it was posted, without defaults, so an item posted with
      only the required properties lacks the others; while it is stored, a `GET` whose only filter
      is on one of those missing fields answers 500. */
  lemma LoneFilterOnMissingField(items: seq<Item>, params: Params, f: Field, it: Item)
    requires it in items && f in FilterFields && f !in it.fields
    requires forall g :: g in FilterFields ==> (Truthy(params, Name(g)) <==> g == f)
    requires !Truthy(params, "search")
    ensures GetResponse(items, params) == Response(500, Failed(FetchFailed))
  {
    LoneFilterPasses(params, f);
    var p := FieldPass(f, Get(params, Name(f)).value);
    assert RunPasses(items, [p]) == FilterPass(items, p) by {
      assert [p][..0] == [];
    }
    var i :| 0 <= i < |items| && items[i] == it;
    FilterPassThrows(items, p, i);
  }

  // ----- POST -----

  /** The body properties `POST` insists on, in the order it reports them. */
  const RequiredNames: seq<string> := ["platform", "title", "category", "type"]

  /** `names.filter(field => !body[field])`. */
  function Missing(names: seq<string>, body: Obj): seq<string>
    decreases |names|
  {
    if names == [] then []
    else
      var n := |names| - 1;
      Missing(names[..n], body) + if Truthy(body, names[n]) then [] else [names[n]]
  }

  /** A name is reported exactly when it is listed and its property is falsy, and the report is
      never longer than the list. */
  lemma {:induction false} MissingSpec(names: seq<string>, body: Obj)
    ensures forall x :: x in Missing(names, body) <==> x in names && !Truthy(body, x)
    ensures |Missing(names, body)| <= |names|
    decreases |names|
  {
    if names != [] {
      var n := |names| - 1;
      MissingSpec(names[..n], body);
      assert names == names[..n] + [names[n]];
      assert forall x :: x in names <==> x in names[..n] || x == names[n];
    }
  }

  /** The item data the store receives: the body's properties that name fields. */
  function BodyFields(body: Obj): map<Field, string> {
    map f: Field | Get(body, Name(f)).Some? :: Get(body, Name(f)).value
  }

  /** The body's own `id` property, which the store's object spread lets replace the counter's id. */
  function BodyId(body: Obj): Option<string> {
    Get(body, "id")
  }

  /** `POST /api/virtual-items`; `body` is `None` when the request body is not JSON. */
  method HandlePost(store: Store, body: Option<Obj>) returns (r: Response)
    requires store.Valid()
    modifies store
    ensures store.Valid()
    ensures body.None? ==> r == Response(500, Failed(CreateFailed)) && unchanged(store)
    ensures body.Some? && Missing(RequiredNames, body.value) != [] ==>
      && r == Response(400, Failed(MissingPrefix + Join(Missing(RequiredNames, body.value), ", ")))
      && unchanged(store)
    ensures body.Some? && Missing(RequiredNames, body.value) == [] ==>
      && r == Response(201, Created(Item(CreatedId(old(store.nextId), BodyId(body.value)), BodyFields(body.value))))
      && store.items == old(store.items) + [r.payload.item]
      && store.nextId == old(store.nextId) + 1
    ensures (body.Some? ==> BodyId(body.value).None?) && old(store.CounterIds()) ==> store.CounterIds()
  {
    if body.None? {
      return Response(500, Failed(CreateFailed));
    }
    var missing := Missing(RequiredNames, body.value);
    if |missing| > 0 {
      return Response(400, Failed(MissingPrefix + Join(missing, ", ")));
    }
    var item := store.Create(BodyFields(body.value), BodyId(body.value));
    r := Response(201, Created(item));
  }

  /** A body that passes the check gives an item whose platform, title, category and type are all
      non-empty; one that fails is told exactly which of them are missing. */
  lemma PostChecks(body: Obj)
    ensures Missing(RequiredNames, body) == [] ==>
      && Present(BodyFields(body), Platform) && Present(BodyFields(body), Title)
      && Present(BodyFields(body), Category) && Present(BodyFields(body), Type)
    ensures forall x :: x in Missing(RequiredNames, body) <==> x in RequiredNames && !Truthy(body, x)
  {
    MissingSpec(RequiredNames, body);
    if Missing(RequiredNames, body) == [] {
      assert RequiredNames == [Name(Platform), Name(Title), Name(Category), Name(Type)];
      BodyFieldPresent(body, Platform);
      BodyFieldPresent(body, Title);
      BodyFieldPresent(body, Category);
      BodyFieldPresent(body, Type);
    }
  }

  /** A truthy property of the body gives a non-empty field. */
  lemma BodyFieldPresent(body: Obj, f: Field)
    requires Truthy(body, Name(f))
    ensures Present(BodyFields(body), f)
  {
  }
}
