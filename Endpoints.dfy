/**
 * The single-purpose read endpoints: the dedicated search, the category and
 * location listings, lookup by id and the category enumeration. Each is one
 * expression over the loaded collection.
 */
module Endpoints {
  import opened Wrappers
  import opened JsString
  import opened JsArray
  import opened Listings
  import opened PropertyQuery

  /** The failures these endpoints report to the client. */
  datatype ApiError = MissingQuery | NotFound

  /** The HTTP status of a failure. */
  function Status(e: ApiError): (code: nat)
    ensures e.MissingQuery? ==> code == 400
    ensures e.NotFound? ==> code == 404
  {
    match e
    case MissingQuery => 400
    case NotFound => 404
  }

  /** The `message` of a failure. */
  function Message(e: ApiError): (m: string)
    ensures e.MissingQuery? ==> m == "Search query is required"
    ensures e.NotFound? ==> m == "Property not found"
  {
    match e
    case MissingQuery => "Search query is required"
    case NotFound => "Property not found"
  }

  /** The body of `GET /api/properties/search`: every match, the raw query, and their number. */
  datatype SearchResponse = SearchResponse(data: seq<Listing>, query: string, count: nat)

  /**
   * `GET /api/properties/search?q=…`: a missing or empty `q` is refused;
   * otherwise every record the search predicate admits, unpaginated.
   */
  function SearchProperties(data: seq<Listing>, q: Option<string>): (r: Result<SearchResponse, ApiError>)
    ensures r.Failure? <==> !Truthy(q)
    ensures r.Failure? ==> r.error == MissingQuery
    ensures r.Success? ==> r.value.query == q.value && r.value.count == |r.value.data|
    ensures r.Success? ==> IsSubsequence(r.value.data, data)
    ensures r.Success? ==> forall p :: p in r.value.data <==> p in data && MatchesSearch(p, ToLowerCase(q.value))
  {
    if !Truthy(q) then Failure(MissingQuery)
    else
      var properties := Keep(data, SearchTerm(ToLowerCase(q.value)));
      Success(SearchResponse(properties, q.value, |properties|))
  }

  /** The body of the category and location listings: the matches, the raw parameter, their number. */
  datatype GroupResponse = GroupResponse(data: seq<Listing>, key: string, count: nat)

  /** `GET /api/properties/category/:category`: the records whose category is exactly the parameter. */
  function PropertiesByCategory(data: seq<Listing>, category: string): (r: GroupResponse)
    ensures r.key == category && r.count == |r.data|
    ensures IsSubsequence(r.data, data)
    ensures forall p :: p in r.data <==> p in data && p.category == category
  {
    var properties := Keep(data, CategoryIs(category));
    GroupResponse(properties, category, |properties|)
  }

  /**
   * `GET /api/properties/location/:location`: the records whose lower-cased
   * location contains the lower-cased parameter; the parameter is echoed as given.
   */
  function PropertiesByLocation(data: seq<Listing>, location: string): (r: GroupResponse)
    ensures r.key == location && r.count == |r.data|
    ensures IsSubsequence(r.data, data)
    ensures forall p :: p in r.data <==> p in data && Includes(ToLowerCase(p.location), ToLowerCase(location))
  {
    var properties := Keep(data, LocationHas(location));
    GroupResponse(properties, location, |properties|)
  }

  /** A query with every parameter absent. */
  const NoParameters := Query(None, None, None, None, None, None, None, None)

  /** When a callback admits what a query selects, filtering by it gives the query's selection. */
  lemma {:induction false} KeepIsSelected(data: seq<Listing>, f: Filter, q: Query)
    requires forall p :: Admits(f, p) <==> SatisfiesQuery(p, q)
    ensures Keep(data, f) == Selected(data, q)
  {
    if data != [] {
      KeepIsSelected(data[1..], f, q);
    }
  }

  /** The dedicated search keeps what the listing keeps for `?search=` alone, before pagination. */
  lemma {:induction false} SearchAgreesWithListing(data: seq<Listing>, term: string)
    requires term != ""
    ensures SearchProperties(data, Some(term)).value.data == Selected(data, NoParameters.(search := Some(term)))
  {
    var q := NoParameters.(search := Some(term));
    forall p ensures Admits(SearchTerm(ToLowerCase(term)), p) <==> SatisfiesQuery(p, q) {
      assert Passes(p, SearchParam, q.search) <==> Admits(SearchTerm(ToLowerCase(term)), p);
    }
    KeepIsSelected(data, SearchTerm(ToLowerCase(term)), q);
  }

  /** The category listing keeps what the listing keeps for `?category=` alone, before pagination. */
  lemma {:induction false} CategoryAgreesWithListing(data: seq<Listing>, category: string)
    requires category != ""
    ensures PropertiesByCategory(data, category).data == Selected(data, NoParameters.(category := Some(category)))
  {
    var q := NoParameters.(category := Some(category));
    forall p ensures Admits(CategoryIs(category), p) <==> SatisfiesQuery(p, q) {
      assert Passes(p, CategoryParam, q.category) <==> Admits(CategoryIs(category), p);
    }
    KeepIsSelected(data, CategoryIs(category), q);
  }

  /** The location listing keeps what the listing keeps for `?location=` alone, before pagination. */
  lemma {:induction false} LocationAgreesWithListing(data: seq<Listing>, location: string)
    requires location != ""
    ensures PropertiesByLocation(data, location).data == Selected(data, NoParameters.(location := Some(location)))
  {
    var q := NoParameters.(location := Some(location));
    forall p ensures Admits(LocationHas(location), p) <==> SatisfiesQuery(p, q) {
      assert Passes(p, LocationParam, q.location) <==> Admits(LocationHas(location), p);
    }
    KeepIsSelected(data, LocationHas(location), q);
  }

  /** `data.findIndex(p => p.id === id)`, with `|data|` standing for "none". */
  function FirstWithId(data: seq<Listing>, id: string): (i: nat)
    ensures i <= |data|
    ensures i < |data| ==> data[i].id == id
    ensures forall j :: 0 <= j < i ==> data[j].id != id
  {
    if data == [] then 0
    else if data[0].id == id then 0
    else 1 + FirstWithId(data[1..], id)
  }

  /** `GET /api/properties/:id`: the first record with that id, or "Property not found". */
  function PropertyById(data: seq<Listing>, id: string): (r: Result<Listing, ApiError>)
    ensures r.Failure? <==> forall p :: p in data ==> p.id != id
    ensures r.Failure? ==> r.error == NotFound
    ensures r.Success? ==> exists i :: 0 <= i < |data| && data[i] == r.value && r.value.id == id
                             && forall j :: 0 <= j < i ==> data[j].id != id
  {
    var i := FirstWithId(data, id);
    if i < |data| then Success(data[i]) else Failure(NotFound)
  }

  /** No two records share an id. */
  predicate UniqueIds(data: seq<Listing>)
  {
    forall i, j :: 0 <= i < j < |data| ==> data[i].id != data[j].id
  }

  /** With unique ids, looking up the id of any record finds that record. */
  lemma LookupFindsEachRecord(data: seq<Listing>, k: int)
    requires UniqueIds(data) && 0 <= k < |data|
    ensures PropertyById(data, data[k].id) == Success(data[k])
  {
    var i := FirstWithId(data, data[k].id);
    assert !(i > k);
  }

  /** `data.map(p => p.category)`. */
  function CategoryColumn(data: seq<Listing>): (r: seq<string>)
    ensures |r| == |data|
    ensures forall i :: 0 <= i < |data| ==> r[i] == data[i].category
  {
    if data == [] then [] else [data[0].category] + CategoryColumn(data[1..])
  }

  /**
   * `GET /api/categories`: `[...new Set(data.map(p => p.category))]`, each
   * category present in the collection exactly once.
   */
  function Categories(data: seq<Listing>): (r: seq<string>)
    ensures forall c :: c in r <==> exists p :: p in data && p.category == c
    ensures NoDuplicates(r)
  {
    var column := CategoryColumn(data);
    assert forall c :: c in column <==> exists p :: p in data && p.category == c by {
      forall c | c in column ensures exists p :: p in data && p.category == c {
        var i :| 0 <= i < |column| && column[i] == c;
        assert data[i] in data;
      }
      forall p | p in data ensures p.category in column {
        var i :| 0 <= i < |data| && data[i] == p;
        assert column[i] == p.category;
      }
    }
    Distinct(column)
  }

  /** The categories are listed in the order in which they first occur in the collection. */
  lemma CategoriesInFirstOccurrenceOrder(data: seq<Listing>)
    ensures forall i, j :: 0 <= i < j < |Categories(data)| ==>
              FirstIndex(CategoryColumn(data), Categories(data)[i])
              < FirstIndex(CategoryColumn(data), Categories(data)[j])
  {
    DistinctKeepsFirstOccurrenceOrder(CategoryColumn(data));
  }
}
