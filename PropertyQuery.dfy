/**
 * The `GET /api/properties` handler: a chain of optional filters over the
 * loaded collection, then one page of the result with its pagination
 * metadata, and an echo of the filter parameters.
 */
module PropertyQuery {
  import opened Wrappers
  import opened JsString
  import opened JsNumber
  import opened JsArray
  import opened Listings

  /** The query string of a request: each parameter is absent or a string. */
  datatype Query = Query(
    category: Option<string>,
    location: Option<string>,
    minPrice: Option<string>,
    maxPrice: Option<string>,
    minRating: Option<string>,
    search: Option<string>,
    page: Option<string>,
    limit: Option<string>)

  /** A parameter is truthy when it is present and not the empty string. */
  predicate Truthy(raw: Option<string>)
  {
    raw.Some? && raw.value != ""
  }

  /** The six filter parameters, in the order in which the handler applies them. */
  datatype FilterParam =
    | SearchParam | CategoryParam | LocationParam | MinPriceParam | MaxPriceParam | MinRatingParam

  /**
   * The callback the handler builds for a truthy parameter with text `text`;
   * the search term is lower-cased once, before filtering.
   */
  function CallbackFor(param: FilterParam, text: string): Filter
  {
    match param
    case SearchParam => SearchTerm(ToLowerCase(text))
    case CategoryParam => CategoryIs(text)
    case LocationParam => LocationHas(text)
    case MinPriceParam => MinPrice(text)
    case MaxPriceParam => MaxPrice(text)
    case MinRatingParam => MinRating(text)
  }

  /** A parameter lets `p` through when it is falsy or when its callback admits `p`. */
  predicate Passes(p: Listing, param: FilterParam, raw: Option<string>)
  {
    Truthy(raw) ==> Admits(CallbackFor(param, raw.value), p)
  }

  /**
   * The reference definition of the selection: a record is kept when every
   * filter parameter lets it through, whatever the order.
   */
  predicate SatisfiesQuery(p: Listing, q: Query)
  {
    && Passes(p, SearchParam, q.search)
    && Passes(p, CategoryParam, q.category)
    && Passes(p, LocationParam, q.location)
    && Passes(p, MinPriceParam, q.minPrice)
    && Passes(p, MaxPriceParam, q.maxPrice)
    && Passes(p, MinRatingParam, q.minRating)
  }

  /** The records of `data` that satisfy the query, in their original order. */
  function Selected(data: seq<Listing>, q: Query): (r: seq<Listing>)
    ensures IsSubsequence(r, data)
    ensures forall p :: p in r <==> p in data && SatisfiesQuery(p, q)
  {
    if data == [] then []
    else if SatisfiesQuery(data[0], q) then [data[0]] + Selected(data[1..], q)
    else Selected(data[1..], q)
  }

  /**
   * The selection holds every record that satisfies the query as often as the
   * collection does, and no other record: `totalItems` counts duplicates.
   */
  lemma {:induction false} SelectedCounts(data: seq<Listing>, q: Query)
    ensures forall p :: multiset(Selected(data, q))[p] == if SatisfiesQuery(p, q) then multiset(data)[p] else 0
  {
    if data != [] {
      SelectedCounts(data[1..], q);
      assert data == [data[0]] + data[1..];
    }
  }

  /** No truthy filter parameter: every record is kept, in order. */
  lemma {:induction false} NoFilterSelectsAll(data: seq<Listing>, q: Query)
    requires !Truthy(q.search) && !Truthy(q.category) && !Truthy(q.location)
    requires !Truthy(q.minPrice) && !Truthy(q.maxPrice) && !Truthy(q.minRating)
    ensures Selected(data, q) == data
  {
    if data != [] {
      NoFilterSelectsAll(data[1..], q);
    }
  }

  /**
   * `wider` supplies every filter that `q` supplies, with the same text, and
   * possibly more.
   */
  predicate Extends(wider: Query, q: Query)
  {
    && (Truthy(q.search) ==> wider.search == q.search)
    && (Truthy(q.category) ==> wider.category == q.category)
    && (Truthy(q.location) ==> wider.location == q.location)
    && (Truthy(q.minPrice) ==> wider.minPrice == q.minPrice)
    && (Truthy(q.maxPrice) ==> wider.maxPrice == q.maxPrice)
    && (Truthy(q.minRating) ==> wider.minRating == q.minRating)
  }

  /** Supplying more filters never adds a record: the result only narrows, in order. */
  lemma {:induction false} MoreFiltersNarrow(data: seq<Listing>, q: Query, wider: Query)
    requires Extends(wider, q)
    ensures IsSubsequence(Selected(data, wider), Selected(data, q))
    ensures |Selected(data, wider)| <= |Selected(data, q)|
  {
    if data != [] {
      MoreFiltersNarrow(data[1..], q, wider);
      var p := data[0];
      if SatisfiesQuery(p, wider) {
        assert SatisfiesQuery(p, q);
      } else if SatisfiesQuery(p, q) {
        SubsequenceSkip(Selected(data[1..], wider), Selected(data, q));
      }
    }
    SubsequenceFacts(Selected(data, wider), Selected(data, q));
  }

  /**
   * A truthy `minPrice` or `maxPrice` that `parseInt` reads as NaN, or a truthy
   * `minRating` that `parseFloat` reads as NaN: the query holds for no record,
   * because every comparison with NaN is false.
   */
  predicate HasMalformedBound(q: Query)
  {
    || (Truthy(q.minPrice) && ParseInt(q.minPrice.value).None?)
    || (Truthy(q.maxPrice) && ParseInt(q.maxPrice.value).None?)
    || (Truthy(q.minRating) && ParseFloat(q.minRating.value).NaN?)
  }

  /** A malformed bound is still applied, and rejects every record. */
  lemma MalformedBoundRejects(p: Listing, q: Query)
    requires HasMalformedBound(q)
    ensures !SatisfiesQuery(p, q)
  {
  }

  /** A malformed bound empties the selection rather than being ignored. */
  lemma {:induction false} MalformedBoundSelectsNothing(data: seq<Listing>, q: Query)
    requires HasMalformedBound(q)
    ensures Selected(data, q) == []
  {
    if data != [] {
      MalformedBoundSelectsNothing(data[1..], q);
      MalformedBoundRejects(data[0], q);
    }
  }

  /** `minPrice=invalid` or `maxPrice=also-invalid` empties the selection rather than being ignored. */
  lemma InvalidBoundsSelectNothing(data: seq<Listing>, q: Query)
    requires q.minPrice == Some("invalid") || q.maxPrice == Some("also-invalid")
    ensures Selected(data, q) == []
  {
    if q.minPrice == Some("invalid") {
      ParseIntOfNoDigits("invalid");
    } else {
      ParseIntOfNoDigits("also-invalid");
    }
    MalformedBoundSelectsNothing(data, q);
  }

  /** The selection depends on the query only through its filter echo. */
  lemma {:induction false} EchoDeterminesSelection(data: seq<Listing>, q: Query, q': Query)
    requires Echo(q) == Echo(q')
    ensures Selected(data, q) == Selected(data, q')
  {
    if data != [] {
      EchoDeterminesSelection(data[1..], q, q');
      assert OrNull(q.search) == OrNull(q'.search);
      assert SatisfiesQuery(data[0], q) <==> SatisfiesQuery(data[0], q');
    }
  }

  /** Appending one callback to a chain adds one conjunct to what it admits. */
  lemma {:induction false} AppendAdmits(fs: seq<Filter>, f: Filter, p: Listing)
    ensures AdmitsAll(fs + [f], p) <==> AdmitsAll(fs, p) && Admits(f, p)
  {
    assert (fs + [f])[..|fs|] == fs;
  }

  /** One `if (x) properties = properties.filter(…)` step: a truthy parameter appends its callback. */
  function Step(fs: seq<Filter>, param: FilterParam, raw: Option<string>): seq<Filter>
  {
    if Truthy(raw) then fs + [CallbackFor(param, raw.value)] else fs
  }

  /** The filter callbacks the handler applies, in its order, one per truthy parameter. */
  function ActiveFilters(q: Query): seq<Filter>
  {
    var afterSearch := Step([], SearchParam, q.search);
    var afterCategory := Step(afterSearch, CategoryParam, q.category);
    var afterLocation := Step(afterCategory, LocationParam, q.location);
    var afterMinPrice := Step(afterLocation, MinPriceParam, q.minPrice);
    var afterMaxPrice := Step(afterMinPrice, MaxPriceParam, q.maxPrice);
    Step(afterMaxPrice, MinRatingParam, q.minRating)
  }

  /** A step adds the parameter's condition to what the chain admits. */
  lemma StepAdmits(fs: seq<Filter>, param: FilterParam, raw: Option<string>, p: Listing)
    ensures AdmitsAll(Step(fs, param, raw), p) <==> AdmitsAll(fs, p) && Passes(p, param, raw)
  {
    if Truthy(raw) {
      AppendAdmits(fs, CallbackFor(param, raw.value), p);
    }
  }

  /** One step on the working list: a truthy parameter filters it with its callback. */
  function FilterStep(s: seq<Listing>, param: FilterParam, raw: Option<string>): seq<Listing>
  {
    if Truthy(raw) then Keep(s, CallbackFor(param, raw.value)) else s
  }

  /** The working list after the whole chain, step by step as the handler computes it. */
  function Filtered(data: seq<Listing>, q: Query): seq<Listing>
  {
    var afterSearch := FilterStep(data, SearchParam, q.search);
    var afterCategory := FilterStep(afterSearch, CategoryParam, q.category);
    var afterLocation := FilterStep(afterCategory, LocationParam, q.location);
    var afterMinPrice := FilterStep(afterLocation, MinPriceParam, q.minPrice);
    var afterMaxPrice := FilterStep(afterMinPrice, MaxPriceParam, q.maxPrice);
    FilterStep(afterMaxPrice, MinRatingParam, q.minRating)
  }

  /** Filtering by a chain extended by one step is one more step on the working list. */
  lemma StepFilters(data: seq<Listing>, fs: seq<Filter>, param: FilterParam, raw: Option<string>)
    ensures Where(data, Step(fs, param, raw)) == FilterStep(Where(data, fs), param, raw)
  {
    if Truthy(raw) {
      KeepAfterWhere(data, fs, CallbackFor(param, raw.value));
    }
  }

  /** The chain of callbacks admits exactly the records that satisfy the query. */
  lemma {:induction false} ActiveFiltersAdmit(q: Query, p: Listing)
    ensures AdmitsAll(ActiveFilters(q), p) <==> SatisfiesQuery(p, q)
  {
    var afterSearch := Step([], SearchParam, q.search);
    StepAdmits([], SearchParam, q.search, p);
    var afterCategory := Step(afterSearch, CategoryParam, q.category);
    StepAdmits(afterSearch, CategoryParam, q.category, p);
    var afterLocation := Step(afterCategory, LocationParam, q.location);
    StepAdmits(afterCategory, LocationParam, q.location, p);
    var afterMinPrice := Step(afterLocation, MinPriceParam, q.minPrice);
    StepAdmits(afterLocation, MinPriceParam, q.minPrice, p);
    var afterMaxPrice := Step(afterMinPrice, MaxPriceParam, q.maxPrice);
    StepAdmits(afterMinPrice, MaxPriceParam, q.maxPrice, p);
    StepAdmits(afterMaxPrice, MinRatingParam, q.minRating, p);
  }

  /** Running the chain of callbacks over the collection gives the reference selection. */
  lemma {:induction false} ChainIsSelected(data: seq<Listing>, q: Query)
    ensures Where(data, ActiveFilters(q)) == Selected(data, q)
  {
    forall p ensures AdmitsAll(ActiveFilters(q), p) <==> SatisfiesQuery(p, q) {
      ActiveFiltersAdmit(q, p);
    }
    WhereMatchesSelected(data, q);
  }

  lemma {:induction false} WhereMatchesSelected(data: seq<Listing>, q: Query)
    requires forall p :: AdmitsAll(ActiveFilters(q), p) <==> SatisfiesQuery(p, q)
    ensures Where(data, ActiveFilters(q)) == Selected(data, q)
  {
    if data != [] {
      WhereMatchesSelected(data[1..], q);
    }
  }

  /** JavaScript's `n || fallback` for a parsed integer: NaN and 0 fall back. */
  function IntOr(n: Option<int>, fallback: int): (r: int)
    ensures n.Some? && n.value != 0 ==> r == n.value
    ensures n.None? || n.value == 0 ==> r == fallback
  {
    if n.Some? && n.value != 0 then n.value else fallback
  }

  /** `parseInt(raw)`; an absent parameter reads as the string "undefined", which is NaN. */
  function ParseParam(raw: Option<string>): Option<int>
  {
    if raw.Some? then ParseInt(raw.value) else None
  }

  /** `parseInt(req.query.page) || 1`. */
  function PageNumber(raw: Option<string>): (page: int)
    ensures page != 0
  {
    IntOr(ParseParam(raw), 1)
  }

  /** `parseInt(req.query.limit) || 10`. */
  function PageSize(raw: Option<string>): (limit: int)
    ensures limit != 0
  {
    IntOr(ParseParam(raw), 10)
  }

  /** The `pagination` object of the response. */
  datatype Pagination = Pagination(
    currentPage: int,
    totalPages: int,
    totalItems: nat,
    itemsPerPage: int,
    hasNextPage: bool,
    hasPrevPage: bool)

  /** The `filters` object of the response: each parameter, or `null` (`None`) when falsy. */
  datatype FilterEcho = FilterEcho(
    category: Option<string>,
    location: Option<string>,
    minPrice: Option<string>,
    maxPrice: Option<string>,
    minRating: Option<string>,
    search: Option<string>)

  /** The body of a successful listing response. */
  datatype ListResponse = ListResponse(data: seq<Listing>, pagination: Pagination, filters: FilterEcho)

  /** `raw || null`. */
  function OrNull(raw: Option<string>): (r: Option<string>)
    ensures r.Some? <==> Truthy(raw)
    ensures r.Some? ==> r == raw
  {
    if Truthy(raw) then raw else None
  }

  /** The `filters` echo of a query. */
  function Echo(q: Query): FilterEcho
  {
    FilterEcho(OrNull(q.category), OrNull(q.location), OrNull(q.minPrice),
               OrNull(q.maxPrice), OrNull(q.minRating), OrNull(q.search))
  }

  /** Filtering step by step gives the reference selection. */
  lemma {:induction false} FilteredIsSelected(data: seq<Listing>, q: Query)
    ensures Filtered(data, q) == Selected(data, q)
  {
    WhereNoFilter(data);
    var afterSearch := Step([], SearchParam, q.search);
    StepFilters(data, [], SearchParam, q.search);
    var afterCategory := Step(afterSearch, CategoryParam, q.category);
    StepFilters(data, afterSearch, CategoryParam, q.category);
    var afterLocation := Step(afterCategory, LocationParam, q.location);
    StepFilters(data, afterCategory, LocationParam, q.location);
    var afterMinPrice := Step(afterLocation, MinPriceParam, q.minPrice);
    StepFilters(data, afterLocation, MinPriceParam, q.minPrice);
    var afterMaxPrice := Step(afterMinPrice, MaxPriceParam, q.maxPrice);
    StepFilters(data, afterMinPrice, MaxPriceParam, q.maxPrice);
    StepFilters(data, afterMaxPrice, MinRatingParam, q.minRating);
    ChainIsSelected(data, q);
  }

  /**
   * The filtering half of `GET /api/properties`: starting from the whole
   * collection, each truthy parameter replaces the working list with the
   * records its callback admits.
   */
  method FilterProperties(data: seq<Listing>, q: Query) returns (properties: seq<Listing>)
    ensures properties == Selected(data, q)
  {
    properties := data;

    if Truthy(q.search) {
      properties := Keep(properties, CallbackFor(SearchParam, q.search.value));
    }
    assert properties == FilterStep(data, SearchParam, q.search);
    ghost var afterSearch := properties;

    if Truthy(q.category) {
      properties := Keep(properties, CallbackFor(CategoryParam, q.category.value));
    }
    assert properties == FilterStep(afterSearch, CategoryParam, q.category);
    ghost var afterCategory := properties;

    if Truthy(q.location) {
      properties := Keep(properties, CallbackFor(LocationParam, q.location.value));
    }
    assert properties == FilterStep(afterCategory, LocationParam, q.location);
    ghost var afterLocation := properties;

    if Truthy(q.minPrice) {
      properties := Keep(properties, CallbackFor(MinPriceParam, q.minPrice.value));
    }
    assert properties == FilterStep(afterLocation, MinPriceParam, q.minPrice);
    ghost var afterMinPrice := properties;

    if Truthy(q.maxPrice) {
      properties := Keep(properties, CallbackFor(MaxPriceParam, q.maxPrice.value));
    }
    assert properties == FilterStep(afterMinPrice, MaxPriceParam, q.maxPrice);
    ghost var afterMaxPrice := properties;

    if Truthy(q.minRating) {
      properties := Keep(properties, CallbackFor(MinRatingParam, q.minRating.value));
    }
    assert properties == FilterStep(afterMaxPrice, MinRatingParam, q.minRating);

    FilteredIsSelected(data, q);
  }

  /**
   * `GET /api/properties`: narrow the collection filter by filter, then cut
   * out one page and describe it.
   */
  method ListProperties(data: seq<Listing>, q: Query) returns (resp: ListResponse)
    ensures forall p :: p in resp.data ==> p in data && SatisfiesQuery(p, q)
    ensures resp.data == Slice(Selected(data, q),
                               (PageNumber(q.page) - 1) * PageSize(q.limit),
                               PageNumber(q.page) * PageSize(q.limit))
    ensures resp.pagination.totalItems == |Selected(data, q)|
    ensures resp.pagination.currentPage == PageNumber(q.page)
    ensures resp.pagination.itemsPerPage == PageSize(q.limit)
    ensures resp.pagination.totalPages == CeilQuotient(|Selected(data, q)|, PageSize(q.limit))
    ensures resp.pagination.hasNextPage <==> PageNumber(q.page) * PageSize(q.limit) < |Selected(data, q)|
    ensures resp.pagination.hasPrevPage <==> PageNumber(q.page) > 1
    ensures resp.filters == Echo(q)
  {
    var properties := FilterProperties(data, q);

    var page := PageNumber(q.page);
    var limit := PageSize(q.limit);
    var startIndex := (page - 1) * limit;
    var endIndex := page * limit;

    var paginatedProperties := Slice(properties, startIndex, endIndex);
    SliceIsSegment(properties, startIndex, endIndex);

    resp := ListResponse(
      paginatedProperties,
      Pagination(page, CeilQuotient(|properties|, limit), |properties|, limit,
                 endIndex < |properties|, page > 1),
      Echo(q));
  }

  /** A decimal `page` or `limit` is taken as written, except that 0 falls back. */
  lemma DecimalPageParameters(n: int)
    ensures PageNumber(Some(IntToString(n))) == if n == 0 then 1 else n
    ensures PageSize(Some(IntToString(n))) == if n == 0 then 10 else n
  {
    ParseIntOfIntToString(n, "");
    assert IntToString(n) + "" == IntToString(n);
  }

  /**
   * An absent, empty or non-numeric `page` or `limit` falls back to 1 and 10:
   * after the white space and one optional sign, no decimal digit follows.
   */
  lemma NonNumericPageParameters(raw: Option<string>)
    requires raw.Some? ==> var u := StripSign(TrimStart(raw.value)).1; u == [] || !IsDigit(u[0], 10)
    ensures PageNumber(raw) == 1 && PageSize(raw) == 10
  {
  }

  /**
   * With a positive page and limit, the page is the run of `items` from
   * `(page - 1) * limit` up to `page * limit` or the end: at most `limit`
   * records, and empty exactly when the start index is at or past the end.
   */
  lemma PageWindow<T>(items: seq<T>, page: int, limit: int)
    requires page >= 1 && limit >= 1
    ensures var start := (page - 1) * limit;
            var end := page * limit;
            && 0 <= start <= end
            && Slice(items, start, end) == items[if start < |items| then start else |items|..if end < |items| then end else |items|]
            && |Slice(items, start, end)| <= limit
            && (Slice(items, start, end) == [] <==> start >= |items|)
  {
    var start := (page - 1) * limit;
    var end := page * limit;
    assert start >= 0 by {
      assert page - 1 >= 0;
    }
    assert end == start + limit;
  }

  /** Every record of `items` is on exactly one page: page `i / limit + 1`, at position `i % limit`. */
  lemma ItemOnItsPage<T>(items: seq<T>, i: int, limit: int)
    requires 0 <= i < |items| && limit >= 1
    ensures var page := i / limit + 1;
            var window := Slice(items, (page - 1) * limit, page * limit);
            i % limit < |window| && window[i % limit] == items[i]
  {
    var page := i / limit + 1;
    PageWindow(items, page, limit);
    assert (page - 1) * limit == i - i % limit;
  }

  /**
   * `totalPages` is 0 exactly when nothing matched, and `hasNextPage`
   * (`page * limit < totalItems`) holds exactly when `page < totalPages`.
   */
  lemma PageCount(n: nat, page: int, limit: int)
    requires page >= 1 && limit >= 1
    ensures CeilQuotient(n, limit) >= 0
    ensures CeilQuotient(n, limit) == 0 <==> n == 0
    ensures page * limit < n <==> page < CeilQuotient(n, limit)
  {
    var total := CeilQuotient(n, limit);
    if page < total {
      MultiplyMonotone(page, total - 1, limit);
    } else {
      MultiplyMonotone(total, page, limit);
    }
  }

  /** Multiplying by a positive number keeps the order. */
  lemma {:induction false} MultiplyMonotone(a: int, b: int, c: int)
    requires a <= b && c >= 0
    ensures a * c <= b * c
    decreases b - a
  {
    if a < b {
      MultiplyMonotone(a, b - 1, c);
      assert b * c == (b - 1) * c + c;
    }
  }
}
