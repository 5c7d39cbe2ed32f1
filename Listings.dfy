/**
 * A listing record, the predicates the query engine filters by, and the
 * filtering itself (`Array.prototype.filter` with one of those predicates).
 */
module Listings {
  import opened Wrappers
  import opened JsString
  import opened JsNumber
  import opened JsArray

  datatype Coordinates = Coordinates(lat: real, lng: real)

  datatype Host = Host(name: string, avatar: string, rating: real)

  /** One property of the collection; numbers are exact. */
  datatype Listing = Listing(
    id: string,
    title: string,
    location: string,
    price: real,
    rating: real,
    coordinates: Coordinates,
    images: seq<string>,
    category: string,
    description: string,
    amenities: seq<string>,
    host: Host,
    distance: real,
    availableDates: string)

  /**
   * One filter callback of the listing handler, with the raw text it closes
   * over. The search term is lower-cased once by the handler before filtering;
   * the other callbacks lower-case or parse their text on every call.
   */
  datatype Filter =
    | SearchTerm(lowered: string)
    | CategoryIs(category: string)
    | LocationHas(location: string)
    | MinPrice(minPrice: string)
    | MaxPrice(maxPrice: string)
    | MinRating(minRating: string)

  /**
   * The search predicate: the lower-cased term is a substring of the lower-cased
   * title, location, description or category.
   */
  predicate MatchesSearch(p: Listing, lowered: string)
  {
    || Includes(ToLowerCase(p.title), lowered)
    || Includes(ToLowerCase(p.location), lowered)
    || Includes(ToLowerCase(p.description), lowered)
    || Includes(ToLowerCase(p.category), lowered)
  }

  /** A term found verbatim in the title, location, description or category matches the search, in any case. */
  lemma ExactOccurrenceMatchesSearch(p: Listing, term: string)
    requires || Includes(p.title, term) || Includes(p.location, term)
             || Includes(p.description, term) || Includes(p.category, term)
    ensures MatchesSearch(p, ToLowerCase(term))
  {
    if Includes(p.title, term) {
      LowerCaseKeepsIncludes(p.title, term);
    } else if Includes(p.location, term) {
      LowerCaseKeepsIncludes(p.location, term);
    } else if Includes(p.description, term) {
      LowerCaseKeepsIncludes(p.description, term);
    } else {
      LowerCaseKeepsIncludes(p.category, term);
    }
  }

  /** `x >= n` in JavaScript for an integer `n` that may be NaN (`None`). */
  predicate AtLeastInt(x: real, n: Option<int>)
  {
    n.Some? && x >= n.value as real
  }

  /** `x <= n` in JavaScript for an integer `n` that may be NaN (`None`). */
  predicate AtMostInt(x: real, n: Option<int>)
  {
    n.Some? && x <= n.value as real
  }

  /** `x >= n` in JavaScript for a parsed float: false against NaN and +Infinity, true against -Infinity. */
  predicate AtLeastNum(x: real, n: Num)
  {
    match n
    case NaN => false
    case Finite(v) => x >= v
    case Infinity(negative) => negative
  }

  /** Whether the callback of filter `f` returns true for record `p`. */
  predicate Admits(f: Filter, p: Listing)
  {
    match f
    case SearchTerm(lowered) => MatchesSearch(p, lowered)
    case CategoryIs(category) => p.category == category
    case LocationHas(location) => Includes(ToLowerCase(p.location), ToLowerCase(location))
    case MinPrice(minPrice) => AtLeastInt(p.price, ParseInt(minPrice))
    case MaxPrice(maxPrice) => AtMostInt(p.price, ParseInt(maxPrice))
    case MinRating(minRating) => AtLeastNum(p.rating, ParseFloat(minRating))
  }

  /**
   * `s.filter(f)`: the records the callback admits, in their original order,
   * each occurrence of an admitted record kept and every other dropped.
   */
  function Keep(s: seq<Listing>, f: Filter): (r: seq<Listing>)
    ensures IsSubsequence(r, s)
    ensures forall p :: p in r <==> p in s && Admits(f, p)
  {
    if s == [] then []
    else if Admits(f, s[0]) then [s[0]] + Keep(s[1..], f)
    else Keep(s[1..], f)
  }

  /** `filter` keeps every occurrence of an admitted record, as often as the input holds it, and no other record. */
  lemma {:induction false} KeepCounts(s: seq<Listing>, f: Filter)
    ensures forall p :: multiset(Keep(s, f))[p] == if Admits(f, p) then multiset(s)[p] else 0
  {
    if s != [] {
      KeepCounts(s[1..], f);
      assert s == [s[0]] + s[1..];
    }
  }

  /** Every filter of `fs` admits `p`. */
  predicate AdmitsAll(fs: seq<Filter>, p: Listing)
  {
    fs == [] || (AdmitsAll(fs[..|fs| - 1], p) && Admits(fs[|fs| - 1], p))
  }

  /** The records of `s` that every filter of `fs` admits, in their original order. */
  function Where(s: seq<Listing>, fs: seq<Filter>): (r: seq<Listing>)
    ensures IsSubsequence(r, s)
    ensures forall p :: p in r <==> p in s && AdmitsAll(fs, p)
  {
    if s == [] then []
    else if AdmitsAll(fs, s[0]) then [s[0]] + Where(s[1..], fs)
    else Where(s[1..], fs)
  }

  /** A chain keeps every occurrence of a record all its callbacks admit, as often as the input holds it, and no other record. */
  lemma {:induction false} WhereCounts(s: seq<Listing>, fs: seq<Filter>)
    ensures forall p :: multiset(Where(s, fs))[p] == if AdmitsAll(fs, p) then multiset(s)[p] else 0
  {
    if s != [] {
      WhereCounts(s[1..], fs);
      assert s == [s[0]] + s[1..];
    }
  }

  /** With no filter, nothing is removed. */
  lemma {:induction false} WhereNoFilter(s: seq<Listing>)
    ensures Where(s, []) == s
  {
    if s != [] {
      WhereNoFilter(s[1..]);
    }
  }

  /** Filtering what a chain of filters kept is the chain with one more filter. */
  lemma {:induction false} KeepAfterWhere(s: seq<Listing>, fs: seq<Filter>, f: Filter)
    ensures Keep(Where(s, fs), f) == Where(s, fs + [f])
  {
    if s != [] {
      KeepAfterWhere(s[1..], fs, f);
      assert (fs + [f])[..|fs|] == fs;
    }
  }

  /** A filter list admitting fewer records selects a subsequence of what a weaker one selects. */
  lemma {:induction false} WhereStronger(s: seq<Listing>, fs: seq<Filter>, gs: seq<Filter>)
    requires forall p :: AdmitsAll(gs, p) ==> AdmitsAll(fs, p)
    ensures IsSubsequence(Where(s, gs), Where(s, fs))
  {
    if s != [] {
      WhereStronger(s[1..], fs, gs);
      if AdmitsAll(gs, s[0]) {
        assert Where(s, gs)[1..] == Where(s[1..], gs);
      } else if AdmitsAll(fs, s[0]) {
        SubsequenceSkip(Where(s, gs), Where(s, fs));
      }
    }
  }
}
