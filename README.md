# Airbnb-style listing API: the query engine

This project models the read side of an Express server for holiday-rental listings. The server loads a collection of listing records and answers these requests:

- `GET /api/properties` filters the collection. Up to six optional query parameters apply, in a fixed order:
  - `search`: a case-insensitive substring of the title, location, description or category;
  - `category`: the exact category;
  - `location`: a case-insensitive substring of the location;
  - `minPrice` and `maxPrice`: read with `parseInt`;
  - `minRating`: read with `parseFloat`.

  It then returns one page of the result (`page`, `limit`), the page metadata, and an echo of the filter parameters.
- `GET /api/properties/search?q=` returns every search match. It refuses a missing or empty `q`.
- `GET /api/properties/category/:category` and `GET /api/properties/location/:location` return the matching records and their count.
- `GET /api/properties/:id` returns the first record with that id, or "Property not found".
- `GET /api/categories` lists each category once, in order of first occurrence.

## Modules

- **Wrappers**: `Option` and `Result`.
- **JsString**: the JavaScript string built-ins the handlers call: `toLowerCase` and `includes`.
- **JsNumber**: `parseInt`, `parseFloat` and `Math.ceil` of a quotient.
  - A parsed number is `None`/`NaN` when JavaScript yields NaN.
  - Every comparison with NaN is false.
- **JsArray**: `Array.prototype.slice` with its negative-index rules, order-preserving subsequences, and `[...new Set(xs)]`.
- **Listings**: the record, the six filter callbacks, and `filter` with one callback (`Keep`) or a chain of them (`Where`).
- **PropertyQuery**: the list handler.
  - `FilterProperties` and `ListProperties` are methods. Like the handler, `FilterProperties` reassigns the working list once per truthy parameter, with that parameter's callback.
  - They are proved equal to a reference selection, `Selected`, that does not depend on the order of the filters.
  - The pagination and echo lemmas are stated about the functions that specify them.
- **Endpoints**: the search, category, location, by-id and categories handlers, as functions.

The collection and the query string are parameters. Prices and ratings are exact `real` numbers. A query parameter is `Option<string>`. A parameter is *truthy* when it is present and not empty.

## Behaviour of the code that differs from a plain reading of the API

- A `minPrice`, `maxPrice` or `minRating` that is not a number is still applied. For example, `minPrice=invalid` is a truthy string. The callback compares every price with NaN, which is false, so the result is empty. The test comments at `__tests__/integration.test.js:226-229` expect such a filter to be ignored.
  - The model follows the code: `MalformedBoundSelectsNothing`, `InvalidBoundsSelectNothing`.
- `page` and `limit` fall back to 1 and 10 only when `parseInt` gives NaN or 0. A negative value is kept and reaches `slice`, which then counts from the end. `Slice` models those rules.
- `parseInt("12abc")` is 12 and `parseInt("0x1f")` is 31. The model reads the longest numeric prefix as `parseInt` does.

## Model

| member | source | states |
|---|---|---|
| JsString.LowerChar | server.js:66 | An ASCII capital maps to its small letter; every other character is unchanged |
| JsString.ToLowerCase | server.js:66-71 | Keeps the length and lower-cases each character at its position |
| JsString.ToLowerCaseNormalizes | server.js:66-71 | The result contains no capital letter; lower-casing twice is lower-casing once |
| JsString.Includes | server.js:68-71 | `includes` is true exactly when the needle occurs at some position of the haystack |
| JsString.LowerCaseKeepsIncludes | server.js:66-71 | A needle found in a string is still found once both are lower-cased, so the lower-cased comparison ignores case |
| JsNumber.TrimStartSpec | server.js:89 | Trimming drops only leading white space, all of it, and leaves a suffix of the text |
| JsNumber.LeadingDigitsSpec | server.js:89 | The digits read are a prefix made only of digits of the radix, and the next character is not one |
| JsNumber.ParseInt | server.js:87-107 | `parseInt` with no radix yields a number only when a decimal digit follows the leading white space and the optional sign; a negative number needs a minus sign |
| JsNumber.ParseIntOfIntToString | server.js:106-107 | `parseInt` reads back the decimal text of any integer, whatever non-digit text follows it (`"5x"` gives 5). The one exception is `x` or `X` after a lone `0`, which starts a hexadecimal prefix |
| JsNumber.ParseIntOfNoDigits | server.js:87-90 | Text that starts with neither white space, a sign nor a digit parses to NaN |
| JsNumber.ParseFloatOfIntToString | server.js:101 | `parseFloat` of the decimal text of an integer is that integer |
| JsNumber.ParseFloatOfTenths | server.js:101 | `parseFloat("w.t")` is `w + t/10`, as in `minRating=4.5` |
| JsNumber.ParseFloat | server.js:99-102 | `parseFloat` yields an infinity exactly when `Infinity` follows the leading white space and the optional sign, and a negative one exactly when that sign is a minus |
| JsNumber.ParseFloatIsNaN | server.js:99-102 | `parseFloat` is NaN exactly when, after the white space and the optional sign, the text starts with neither a digit, nor a point followed by a digit, nor `Infinity` (so `"-abc"`, `" abc"` and `".x"` are NaN and `".5"` is not) |
| JsNumber.Negate | server.js:101 | Unary minus on a parsed number: a finite value changes sign, an infinity flips, and NaN stays NaN |
| JsNumber.ParseFloatOfMinus | server.js:101 | A leading minus negates the value of the text after it, when that text does not itself start with white space or a sign (`"- 5"` is NaN) |
| JsNumber.CeilQuotient | server.js:118 | `Math.ceil(a / b)` is the least integer `r` with `a <= r * b` for positive `b` (and the mirror bound for negative `b`) |
| JsArray.Slice | server.js:111 | `slice(start, end)` with `0 <= start <= end` is the run from `start` to `end`, both clamped to the length |
| JsArray.SliceIsSegment | server.js:111 | Whatever its bounds, a slice is one contiguous run of the array |
| JsArray.SubsequenceTransitive | server.js:59-103 | A subsequence of a subsequence is a subsequence, so successive filters keep the original order |
| JsArray.Distinct | server.js:258 | The Set spread holds exactly the values of the array, each once |
| JsArray.DistinctKeepsFirstOccurrenceOrder | server.js:258 | The Set spread lists values in the order of their first occurrence |
| Listings.MatchesSearch | server.js:67-72 | The search callback: the lower-cased term occurs in the lower-cased title, location, description or category |
| Listings.ExactOccurrenceMatchesSearch | server.js:65-73 | A term found verbatim in one of the four fields matches the search, whatever its case |
| Listings.Admits | server.js:65-103 | The six callbacks: the search predicate, exact category, case-insensitive location, and `price >= parseInt(minPrice)`, `price <= parseInt(maxPrice)`, `rating >= parseFloat(minRating)`, where every comparison with NaN is false |
| Listings.Keep | server.js:67-102 | `filter` keeps, in order, exactly the records its callback admits |
| Listings.KeepCounts | server.js:67-102 | `filter` keeps every occurrence of an admitted record, as many times as the input holds it, and no other record |
| Listings.Where | server.js:59-103 | A chain of filters keeps, in order, exactly the records every callback admits |
| Listings.WhereCounts | server.js:59-103 | A chain keeps every record all its callbacks admit as many times as the input holds it, and no other record |
| Listings.WhereNoFilter | server.js:59 | With no filter the working list is the copied collection |
| Listings.KeepAfterWhere | server.js:65-103 | One more `filter` on the working list is the chain with that callback appended |
| Listings.WhereStronger | server.js:65-103 | A chain whose callbacks admit less keeps a subsequence of what a weaker chain keeps |
| PropertyQuery.Selected | server.js:65-103 | The reference selection: the records that every truthy parameter's callback admits, in collection order |
| PropertyQuery.SelectedCounts | server.js:65-117 | The selection holds each record that satisfies the query as many times as the collection does, and no other record, so `totalItems` counts duplicates |
| PropertyQuery.StepAdmits | server.js:65-103 | One `if (x)` step adds exactly that parameter's condition to what the chain admits |
| PropertyQuery.StepFilters | server.js:65-103 | Filtering by a chain one step longer is one more `filter` on the working list when the parameter is truthy, and no change otherwise |
| PropertyQuery.Filtered | server.js:59-103 | The working list after the six `if (x) properties = properties.filter(…)` steps, in the handler's order |
| PropertyQuery.FilteredIsSelected | server.js:59-103 | The working list after all six steps is the reference selection |
| PropertyQuery.ActiveFiltersAdmit | server.js:65-103 | The handler's chain of callbacks admits a record exactly when the record satisfies the reference selection |
| PropertyQuery.ChainIsSelected | server.js:59-103 | Running the chain over the collection gives the reference selection |
| PropertyQuery.FilterProperties | server.js:59-103 | Reassigning the working list once per truthy parameter leaves exactly the reference selection |
| PropertyQuery.ListProperties | server.js:56-131 | The page is `slice((page-1)*limit, page*limit)` of the selection, and every returned record satisfies every supplied filter. The metadata is the page, `ceil(n/limit)`, `n`, the limit, `page*limit < n` and `page > 1`, and the filter echo is `Echo(q)` |
| PropertyQuery.NoFilterSelectsAll | server.js:65-103 | With no truthy filter parameter every record is kept, in order |
| PropertyQuery.MoreFiltersNarrow | server.js:65-103 | Supplying more filters gives a subsequence of the previous result, so `totalItems` never grows |
| PropertyQuery.MalformedBoundRejects | server.js:87-103 | A truthy bound that parses to NaN rejects every record |
| PropertyQuery.MalformedBoundSelectsNothing | server.js:87-103 | A truthy price or rating bound that parses to NaN empties the result |
| PropertyQuery.InvalidBoundsSelectNothing | server.js:87-97 | `minPrice=invalid` or `maxPrice=also-invalid` empties the result |
| PropertyQuery.EchoDeterminesSelection | server.js:124-131 | Two queries with the same filter echo select the same records |
| PropertyQuery.Echo | server.js:124-131 | The `filters` object: each of the six parameters as `raw \|\| null` |
| PropertyQuery.OrNull | server.js:124-131 | The echo of a parameter is the raw text when truthy and `null` otherwise |
| PropertyQuery.IntOr | server.js:106-107 | `n \|\| fallback` keeps a parsed integer unless it is NaN or 0 |
| PropertyQuery.PageNumber | server.js:106 | The page number is never 0 |
| PropertyQuery.PageSize | server.js:107 | The page size is never 0 |
| PropertyQuery.DecimalPageParameters | server.js:106-107 | A decimal `page` or `limit` is taken as written, except that 0 gives 1 or 10 |
| PropertyQuery.NonNumericPageParameters | server.js:106-107 | An absent, empty or non-numeric `page` or `limit` gives 1 and 10: whenever no decimal digit follows the white space and the optional sign (`""`, `"abc"`, `"-x"`, `" x"`) |
| PropertyQuery.PageWindow | server.js:108-111 | For a positive page and limit, the page is `items[start..min(end, n)]`. It has at most `limit` records and is empty exactly when `start >= n` |
| PropertyQuery.ItemOnItsPage | server.js:108-111 | For a positive limit, record `i` appears on page `i / limit + 1` at position `i % limit` |
| PropertyQuery.PageCount | server.js:118-121 | For a positive page and limit, `totalPages` is 0 exactly when nothing matched, and `hasNextPage` holds exactly when the page is before the last |
| Endpoints.Status | server.js:148-237 | A missing query is status 400; an unknown id is status 404 |
| Endpoints.Message | server.js:151-236 | The messages are "Search query is required" and "Property not found" |
| Endpoints.SearchProperties | server.js:146-169 | A missing or empty `q` fails with "Search query is required". Otherwise the result is every search match in order, unpaginated, with the raw `q` and the match count |
| Endpoints.SearchAgreesWithListing | server.js:157-162 | The dedicated search keeps what the listing keeps for `search` alone |
| Endpoints.PropertiesByCategory | server.js:183-190 | Exactly the records of that category, in order, with the parameter and the count |
| Endpoints.CategoryAgreesWithListing | server.js:184 | The category listing keeps what the listing keeps for `category` alone |
| Endpoints.PropertiesByLocation | server.js:205-215 | Exactly the records whose location contains the parameter case-insensitively, with the raw parameter and the count |
| Endpoints.LocationAgreesWithListing | server.js:206-209 | The location listing keeps what the listing keeps for `location` alone |
| Endpoints.KeepIsSelected | server.js:157-209 | A single `filter` whose callback matches a one-parameter query gives that query's selection |
| Endpoints.FirstWithId | server.js:231 | `find` stops at the first record with the id; no earlier record has it |
| Endpoints.PropertyById | server.js:231-238 | The first record with the id, or "Property not found" exactly when no record has it |
| Endpoints.LookupFindsEachRecord | server.js:231 | When ids are unique, looking up any record's id finds that record |
| Endpoints.CategoryColumn | server.js:258 | `map(p => p.category)` keeps the length and takes each record's category |
| Endpoints.Categories | server.js:258 | Each category present in the collection is listed, exactly once, and nothing else |
| Endpoints.CategoriesInFirstOccurrenceOrder | server.js:258 | Categories are listed in the order of their first occurrence in the collection |

## Left out

- Loading `data/properties.json` (server.js:22-31) is file I/O and JSON parsing. The collection is a parameter. A failed load gives the empty collection, which is one of the inputs the model covers.
- Express set-up, the middleware, `app.listen`, the root and health endpoints, the 404 handler and the error handler are transport with no query logic (server.js:1-53, 274-302).
- The `500 Internal server error` paths are left out. They arise from records or parameters of the wrong type, such as a non-string title or an array-valued query parameter. They also arise from a data file that parses but holds no `properties` array, such as `{}`, `null` or `{"properties": null}`: then the spread, `filter`, `find` and `map` at server.js:59, 157, 184, 207, 231 and 258 throw. Here the collection is always a sequence of records, and every text field of a record and every parameter is a string.
- The `success` flags of the response bodies are left out: they are constant per branch.
- JsString.ToLowerCase: lower-cases ASCII letters only, not the full Unicode case mapping of `toLowerCase`.
- JsNumber.ParseInt: integers are unbounded, so digit strings beyond 2^53 do not lose precision as JavaScript numbers do.
- JsNumber.ParseFloat: the value is exact, so IEEE rounding, overflow to Infinity and `-0` are not modelled.
- Listings.Listing: prices and ratings are exact reals rather than IEEE doubles.
- The remaining record fields (coordinates, images, amenities, host, distance, dates) are carried but never inspected, as in the handlers.
- Route order, for example `/search` being matched before `/:id`, belongs to Express routing and is not modelled.
