# Restaurant listing, search and owner gate — a Dafny model

This project models the decision logic in the restaurant router of a
restaurant directory (`src/server/routes/restaurants.js`). It covers four parts:

- **Paging** (`GET /restaurants/page/:id`). Module `Pagination`. From the ordered
  restaurant list and a page number it builds the render context: the title
  `gRestaurants Page: <p+1>`, `nextPage`/`prevPage`, the page labels
  `1 .. floor(n/9)+1` (built by a loop), the nine-restaurant window (a JavaScript
  `slice`), and the `next`/`prev` flags set by a three-way branch. `ListPage` is
  that handler body as a method with its loop. `PageSpec` states the same view
  field by field, and the lemmas are stated over `PageSpec`.
- **Owner/admin gate** (edit form and delete). Module `Authorization`. The
  request goes ahead when the restaurant id equals the user's `ownerID` or the
  user is an administrator. Otherwise the handler redirects to the listing
  without a query. Module `Decimal` models `parseInt` on digit strings and the
  printing of numbers in templates.
- **Location** (`POST /restaurants/new`). Module `Location`. It holds the stored
  string `street, city, state` and the split that reads the three parts back.
- **Search** (`POST /restaurants/search`). Modules `SqlPattern` and `Search`.
  The term is lower-cased. An empty term redirects. Otherwise the rows whose
  `LOWER(name) LIKE '%term%'` are read, at most nine of them. An empty answer
  redirects too. `SqlPattern` models `LIKE` with `%` and `_` and proves that,
  for a term without wildcards, this is substring search.

Inputs the model takes as parameters:

- The restaurant list that `knex('restaurants').select('*')` returns is a
  `seq<T>`.
- The rows the search query scans are a `seq<Restaurant>`, in the store's order.
- The acting user from the request context is a `SessionUser(ownerID, admin)`.
- `ownerID` is taken to be a number, or absent (`undefined`) for a user who
  owns no restaurant. The delete handler parses the id with `parseInt` before
  it compares with `===`.

Behaviour of the code worth knowing:

- A search term made only of spaces is not treated as empty. The code checks
  only for length 0.
- The page count is `floor(n/9)`, as written. With `n` an exact multiple of 9,
  the label list ends in an empty page (`ExactMultipleEndsInEmptyPage`).
- Search results have no defined order. The model keeps the order of its input.

## Model

| member | source | states |
|---|---|---|
| `Decimal.Show` | src/server/routes/restaurants.js:29 | a printed page number is a non-empty string of digits with no leading zero |
| `Decimal.ParseInt` | src/server/routes/restaurants.js:88 | `parseInt` is NaN exactly when the string does not start with a digit |
| `Decimal.ParseIntShow` | src/server/routes/restaurants.js:29 | reading back a printed number gives the same number |
| `Decimal.ParseIntLeadingZeros` | src/server/routes/restaurants.js:88 | `parseInt` reads the leading digits only: a number written with any count of leading zeros, then a non-digit suffix or nothing, parses to that number (`"03"` and `"3abc"` give 3) |
| `Pagination.PageCount` | src/server/routes/restaurants.js:22 | the page count `p` is the number of full pages: `9p <= n < 9(p+1)` |
| `Pagination.Labels` | src/server/routes/restaurants.js:23-27 | the label list has `pages + 1` entries, and entry `i` is `i + 1` |
| `Pagination.Slice` | src/server/routes/restaurants.js:33 | `slice` clamps to the length: its length is `min(end, n) - start` or 0, and element `i` is `s[start + i]` |
| `Pagination.Window` | src/server/routes/restaurants.js:33 | a page holds at most 9 restaurants; it is empty iff `9p >= n`; it is full when `9p + 9 <= n`; item `i` is restaurant `9p + i` |
| `Pagination.ListPage` | src/server/routes/restaurants.js:21-42 | the handler equals `PageSpec`; the labels are `1..n/9+1`; the window is `slice(9p, 9p+9)`; `nextPage = p+1`, `prevPage = p-1`; the title parses back to `p+1`; `prev` iff `p > 0`; `next` iff `p == 0 or p < n/9`; both iff `0 < p < n/9`; at least one is set |
| `Pagination.WindowsTile` | src/server/routes/restaurants.js:33 | pages `0..k` laid end to end are exactly the first `min(9(k+1), n)` restaurants, so none is skipped or repeated |
| `Pagination.EveryRestaurantHasAPage` | src/server/routes/restaurants.js:22-33 | restaurant `j` is item `j % 9` of page `j / 9`, and that page has label `j/9 + 1` in the label list |
| `Pagination.WindowsDisjoint` | src/server/routes/restaurants.js:33 | with distinct restaurants, two different pages share no restaurant |
| `Pagination.FirstPageAlwaysNext` | src/server/routes/restaurants.js:35-36 | page 0 shows `next` and not `prev`, even when all restaurants fit on it; the page it leads to is then empty |
| `Pagination.ExactMultipleEndsInEmptyPage` | src/server/routes/restaurants.js:22-42 | with `n = 9k`, `k >= 1`: there are `k+1` labels; page `k` is empty and shows `prev` only; page `k-1` is full and shows `next` |
| `Pagination.LastPages` | src/server/routes/restaurants.js:33-42 | page `n/9` holds the `n % 9` leftover restaurants; every later page is empty; from page `n/9` on (`p > 0`), only `prev` is shown |
| `Pagination.TwentyRestaurants` | src/server/routes/restaurants.js:22-42 | for 20 restaurants: page 0 shows rows 0-8 with `next` only; page 2 shows rows 18-19 with `prev` only; the labels are `[1, 2, 3]` |
| `Authorization.EditGateAsWritten` | src/server/routes/restaurants.js:65-68 | as written, the edit-form check lets a user through iff the user is an administrator: the string parameter never `===` the `ownerID`, a number or undefined |
| `Authorization.Guard` | src/server/routes/restaurants.js:88-92 | a request goes ahead iff the user is an administrator or has an `ownerID` that equals `parseInt(id)`; otherwise it redirects |
| `Authorization.GuardMatchesOwnership` | src/server/routes/restaurants.js:88-92 | for a parameter spelling an id in decimal, with or without leading zeros, the guard passes iff the user owns that restaurant or is an administrator |
| `Authorization.AdminProceedsOthersRedirected` | src/server/routes/restaurants.js:87-122 | an administrator always proceeds; a non-administrator whose `ownerID` is another id or absent is redirected to the listing without a query |
| `Authorization.NoOwnerOnlyAdmin` | src/server/routes/restaurants.js:88-92 | a user who owns no restaurant (`ownerID` undefined) proceeds, whatever the parameter, iff they are an administrator |
| `Authorization.EditGateAsWrittenRejectsOwner` | src/server/routes/restaurants.js:65-68 | the owner of restaurant 3 (not an admin) is refused the edit form as written, and admitted by the corrected check |
| `Location.Compose` | src/server/routes/restaurants.js:246 | the location starts with the street and ends with the state; its length is the sum of the three parts plus two separators |
| `Location.DecomposeCompose` | src/server/routes/restaurants.js:246 | when street and city contain no comma, the three parts are read back unchanged from the location |
| `Location.ComposeAmbiguous` | src/server/routes/restaurants.js:246 | with a comma in the street, two different addresses give the same location string |
| `SqlPattern.ToLower` | src/server/routes/restaurants.js:259 | ASCII upper-case letters map to their lower-case letter; every other character is unchanged |
| `SqlPattern.Lower` | src/server/routes/restaurants.js:259 | lower-casing keeps the length and maps each character by `ToLower` |
| `SqlPattern.LowerIdempotent` | src/server/routes/restaurants.js:259-263 | lower-casing an already lower-cased string changes nothing |
| `SqlPattern.Like` | src/server/routes/restaurants.js:263 | `LIKE` matching: `%` matches any run, `_` exactly one character, any other character itself, with no escape character; a pattern without `%` matches only strings of its own length, and one without `%` or `_` matches exactly itself |
| `SqlPattern.UnderscoreMatchesAnyChar` | src/server/routes/restaurants.js:263 | a leading `_` matches any one character and never the empty string |
| `SqlPattern.PercentMatchesAll` | src/server/routes/restaurants.js:263 | the pattern `%` matches every string |
| `SqlPattern.SubstringPattern` | src/server/routes/restaurants.js:263 | for a term without `%`, `_` or `\`, `s LIKE '%term%'` holds iff the term occurs in `s` |
| `Search.Matching` | src/server/routes/restaurants.js:263 | the filter keeps exactly the rows whose lower-cased name matches the pattern, and no more rows than it was given |
| `Search.MatchingCounts` | src/server/routes/restaurants.js:263 | the filter returns each matching row as often as it occurs in the input, and no other row |
| `Search.MatchingKeepsOrder` | src/server/routes/restaurants.js:263 | the filter's rows are a subsequence of the input: they keep the input order |
| `Search.Limit` | src/server/routes/restaurants.js:263 | `LIMIT n` returns a prefix of the rows, of length `min(n, rows)` |
| `Search.Find` | src/server/routes/restaurants.js:259-270 | redirect iff the term is empty or nothing matches; otherwise 1 to 9 results; they are the first matches in store order, all matching; when at most 9 rows match, every match is returned |
| `Search.FindIsSubstringSearch` | src/server/routes/restaurants.js:259-270 | for a literal term: every result's lower-cased name contains the lower-cased term; the search redirects iff the term is empty or no name contains it |
| `Search.FindIgnoresTermCase` | src/server/routes/restaurants.js:259-263 | searching for a term and for its lower-cased form gives the same outcome |

## Findings

| source | as written | input that shows it | evidently intended | confidence | as-written member | corrected member |
|---|---|---|---|---|---|---|
| src/server/routes/restaurants.js:68 | `restaurantID === ownerID` compares the raw string route parameter with `ownerID`, a number or undefined. Strict equality of a string with either is always false, so only administrators reach the edit form. | a non-admin user with `ownerID` 3 requests `/restaurants/3/edit` | parse the parameter first, as the delete handler does on line 88, and compare numbers | medium, not executed: `ownerID` is set in `verifyUserExists`, which is not part of this model; its numeric type is inferred from the delete handler | `Authorization.EditGateAsWritten` | `Authorization.Guard` |

## Left out

- HTTP transport is not modelled. This covers Express routing, `res.render`, `res.redirect`, `res.status().json/send`, template names, and the handlers `GET /` and `GET /new`, which only redirect or render.
- The knex queries are not modelled: the listing select, the joins (lines 69-73, 160-164), the update (134-143) and the deletes (93-96, 192-194). They are calls into a query builder and a database engine. The model takes the listing and the searched rows as input sequences, and the guard stops at its decision to query or redirect.
- `queries.getOne`, `submitReview`, `getNewReview`, `newReview`, `postNewRest` and `verifyUserExists` are defined in files that are not part of this model. The review handlers and the restaurant update handler consist of calls to them or to knex, so they are left out too.
- The delete handler reads `renderObj` on line 89 without declaring it, so as written it throws before the check. The model gives the delete guard the request's user, as the edit handler does on lines 64-67.
- The review-delete handler tests `.length` on a row count (line 196). That handler is outside the modelled core.
- SqlPattern.Like does not model the backslash escape character of `LIKE`. `Literal` excludes backslashes, so the substring result is exact for the terms it admits.
- Decimal.ParseInt reads only a leading run of ASCII digits. It does not model the leading whitespace, signs or `0x` prefixes that `parseInt` accepts. It also yields exact integers, while `parseInt` rounds a value of more than 2^53 to the nearest double, so for parameters of 16 digits or more the model can differ from JavaScript.
- Decimal.Show prints exact integers in decimal. JavaScript numbers are doubles: a template prints `1e+21` and larger in exponent notation, so the model's all-digits result matches JavaScript only below 1e21.
- Pagination.ListPage computes `pageNum + 1`, `pageNum - 1` and the title with exact integers. In JavaScript these are doubles, which round for `pageNum >= 2^53`, and the title switches to exponent notation (reading back as 1) from 1e21. The model matches the source below 2^53. Page numbers enter `ListPage` as a `nat`, so negative or non-numeric pages are not modelled.
- Authorization.Guard compares exact integers. Because `parseInt` rounds past 2^53, a long parameter such as `9007199254740993` equals the `ownerID` 9007199254740992 in JavaScript but not in the model. The two agree for ids below 2^53.
- SqlPattern.ToLower covers ASCII letters only. Beyond ASCII, JavaScript `toLowerCase` and SQL `LOWER` differ, and neither is modelled.
- Pagination.WindowsTile and Pagination.WindowsDisjoint are about one list. The listing query (lines 18-19) has no `ORDER BY` and runs again on every page request, so inserts, deletes or a change in the store's order between requests can shift the windows. The source promises nothing across requests, and neither does the model.
- Search.Find keeps the order of its input rows. The query has no `ORDER BY`, so which nine rows the store returns when more match is not determined by the source.
- Location.Compose takes three strings. A missing or non-string body field is not modelled; the template prints it as the text `undefined` (or the value's string form) without failing.
- A missing `search` field in the request body (where `toLowerCase` would throw) is not modelled.
- The average rating and rating bounds are not part of this file: `avg_review` is only selected.
