/**
 * The search handler `POST /restaurants/search`: the term is lower-cased;
 * an empty term redirects to the listing; otherwise the store returns at
 * most nine restaurants whose lower-cased name is `LIKE '%term%'`, and an
 * empty answer redirects as well.
 */
module Search {
  import opened SqlPattern

  /** A row of the `restaurants` table. */
  datatype Restaurant = Restaurant(
    id: nat,
    name: string,
    location: string,
    description: string,
    cuisine: string,
    url: string,
    ownerId: nat)

  /** The `.limit(9)` on the search query. */
  const SearchLimit: nat := 9

  /** The pattern `%${searchName}%` handed to `LIKE`. */
  function Pattern(term: string): string {
    "%" + term + "%"
  }

  /** `LOWER("name") LIKE pattern` for one row. */
  predicate NameMatches(r: Restaurant, pattern: string) {
    Like(Lower(r.name), pattern)
  }

  /** `m` is `rs` with some rows dropped and the rest kept in order. */
  predicate IsSubsequence(m: seq<Restaurant>, rs: seq<Restaurant>) {
    if m == [] then true
    else if rs == [] then false
    else (m[0] == rs[0] && IsSubsequence(m[1..], rs[1..])) || IsSubsequence(m, rs[1..])
  }

  /** The rows that satisfy the `where` clause, in the order the store
      yields them. */
  function Matching(rs: seq<Restaurant>, pattern: string): (m: seq<Restaurant>)
    ensures |m| <= |rs|
    ensures forall x :: x in m <==> x in rs && NameMatches(x, pattern)
  {
    if rs == [] then []
    else (if NameMatches(rs[0], pattern) then [rs[0]] else []) + Matching(rs[1..], pattern)
  }

  /** The filter returns each matching row exactly as often as the input
      holds it, and no other row. */
  lemma {:induction false} MatchingCounts(rs: seq<Restaurant>, pattern: string)
    ensures forall x :: multiset(Matching(rs, pattern))[x] ==
              if NameMatches(x, pattern) then multiset(rs)[x] else 0
  {
    if rs != [] {
      MatchingCounts(rs[1..], pattern);
      var head := if NameMatches(rs[0], pattern) then [rs[0]] else [];
      assert Matching(rs, pattern) == head + Matching(rs[1..], pattern);
      assert rs == [rs[0]] + rs[1..];
      assert multiset(rs) == multiset([rs[0]]) + multiset(rs[1..]);
      assert multiset(Matching(rs, pattern)) == multiset(head) + multiset(Matching(rs[1..], pattern));
    }
  }

  /** The filter keeps the rows in input order. */
  lemma {:induction false} MatchingKeepsOrder(rs: seq<Restaurant>, pattern: string)
    ensures IsSubsequence(Matching(rs, pattern), rs)
  {
    if rs != [] {
      MatchingKeepsOrder(rs[1..], pattern);
      var rest := Matching(rs[1..], pattern);
      if NameMatches(rs[0], pattern) {
        var m := [rs[0]] + rest;
        assert Matching(rs, pattern) == m;
        assert m[0] == rs[0] && m[1..] == rest;
      } else {
        assert Matching(rs, pattern) == rest;
      }
    }
  }

  /** SQL `LIMIT n`: the first n rows, or all of them. */
  function Limit(rows: seq<Restaurant>, n: nat): (r: seq<Restaurant>)
    ensures r <= rows && |r| == if |rows| <= n then |rows| else n
  {
    if |rows| <= n then rows else rows[..n]
  }

  datatype SearchOutcome = RedirectToListing | Results(restaurants: seq<Restaurant>)

  /** The handler's decision for a search term against the stored rows. */
  function Find(term: string, rs: seq<Restaurant>): (r: SearchOutcome)
    ensures r.RedirectToListing? <==> term == [] || Matching(rs, Pattern(Lower(term))) == []
    ensures r.Results? ==> 1 <= |r.restaurants| <= SearchLimit
    ensures r.Results? ==> r.restaurants <= Matching(rs, Pattern(Lower(term)))
    ensures r.Results? ==>
              |r.restaurants| == (if |Matching(rs, Pattern(Lower(term)))| <= SearchLimit
                                  then |Matching(rs, Pattern(Lower(term)))| else SearchLimit)
    ensures r.Results? ==> forall x :: x in r.restaurants ==> x in rs && NameMatches(x, Pattern(Lower(term)))
    ensures r.Results? && |Matching(rs, Pattern(Lower(term)))| <= SearchLimit ==>
              forall x :: x in rs && NameMatches(x, Pattern(Lower(term))) ==> x in r.restaurants
  {
    var searchName := Lower(term);
    if |searchName| == 0 then RedirectToListing
    else
      var data := Limit(Matching(rs, Pattern(searchName)), SearchLimit);
      if |data| > 0 then Results(data) else RedirectToListing
  }

  /** For a term without `%`, `_` or `\`, the search is a case-insensitive
      substring search: every result's name contains the term, and the
      search redirects only when the term is empty or no name contains it. */
  lemma FindIsSubstringSearch(term: string, rs: seq<Restaurant>)
    requires Literal(Lower(term))
    ensures Find(term, rs).Results? ==>
              forall x :: x in Find(term, rs).restaurants ==> Contains(Lower(x.name), Lower(term))
    ensures Find(term, rs).RedirectToListing? <==>
              term == [] || forall x :: x in rs ==> !Contains(Lower(x.name), Lower(term))
  {
    var t := Lower(term);
    forall x: Restaurant
      ensures NameMatches(x, Pattern(t)) <==> Contains(Lower(x.name), t)
    {
      SubstringPattern(Lower(x.name), t);
    }
    if Matching(rs, Pattern(t)) != [] {
      assert Matching(rs, Pattern(t))[0] in Matching(rs, Pattern(t));
    }
  }

  /** Upper and lower case in the term make no difference. */
  lemma FindIgnoresTermCase(term: string, rs: seq<Restaurant>)
    ensures Find(Lower(term), rs) == Find(term, rs)
  {
    LowerIdempotent(term);
  }
}
