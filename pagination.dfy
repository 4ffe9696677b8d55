/**
 * The listing handler `GET /restaurants/page/:id`: from the full, ordered
 * restaurant list and a page number it fills the render context with the
 * title, the neighbouring page numbers, the page labels, the nine-item
 * window and the `next`/`prev` navigation flags.
 */
module Pagination {
  import opened Optional
  import opened Decimal

  /** Restaurants shown per page. */
  const PageSize: nat := 9

  const TitlePrefix: string := "gRestaurants Page: "

  /** The fields the handler writes into the render context. `nextPage` and
      `prevPage` are plain integers: page 0 has `prevPage == -1`. */
  datatype PageView<T> = PageView(
    title: string,
    nextPage: int,
    prevPage: int,
    allPages: seq<int>,
    restaurants: seq<T>,
    next: bool,
    prev: bool)

  function Min(a: int, b: int): int {
    if a <= b then a else b
  }

  /** `parseInt(n / 9)`: the number of full pages, rounded down. */
  function PageCount(n: nat): (pages: nat)
    ensures PageSize * pages <= n < PageSize * (pages + 1)
  {
    n / PageSize
  }

  /** The page labels 1, 2, ..., pages + 1. */
  function Labels(pages: nat): (labels: seq<int>)
    ensures |labels| == pages + 1
    ensures forall i :: 0 <= i < |labels| ==> labels[i] == i + 1
  {
    if pages == 0 then [1] else Labels(pages - 1) + [pages + 1]
  }

  /** `Array.prototype.slice(start, end)` for non-negative bounds: both are
      clamped to the length, and an empty range gives the empty list. */
  function Slice<T>(s: seq<T>, start: nat, end: nat): (r: seq<T>)
    ensures |r| == if start < Min(end, |s|) then Min(end, |s|) - start else 0
    ensures forall i :: 0 <= i < |r| ==> start + i < |s| && r[i] == s[start + i]
  {
    var from, to := Min(start, |s|), Min(end, |s|);
    if from < to then s[from..to] else []
  }

  /** The restaurants shown on page `p`. */
  function Window<T>(rs: seq<T>, p: nat): (w: seq<T>)
    ensures |w| <= PageSize
    ensures w == [] <==> PageSize * p >= |rs|
    ensures PageSize * (p + 1) <= |rs| ==> |w| == PageSize
    ensures forall i :: 0 <= i < |w| ==> PageSize * p + i < |rs| && w[i] == rs[PageSize * p + i]
  {
    Slice(rs, PageSize * p, PageSize * (p + 1))
  }

  function Title(p: nat): string {
    TitlePrefix + Show(p + 1)
  }

  /** What the handler renders for page `p`, stated field by field. */
  function PageSpec<T>(rs: seq<T>, p: nat): PageView<T> {
    var pages := PageCount(|rs|);
    PageView(Title(p), p + 1, p - 1, Labels(pages), Window(rs, p), p == 0 || p < pages, p > 0)
  }

  /** The handler body after the restaurants have been read: a loop builds
      the label list, then the fields are set one by one and the flags by a
      three-way branch. Both flags start unset (`undefined`, which the
      template reads as false). */
  method ListPage<T>(restaurants: seq<T>, pageNum: nat) returns (view: PageView<T>)
    ensures view == PageSpec(restaurants, pageNum)
    ensures |view.allPages| == |restaurants| / PageSize + 1
    ensures forall i :: 0 <= i < |view.allPages| ==> view.allPages[i] == i + 1
    ensures view.restaurants == Slice(restaurants, PageSize * pageNum, PageSize * pageNum + PageSize)
    ensures view.nextPage == pageNum + 1 && view.prevPage == pageNum - 1
    ensures |TitlePrefix| < |view.title| && view.title[..|TitlePrefix|] == TitlePrefix
    ensures ParseInt(view.title[|TitlePrefix|..]) == Some(pageNum + 1)
    ensures view.prev <==> pageNum > 0
    ensures view.next <==> pageNum == 0 || pageNum < |restaurants| / PageSize
    ensures view.next && view.prev <==> 0 < pageNum < |restaurants| / PageSize
    ensures view.next || view.prev
  {
    var pages := |restaurants| / PageSize;
    var pageArr: seq<int> := [];
    var i := 0;
    while i <= pages
      invariant 0 <= i <= pages + 1
      invariant |pageArr| == i
      invariant forall k :: 0 <= k < i ==> pageArr[k] == k + 1
    {
      pageArr := pageArr + [i + 1];
      i := i + 1;
    }
    assert pageArr == Labels(pages);

    var title := TitlePrefix + Show(pageNum + 1);
    assert title[|TitlePrefix|..] == Show(pageNum + 1);
    ParseIntShow(pageNum + 1);

    var next, prev := false, false;
    if pageNum == 0 {
      next := true;
    } else if pageNum < pages {
      next := true;
      prev := true;
    } else {
      prev := true;
    }
    view := PageView(title, pageNum + 1, pageNum - 1, pageArr,
                     Slice(restaurants, PageSize * pageNum, PageSize * (pageNum + 1)), next, prev);
  }

  /** Pages 0 to k laid end to end. */
  function PagesUpTo<T>(rs: seq<T>, k: nat): seq<T> {
    if k == 0 then Window(rs, 0) else PagesUpTo(rs, k - 1) + Window(rs, k)
  }

  /** The windows of pages 0..k, concatenated, are exactly the first
      min(9(k+1), n) restaurants: nothing is skipped or shown twice. */
  lemma {:induction false} WindowsTile<T>(rs: seq<T>, k: nat)
    ensures PagesUpTo(rs, k) == rs[..Min(PageSize * (k + 1), |rs|)]
  {
    if k > 0 {
      WindowsTile(rs, k - 1);
      var lo := Min(PageSize * k, |rs|);
      var hi := Min(PageSize * (k + 1), |rs|);
      assert Window(rs, k) == rs[lo..hi];
      assert rs[..hi] == rs[..lo] + rs[lo..hi];
    }
  }

  /** Every restaurant appears on page j / 9 at position j % 9, and that
      page has a label in the label list. */
  lemma EveryRestaurantHasAPage<T>(rs: seq<T>, j: nat)
    requires j < |rs|
    ensures j % PageSize < |Window(rs, j / PageSize)|
    ensures Window(rs, j / PageSize)[j % PageSize] == rs[j]
    ensures j / PageSize < |Labels(PageCount(|rs|))|
    ensures Labels(PageCount(|rs|))[j / PageSize] == j / PageSize + 1
  {
    var p := j / PageSize;
    assert PageSize * p + j % PageSize == j;
  }

  /** With distinct restaurants (ids are unique), two different pages share
      no restaurant. */
  lemma WindowsDisjoint<T>(rs: seq<T>, p: nat, q: nat)
    requires forall i, j :: 0 <= i < j < |rs| ==> rs[i] != rs[j]
    requires p != q
    ensures forall x :: x in Window(rs, p) ==> x !in Window(rs, q)
  {
    var wp, wq := Window(rs, p), Window(rs, q);
    forall i, j | 0 <= i < |wp| && 0 <= j < |wq|
      ensures wp[i] != wq[j]
    {
      var a, b := PageSize * p + i, PageSize * q + j;
      if a < b { assert rs[a] != rs[b]; } else { assert rs[b] != rs[a]; }
    }
  }

  /** Page 0 always offers `next` and never `prev`, even when every
      restaurant fits on it; then the page `next` leads to is empty. */
  lemma FirstPageAlwaysNext<T>(rs: seq<T>)
    ensures PageSpec(rs, 0).next && !PageSpec(rs, 0).prev
    ensures |rs| <= PageSize ==> PageSpec(rs, 1).restaurants == [] && !PageSpec(rs, 1).next
  {
  }

  /** With exactly 9k restaurants the label list has k + 1 entries and its
      last page is empty, showing `prev` but not `next`, while the page
      before it is full and still offers `next`. */
  lemma ExactMultipleEndsInEmptyPage<T>(rs: seq<T>, k: nat)
    requires k >= 1 && |rs| == PageSize * k
    ensures |PageSpec(rs, k).allPages| == k + 1
    ensures PageSpec(rs, k).restaurants == []
    ensures PageSpec(rs, k).prev && !PageSpec(rs, k).next
    ensures |PageSpec(rs, k - 1).restaurants| == PageSize && PageSpec(rs, k - 1).next
  {
    assert PageCount(|rs|) == k;
  }

  /** When n is not a multiple of 9, the last labelled page holds the n % 9
      leftover restaurants and offers no `next`; every page past the last
      label is empty. */
  lemma LastPages<T>(rs: seq<T>, p: nat)
    requires p >= PageCount(|rs|)
    ensures p == PageCount(|rs|) ==> |PageSpec(rs, p).restaurants| == |rs| % PageSize
    ensures p > PageCount(|rs|) ==> PageSpec(rs, p).restaurants == []
    ensures p > 0 ==> !PageSpec(rs, p).next && PageSpec(rs, p).prev
  {
  }

  /** Twenty restaurants: page 0 shows rows 0-8 with only `next`; page 2
      shows rows 18-19 with only `prev`, because 2 is not below 20 / 9. */
  lemma TwentyRestaurants<T>(rs: seq<T>)
    requires |rs| == 20
    ensures PageSpec(rs, 0).restaurants == rs[0..9]
    ensures PageSpec(rs, 0).next && !PageSpec(rs, 0).prev
    ensures PageSpec(rs, 2).restaurants == rs[18..20]
    ensures !PageSpec(rs, 2).next && PageSpec(rs, 2).prev
    ensures PageSpec(rs, 0).allPages == [1, 2, 3]
  {
    assert PageCount(20) == 2;
  }
}
