/** Splitting a feed into pages of `PostsPerPage` items, the way every feed
    view hands its posts to the framework's paginator and asks for the page
    named by the `page` query parameter. */
module Paginator {

  import opened Models

  /** The page size shared by all feeds. */
  const PostsPerPage: nat := 10

  /** One page of a feed: its items, its 1-based number and the page count. */
  datatype Page<T> = Page(items: seq<T>, number: nat, numPages: nat)

  /** Number of pages for `count` items; an empty feed still has one (empty)
      page. */
  function NumPages(count: nat): (n: nat)
    ensures 1 <= n
    ensures count == 0 ==> n == 1
    ensures count <= n * PostsPerPage
    ensures count == 0 || (n - 1) * PostsPerPage < count
  {
    if count == 0 then 1 else (count + PostsPerPage - 1) / PostsPerPage
  }

  /** The page actually served for the requested page number: a missing or
      non-integer parameter (`None`) gives the first page, and a number out of
      range gives the last page. */
  function ResolvePage(count: nat, requested: Option<int>): (n: nat)
    ensures 1 <= n <= NumPages(count)
    ensures requested.None? ==> n == 1
    ensures requested.Some? && 1 <= requested.value <= NumPages(count) ==> n == requested.value
    ensures requested.Some? && !(1 <= requested.value <= NumPages(count)) ==> n == NumPages(count)
  {
    match requested
    case None => 1
    case Some(k) => if 1 <= k <= NumPages(count) then k else NumPages(count)
  }

  function Min(a: int, b: int): int {
    if a <= b then a else b
  }

  /** Items of page `n`: positions `(n-1)*PostsPerPage` up to, but excluding,
      `n*PostsPerPage` or the end of the feed. */
  function PageItems<T>(items: seq<T>, n: nat): (p: seq<T>)
    requires 1 <= n <= NumPages(|items|)
    ensures |p| <= PostsPerPage
    ensures n < NumPages(|items|) ==> |p| == PostsPerPage
    ensures n == NumPages(|items|) ==> |p| == |items| - (n - 1) * PostsPerPage
    ensures forall i :: 0 <= i < |p| ==> p[i] == items[(n - 1) * PostsPerPage + i]
  {
    items[(n - 1) * PostsPerPage .. Min(n * PostsPerPage, |items|)]
  }

  /** `pg` is what the paginator serves for `requested` over `feed`: the
      resolved page number, and at that page the next (at most)
      `PostsPerPage` items of the feed from position
      `(number-1)*PostsPerPage` on. */
  predicate ShowsPage<T(==)>(pg: Page<T>, feed: seq<T>, requested: Option<int>) {
    && pg.numPages == NumPages(|feed|)
    && pg.number == ResolvePage(|feed|, requested)
    && |pg.items| == Min(PostsPerPage, |feed| - (pg.number - 1) * PostsPerPage)
    && forall i :: 0 <= i < |pg.items| ==> pg.items[i] == feed[(pg.number - 1) * PostsPerPage + i]
  }

  /** The page object a feed view renders for the requested page number. */
  function Paginate<T(==)>(items: seq<T>, requested: Option<int>): (p: Page<T>)
    ensures ShowsPage(p, items, requested)
    ensures p.numPages == NumPages(|items|)
    ensures 1 <= p.number <= p.numPages
    ensures requested.Some? && 1 <= requested.value <= p.numPages ==> p.number == requested.value
    ensures |p.items| <= PostsPerPage
    ensures p.number < p.numPages ==> |p.items| == PostsPerPage
    ensures p.number == p.numPages ==> |p.items| == |items| - (p.number - 1) * PostsPerPage
    ensures forall i :: 0 <= i < |p.items| ==> p.items[i] == items[(p.number - 1) * PostsPerPage + i]
  {
    var n := ResolvePage(|items|, requested);
    Page(PageItems(items, n), n, NumPages(|items|))
  }

  /** Pages 1 to `k` laid end to end. */
  function PagesUpTo<T>(items: seq<T>, k: nat): seq<T>
    requires k <= NumPages(|items|)
  {
    if k == 0 then [] else PagesUpTo(items, k - 1) + PageItems(items, k)
  }

  /** The first `k` pages are exactly the first `k*PostsPerPage` items (or
      all of them). */
  lemma {:induction false} PagesUpToIsPrefix<T>(items: seq<T>, k: nat)
    requires k <= NumPages(|items|)
    ensures PagesUpTo(items, k) == items[..Min(k * PostsPerPage, |items|)]
  {
    if k > 0 {
      PagesUpToIsPrefix(items, k - 1);
      var lo := (k - 1) * PostsPerPage;
      assert lo <= |items| by {
        if |items| > 0 { assert (NumPages(|items|) - 1) * PostsPerPage < |items|; }
      }
      assert Min((k - 1) * PostsPerPage, |items|) == lo;
      assert items[..lo] + items[lo .. Min(k * PostsPerPage, |items|)] == items[..Min(k * PostsPerPage, |items|)];
    }
  }

  /** Round trip: reading every page in order gives back the whole feed, so
      no item is lost or repeated by pagination. */
  lemma PagesReassembleFeed<T>(items: seq<T>)
    ensures PagesUpTo(items, NumPages(|items|)) == items
  {
    PagesUpToIsPrefix(items, NumPages(|items|));
    assert items[..|items|] == items;
  }

  /** Item `i` of a feed sits on page `i / PostsPerPage + 1`, at position
      `i % PostsPerPage`. */
  lemma ItemPlacement<T>(items: seq<T>, i: nat)
    requires i < |items|
    ensures 1 <= i / PostsPerPage + 1 <= NumPages(|items|)
    ensures i % PostsPerPage < |PageItems(items, i / PostsPerPage + 1)|
    ensures PageItems(items, i / PostsPerPage + 1)[i % PostsPerPage] == items[i]
  {
    var n := i / PostsPerPage + 1;
    assert (n - 1) * PostsPerPage + i % PostsPerPage == i;
  }

  /** Thirteen posts make two pages: ten on the first, three on the second. */
  lemma ThirteenItems<T>(items: seq<T>)
    requires |items| == 13
    ensures NumPages(|items|) == 2
    ensures |Paginate(items, Some(1)).items| == 10
    ensures |Paginate(items, Some(2)).items| == 3
  {
  }
}
