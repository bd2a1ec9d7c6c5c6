/**
 * The pagination shared by the catalog lists, the movie list and the library:
 * OFFSET (page - 1) * per_page LIMIT per_page over an ordered result, the
 * ceiling-division page count and the previous/next links.
 */
module Paging {
  import opened Results
  import opened Http
  import Text

  /** `PaginateResponseSchema`. */
  datatype Page<T> = Page(items: seq<T>, prevPage: Option<string>, nextPage: Option<string>, totalPages: nat, totalItems: nat)

  /** The `ge=1` bound of the `page` and `per_page` query parameters. */
  const BelowOne := HttpError(UnprocessableEntity, "Input should be greater than or equal to 1")

  function CheckPaging(page: int, perPage: int): (r: Option<HttpError>)
    ensures r.None? <==> page >= 1 && perPage >= 1
    ensures r.Some? ==> r.value.status == UnprocessableEntity
  {
    if page < 1 || perPage < 1 then Some(BelowOne) else None
  }

  /** `(total_items + per_page - 1) // per_page`: the least page count that holds every item. */
  function TotalPages(total: nat, perPage: nat): (n: nat)
    requires perPage >= 1
    ensures n * perPage >= total
    ensures n == 0 || (n - 1) * perPage < total
  {
    var n := (total + perPage - 1) / perPage;
    assert n * perPage <= total + perPage - 1 < (n + 1) * perPage;
    n
  }

  function Offset(page: nat, perPage: nat): nat
    requires page >= 1
  {
    (page - 1) * perPage
  }

  function Min(a: int, b: int): int
  {
    if a <= b then a else b
  }

  /** `.offset(offset).limit(per_page)` over the ordered rows. */
  function Window<T>(xs: seq<T>, page: nat, perPage: nat): (r: seq<T>)
    requires page >= 1
    ensures |r| == if Offset(page, perPage) >= |xs| then 0 else Min(perPage, |xs| - Offset(page, perPage))
    ensures forall i :: 0 <= i < |r| ==> Offset(page, perPage) + i < |xs| && r[i] == xs[Offset(page, perPage) + i]
  {
    var o := Offset(page, perPage);
    if o >= |xs| then [] else xs[o..Min(o + perPage, |xs|)]
  }

  function Link(base: string, page: int, perPage: int): string
  {
    base + "?page=" + Text.IntToString(page) + "&per_page=" + Text.IntToString(perPage)
  }

  /** Links to different pages differ, so each page gets its own link. */
  lemma DistinctPagesDistinctLinks(base: string, p: int, q: int, perPage: int)
    requires p != q
    ensures Link(base, p, perPage) != Link(base, q, perPage)
  {
    var a, b := Text.IntToString(p), Text.IntToString(q);
    var pre, tail := base + "?page=", "&per_page=" + Text.IntToString(perPage);
    assert Link(base, p, perPage) == pre + a + tail;
    assert Link(base, q, perPage) == pre + b + tail;
    if Link(base, p, perPage) == Link(base, q, perPage) {
      assert a == (pre + a + tail)[|pre|..|pre| + |a|];
      assert b == (pre + b + tail)[|pre|..|pre| + |b|];
      Text.IntToStringInjective(p, q);
    }
  }

  /** The response fields common to every paginated list. */
  function Paginate<T>(xs: seq<T>, page: nat, perPage: nat, base: string): (p: Page<T>)
    requires page >= 1 && perPage >= 1
    ensures p.items == Window(xs, page, perPage)
    ensures p.totalItems == |xs| && p.totalPages == TotalPages(|xs|, perPage)
    ensures p.prevPage == (if page > 1 then Some(Link(base, page - 1, perPage)) else None)
    ensures p.nextPage == (if page < p.totalPages then Some(Link(base, page + 1, perPage)) else None)
  {
    var total := TotalPages(|xs|, perPage);
    Page(Window(xs, page, perPage),
         if page > 1 then Some(Link(base, page - 1, perPage)) else None,
         if page < total then Some(Link(base, page + 1, perPage)) else None,
         total, |xs|)
  }

  /** A requested page holds items exactly when it is one of the `total_pages` pages. */
  lemma WindowNonEmptyIff<T>(xs: seq<T>, page: nat, perPage: nat)
    requires page >= 1 && perPage >= 1
    ensures |Window(xs, page, perPage)| > 0 <==> page <= TotalPages(|xs|, perPage)
  {
    var n := TotalPages(|xs|, perPage);
    if page <= n {
      MulMonotone(page - 1, n - 1, perPage);
    } else {
      MulMonotone(n, page - 1, perPage);
    }
  }

  lemma MulMonotone(a: nat, b: nat, k: nat)
    requires a <= b
    ensures a * k <= b * k
  {
  }

  /** Item `i` of the ordered rows appears on page `i / per_page + 1` at position `i % per_page`. */
  lemma ItemOnItsPage<T>(xs: seq<T>, perPage: nat, i: nat)
    requires perPage >= 1 && i < |xs|
    ensures var page := i / perPage + 1;
      page <= TotalPages(|xs|, perPage)
      && i % perPage < |Window(xs, page, perPage)|
      && Window(xs, page, perPage)[i % perPage] == xs[i]
  {
    var page := i / perPage + 1;
    assert Offset(page, perPage) == i - i % perPage;
    WindowNonEmptyIff(xs, page, perPage);
  }

  /** Some page lists item `i`. */
  lemma PageOf<T>(xs: seq<T>, perPage: nat, i: nat) returns (page: nat, k: nat)
    requires perPage >= 1 && i < |xs|
    ensures 1 <= page <= TotalPages(|xs|, perPage)
    ensures k < |Window(xs, page, perPage)| && Window(xs, page, perPage)[k] == xs[i]
  {
    ItemOnItsPage(xs, perPage, i);
    page, k := i / perPage + 1, i % perPage;
  }
}
