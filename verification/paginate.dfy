/**
 * lib/paginate.ts: clamped pagination of a list.
 */
module Paginate {
  import opened Wrappers
  import opened Seqs

  const DefaultPerPage: nat := 9

  /** `Math.ceil(n / d)` for a count and a positive page size. */
  function CeilDiv(n: nat, d: nat): (r: nat)
    requires d > 0
    ensures r * d >= n
    ensures r > 0 ==> (r - 1) * d < n
  {
    (n + d - 1) / d
  }

  /** `a <= b` survives multiplying both sides by a natural number. */
  lemma MulMono(a: int, b: int, d: nat)
    requires a <= b
    ensures a * d <= b * d
  {
    assert b * d - a * d == (b - a) * d;
  }

  datatype Page<T> = Page(slice: seq<T>, page: int, perPage: nat, total: nat, totalPages: nat)

  /** `items.slice(start, start + perPage)` for a start inside the list. */
  function Window<T>(items: seq<T>, start: nat, perPage: nat): (r: seq<T>)
    requires start <= |items|
    ensures |r| <= perPage && start + |r| <= |items|
    ensures r == items[start..start + |r|]
    ensures start + perPage <= |items| ==> |r| == perPage
    ensures start + perPage > |items| ==> start + |r| == |items|
  {
    var r := Slice(items, start, start + perPage);
    assert r == if start + perPage <= |items| then items[start..start + perPage] else items[start..];
    r
  }

  /** `Math.max(1, Math.min(page, totalPages))`. */
  function ClampPage(page: int, totalPages: nat): (r: int)
    ensures r >= 1 && (totalPages >= 1 ==> r <= totalPages)
    ensures 1 <= page <= totalPages ==> r == page
  {
    var m := if page < totalPages then page else totalPages;
    if m < 1 then 1 else m
  }

  /** `paginateArray`: the requested page clamped into `1..totalPages` (page 1 when there are none). */
  function PaginateArray<T>(items: seq<T>, page: int, perPage: nat): (r: Page<T>)
    requires perPage > 0
    ensures r.total == |items| && r.perPage == perPage
    ensures r.totalPages * perPage >= |items| && (r.totalPages > 0 ==> (r.totalPages - 1) * perPage < |items|)
    ensures r.page >= 1 && (r.totalPages >= 1 ==> r.page <= r.totalPages)
    ensures 1 <= page <= r.totalPages ==> r.page == page
    ensures 0 <= (r.page - 1) * perPage <= |items|
    ensures |r.slice| <= perPage && (r.page - 1) * perPage + |r.slice| <= |items|
    ensures r.slice == items[(r.page - 1) * perPage..(r.page - 1) * perPage + |r.slice|]
    ensures (r.page - 1) * perPage + perPage <= |items| ==> |r.slice| == perPage
    ensures (r.page - 1) * perPage + perPage > |items| ==> (r.page - 1) * perPage + |r.slice| == |items|
  {
    var total := |items|;
    var totalPages := CeilDiv(total, perPage);
    var current := ClampPage(page, totalPages);
    var start := (current - 1) * perPage;
    assert 0 <= start <= total by {
      MulMono(0, current - 1, perPage);
      if totalPages >= 1 {
        MulMono(current - 1, totalPages - 1, perPage);
      }
    }
    Page(Window(items, start, perPage), current, perPage, total, totalPages)
  }

  /** An empty list gives page 1 of 0 with nothing on it. */
  lemma EmptyPagination<T>(items: seq<T>, page: int, perPage: nat)
    requires perPage > 0 && items == []
    ensures var r := PaginateArray(items, page, perPage);
      r.page == 1 && r.totalPages == 0 && r.slice == []
  {
  }

  /** The pages `from..totalPages`, concatenated. */
  function PagesFrom<T>(items: seq<T>, perPage: nat, from: nat): seq<T>
    requires perPage > 0 && from >= 1
    decreases CeilDiv(|items|, perPage) + 1 - from
  {
    if from > CeilDiv(|items|, perPage) then []
    else PaginateArray(items, from, perPage).slice + PagesFrom(items, perPage, from + 1)
  }

  /** A page before the last holds the items from `(from - 1) * perPage` up to the next page. */
  lemma PageBeforeLast<T>(items: seq<T>, perPage: nat, from: nat)
    requires perPage > 0 && 1 <= from < CeilDiv(|items|, perPage)
    ensures (from - 1) * perPage <= from * perPage <= |items|
    ensures PaginateArray(items, from, perPage).slice == items[(from - 1) * perPage..from * perPage]
  {
    var a := (from - 1) * perPage;
    var b := from * perPage;
    assert b == a + perPage;
    assert b <= |items| by {
      var n := CeilDiv(|items|, perPage);
      MulMono(from, n - 1, perPage);
    }
    var p := PaginateArray(items, from, perPage);
    assert p.slice == items[a..b] by {
      assert p.page == from;
      assert (p.page - 1) * perPage == a;
      assert |p.slice| == perPage;
    }
  }

  /** The last page starts at or before the end, and a full page from there reaches past it. */
  lemma LastPageStart(n: nat, perPage: nat, from: nat)
    requires perPage > 0 && 1 <= from == CeilDiv(n, perPage)
    ensures (from - 1) * perPage <= n <= (from - 1) * perPage + perPage
  {
    assert from * perPage == (from - 1) * perPage + perPage;
  }

  /** The last page holds the items from `(from - 1) * perPage` to the end. */
  lemma LastPage<T>(items: seq<T>, perPage: nat, from: nat)
    requires perPage > 0 && 1 <= from == CeilDiv(|items|, perPage)
    ensures (from - 1) * perPage <= |items|
    ensures PaginateArray(items, from, perPage).slice == items[(from - 1) * perPage..]
  {
    LastPageStart(|items|, perPage, from);
    var a := (from - 1) * perPage;
    var p := PaginateArray(items, from, perPage);
    assert p.page == from;
    assert a + |p.slice| == |items|;
  }

  /** The pages from `from` on hold exactly the items from `(from - 1) * perPage` on. */
  lemma {:induction false} PagesFromSuffix<T>(items: seq<T>, perPage: nat, from: nat)
    requires perPage > 0 && 1 <= from <= CeilDiv(|items|, perPage)
    decreases CeilDiv(|items|, perPage) - from
    ensures (from - 1) * perPage <= |items|
    ensures PagesFrom(items, perPage, from) == items[(from - 1) * perPage..]
  {
    var a := (from - 1) * perPage;
    if from == CeilDiv(|items|, perPage) {
      LastPage(items, perPage, from);
      assert PagesFrom(items, perPage, from) == items[a..] by {
        assert PagesFrom(items, perPage, from + 1) == [];
      }
    } else {
      var b := from * perPage;
      PageBeforeLast(items, perPage, from);
      PagesFromSuffix(items, perPage, from + 1);
      assert (from + 1 - 1) * perPage == b;
      assert PagesFrom(items, perPage, from) == items[a..] by {
        assert PagesFrom(items, perPage, from) == items[a..b] + items[b..];
        assert items[a..] == items[a..b] + items[b..];
      }
    }
  }

  /** Concatenating pages 1 to totalPages gives back the whole list. */
  lemma PagesReconstruct<T>(items: seq<T>, perPage: nat)
    requires perPage > 0
    ensures PagesFrom(items, perPage, 1) == items
  {
    if CeilDiv(|items|, perPage) > 0 {
      PagesFromSuffix(items, perPage, 1);
    }
  }

  /**
   * `paginateArray` called with `parseInt`'s result. A page that is not a
   * number (`None`) propagates through `Math.min` and `Math.max`, and
   * `slice(NaN, NaN)` is empty.
   */
  datatype Shown<T> = Shown(slice: seq<T>, page: Option<int>, totalPages: nat)

  function PaginateParsed<T>(items: seq<T>, page: Option<int>, perPage: nat): (r: Shown<T>)
    requires perPage > 0
    ensures r.totalPages == CeilDiv(|items|, perPage)
    ensures page.None? ==> r.page.None? && r.slice == []
    ensures page.Some? ==> r.page == Some(PaginateArray(items, page.value, perPage).page) &&
                           r.slice == PaginateArray(items, page.value, perPage).slice
  {
    match page
    case None => Shown([], None, CeilDiv(|items|, perPage))
    case Some(p) =>
      var pg := PaginateArray(items, p, perPage);
      Shown(pg.slice, Some(pg.page), pg.totalPages)
  }
}
