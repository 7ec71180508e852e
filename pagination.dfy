/**
 * The page-button list of the paginated route: every page when there are at
 * most five, otherwise the first page, a window of up to three pages around
 * the current one, the last page, and an ellipsis wherever pages are skipped.
 */
module Pagination {
  datatype PageItem = Number(page: int) | Ellipsis

  function Max(a: int, b: int): int { if a < b then b else a }
  function Min(a: int, b: int): int { if a < b then a else b }

  /** Buttons for the pages lo, lo + 1, ..., hi (none when lo > hi). */
  function Run(lo: int, hi: int): (r: seq<PageItem>)
    ensures |r| == if lo <= hi then hi - lo + 1 else 0
    ensures forall k :: 0 <= k < |r| ==> r[k] == Number(lo + k)
    decreases hi - lo
  {
    if lo > hi then [] else [Number(lo)] + Run(lo + 1, hi)
  }

  /** The list `getPageNumbers` builds, for the page count and the current page. */
  function PageNumbers(totalPages: int, page: int): seq<PageItem> {
    if totalPages <= 5 then
      Run(0, totalPages - 1)
    else
      [Number(0)]
      + (if page > 2 then [Ellipsis] else [])
      + Run(Max(1, page - 1), Min(totalPages - 2, page + 1))
      + (if page < totalPages - 3 then [Ellipsis] else [])
      + [Number(totalPages - 1)]
  }

  lemma RunSnoc(lo: int, hi: int)
    requires lo <= hi + 1
    ensures Run(lo, hi) + [Number(hi + 1)] == Run(lo, hi + 1)
  {
    var a, b := Run(lo, hi) + [Number(hi + 1)], Run(lo, hi + 1);
    assert |a| == |b|;
    forall k | 0 <= k < |a| ensures a[k] == b[k] { }
  }

  /** `getPageNumbers`: two counting loops and the conditional pushes. */
  method GetPageNumbers(totalPages: int, page: int) returns (pages: seq<PageItem>)
    ensures pages == PageNumbers(totalPages, page)
  {
    pages := [];
    if totalPages <= 5 {
      var i := 0;
      while i < totalPages
        invariant 0 <= i <= Max(totalPages, 0)
        invariant pages == Run(0, i - 1)
      {
        RunSnoc(0, i - 1);
        pages := pages + [Number(i)];
        i := i + 1;
      }
      assert i == Max(totalPages, 0);
      assert totalPages < 0 ==> Run(0, i - 1) == [] == Run(0, totalPages - 1);
    } else {
      pages := pages + [Number(0)];
      if page > 2 {
        pages := pages + [Ellipsis];
      }
      ghost var prefix := pages;
      var lo, hi := Max(1, page - 1), Min(totalPages - 2, page + 1);
      var i := lo;
      while i <= hi
        invariant lo <= i <= Max(lo, hi + 1)
        invariant pages == prefix + Run(lo, i - 1)
      {
        RunSnoc(lo, i - 1);
        pages := pages + [Number(i)];
        i := i + 1;
      }
      assert Run(lo, i - 1) == Run(lo, hi);
      if page < totalPages - 3 {
        pages := pages + [Ellipsis];
      }
      pages := pages + [Number(totalPages - 1)];
    }
  }

  /** Length of the list when there are more than five pages. */
  function LargeLength(totalPages: int, page: int): int {
    var lo, hi := Max(1, page - 1), Min(totalPages - 2, page + 1);
    2 + (if page > 2 then 1 else 0) + (if lo <= hi then hi - lo + 1 else 0)
      + (if page < totalPages - 3 then 1 else 0)
  }

  /** Entry `i` of the list when there are more than five pages. */
  function LargeItemAt(totalPages: int, page: int, i: int): PageItem {
    var lo, hi := Max(1, page - 1), Min(totalPages - 2, page + 1);
    var lead := if page > 2 then 1 else 0;
    var m := if lo <= hi then hi - lo + 1 else 0;
    if i == 0 then Number(0)
    else if i == LargeLength(totalPages, page) - 1 then Number(totalPages - 1)
    else if i < 1 + lead then Ellipsis
    else if i < 1 + lead + m then Number(lo + i - 1 - lead)
    else Ellipsis
  }

  lemma LargeShape(totalPages: int, page: int)
    requires totalPages > 5
    ensures |PageNumbers(totalPages, page)| == LargeLength(totalPages, page)
    ensures forall i :: 0 <= i < LargeLength(totalPages, page) ==>
      PageNumbers(totalPages, page)[i] == LargeItemAt(totalPages, page, i)
  {
    var lo, hi := Max(1, page - 1), Min(totalPages - 2, page + 1);
    var lead: seq<PageItem> := if page > 2 then [Ellipsis] else [];
    var trail: seq<PageItem> := if page < totalPages - 3 then [Ellipsis] else [];
    var run := Run(lo, hi);
    var items := PageNumbers(totalPages, page);
    assert items == [Number(0)] + lead + run + trail + [Number(totalPages - 1)];
    forall i | 0 <= i < |items| ensures items[i] == LargeItemAt(totalPages, page, i) {
      if 1 + |lead| <= i < 1 + |lead| + |run| {
        assert items[i] == run[i - 1 - |lead|];
      }
    }
  }

  /** With at most five pages the list is every page, in order, and no ellipsis. */
  lemma SmallTotalListsEveryPage(totalPages: int, page: int)
    requires totalPages <= 5
    ensures |PageNumbers(totalPages, page)| == Max(totalPages, 0)
    ensures forall i :: 0 <= i < |PageNumbers(totalPages, page)| ==> PageNumbers(totalPages, page)[i] == Number(i)
    ensures Ellipsis !in PageNumbers(totalPages, page)
  {
  }

  /**
   * With more than five pages the list starts with the first page, ends with
   * the last, and has between three and seven entries.
   */
  lemma LargeTotalEndpoints(totalPages: int, page: int)
    requires totalPages > 5
    ensures var items := PageNumbers(totalPages, page);
      && 3 <= |items| <= 7
      && items[0] == Number(0)
      && items[|items| - 1] == Number(totalPages - 1)
  {
    LargeShape(totalPages, page);
  }

  /**
   * With more than five pages an ellipsis stands right after the first page
   * when `page > 2`, right before the last page when `page < totalPages - 3`,
   * and nowhere else.
   */
  lemma EllipsisPositions(totalPages: int, page: int)
    requires totalPages > 5
    ensures var items := PageNumbers(totalPages, page);
      forall i :: 0 <= i < |items| ==>
        (items[i] == Ellipsis <==> (i == 1 && page > 2) || (i == |items| - 2 && page < totalPages - 3))
  {
    LargeShape(totalPages, page);
  }

  /**
   * For a current page that exists, the leading ellipsis shows exactly when
   * `page > 2` and the trailing one exactly when `page < totalPages - 3`.
   */
  lemma EllipsesAroundCurrentPage(totalPages: int, page: int)
    requires totalPages > 5 && 0 <= page < totalPages
    ensures var items := PageNumbers(totalPages, page);
      && (items[1] == Ellipsis <==> page > 2)
      && (items[|items| - 2] == Ellipsis <==> page < totalPages - 3)
  {
    LargeShape(totalPages, page);
  }

  /**
   * The pages shown: every page when there are at most five; otherwise the
   * first, the last, and those of the current page and its two neighbours
   * that exist. In particular every shown page is in range, and the current
   * page is shown whenever it exists.
   */
  lemma ShownPages(totalPages: int, page: int, q: int)
    ensures Number(q) in PageNumbers(totalPages, page) <==>
      0 <= q < totalPages && (totalPages <= 5 || q == 0 || q == totalPages - 1 || page - 1 <= q <= page + 1)
  {
    var items := PageNumbers(totalPages, page);
    if totalPages <= 5 {
      if 0 <= q < totalPages {
        assert items[q] == Number(q);
      }
    } else {
      LargeShape(totalPages, page);
      var lo := Max(1, page - 1);
      var lead := if page > 2 then 1 else 0;
      if 0 <= q < totalPages && (q == 0 || q == totalPages - 1 || page - 1 <= q <= page + 1) {
        if q == 0 {
          assert items[0] == Number(q);
        } else if q == totalPages - 1 {
          assert items[|items| - 1] == Number(q);
        } else {
          assert items[1 + lead + q - lo] == Number(q);
        }
      }
    }
  }

  /** The page numbers in the list strictly increase from left to right. */
  ghost predicate Increasing(items: seq<PageItem>) {
    forall i, j :: 0 <= i < j < |items| && items[i].Number? && items[j].Number? ==> items[i].page < items[j].page
  }

  /**
   * No page is skipped silently: neighbouring page buttons are consecutive
   * pages, and every ellipsis sits between two page buttons and hides at
   * least one page.
   */
  ghost predicate GapsMarked(items: seq<PageItem>) {
    && (forall i :: 0 <= i < |items| - 1 && items[i].Number? && items[i + 1].Number? ==>
          items[i + 1].page == items[i].page + 1)
    && (forall i :: 0 <= i < |items| && items[i] == Ellipsis ==>
          0 < i < |items| - 1 && items[i - 1].Number? && items[i + 1].Number? &&
          items[i + 1].page >= items[i - 1].page + 2)
  }

  lemma PageNumbersIncreasing(totalPages: int, page: int)
    ensures Increasing(PageNumbers(totalPages, page))
  {
    var items := PageNumbers(totalPages, page);
    if totalPages > 5 {
      LargeShape(totalPages, page);
      forall i, j | 0 <= i < j < |items| && items[i].Number? && items[j].Number?
        ensures items[i].page < items[j].page
      {
        assert items[i] == LargeItemAt(totalPages, page, i);
        assert items[j] == LargeItemAt(totalPages, page, j);
      }
    }
  }

  lemma PageNumbersGapsMarked(totalPages: int, page: int)
    ensures GapsMarked(PageNumbers(totalPages, page))
  {
    var items := PageNumbers(totalPages, page);
    if totalPages > 5 {
      LargeShape(totalPages, page);
      forall i | 0 <= i < |items| - 1 && items[i].Number? && items[i + 1].Number?
        ensures items[i + 1].page == items[i].page + 1
      {
        assert items[i] == LargeItemAt(totalPages, page, i);
        assert items[i + 1] == LargeItemAt(totalPages, page, i + 1);
      }
      forall i | 0 <= i < |items| && items[i] == Ellipsis
        ensures 0 < i < |items| - 1 && items[i - 1].Number? && items[i + 1].Number?
        ensures items[i + 1].page >= items[i - 1].page + 2
      {
        assert items[i] == LargeItemAt(totalPages, page, i);
        assert items[i - 1] == LargeItemAt(totalPages, page, i - 1);
        assert items[i + 1] == LargeItemAt(totalPages, page, i + 1);
      }
    }
  }
}
