/**
 * `DataTable`'s pagination: the slice of rows on the current page, the row of
 * page buttons with ellipses, the previous/next controls, and what the table
 * shows for no data.
 */
module Pagination {
  import opened Wrappers

  const DefaultItemsPerPage: nat := 5
  const DefaultEmptyMessage: string := "No data available"

  /** At most this many pages are listed without ellipses. */
  const MaxButtons: nat := 5

  /** The component's page state: it starts at 1 and every control keeps it at least 1. */
  type PageIndex = n: int | n >= 1 witness 1

  function Min(a: int, b: int): int { if a <= b then a else b }
  function Max(a: int, b: int): int { if a >= b then a else b }

  /** `Math.ceil(count / perPage)`: the fewest pages of `perPage` rows that hold `count` rows. */
  function TotalPages(count: nat, perPage: nat): (t: nat)
    requires perPage > 0
    ensures t * perPage >= count
    ensures t > 0 ==> (t - 1) * perPage < count
  {
    (count + perPage - 1) / perPage
  }

  function StartIndex(page: PageIndex, perPage: nat): nat {
    (page - 1) * perPage
  }

  /** `Math.min(startIndex + itemsPerPage, data.length)`. */
  function EndIndex(page: PageIndex, perPage: nat, count: nat): nat {
    Min(StartIndex(page, perPage) + perPage, count)
  }

  /** `Array.prototype.slice` for non-negative bounds: both are clamped to the length. */
  function Slice<T>(s: seq<T>, start: nat, end: nat): (r: seq<T>)
    ensures start <= end <= |s| ==> r == s[start..end]
    ensures |s| <= start ==> r == []
  {
    var lo := Min(start, |s|);
    var hi := Min(end, |s|);
    if lo < hi then s[lo..hi] else []
  }

  /** The rows of one page: at most `perPage` consecutive rows starting at the page's first index. */
  function CurrentData<T>(data: seq<T>, page: PageIndex, perPage: nat): (rows: seq<T>)
    ensures |rows| <= perPage
    ensures StartIndex(page, perPage) <= |data| ==>
      rows == data[StartIndex(page, perPage)..Min(StartIndex(page, perPage) + perPage, |data|)]
    ensures StartIndex(page, perPage) >= |data| ==> rows == []
  {
    Slice(data, StartIndex(page, perPage), EndIndex(page, perPage, |data|))
  }

  /** Pages 1 to `k` in order, concatenated. */
  function FirstPages<T>(data: seq<T>, perPage: nat, k: nat): seq<T> {
    if k == 0 then [] else FirstPages(data, perPage, k - 1) + CurrentData(data, k, perPage)
  }

  lemma {:induction false} FirstPagesArePrefix<T>(data: seq<T>, perPage: nat, k: nat)
    requires perPage > 0
    ensures FirstPages(data, perPage, k) == data[..Min(k * perPage, |data|)]
  {
    if k > 0 {
      FirstPagesArePrefix(data, perPage, k - 1);
      var start := (k - 1) * perPage;
      assert k * perPage == start + perPage;
      if start <= |data| {
        assert data[..Min(start, |data|)] + data[start..Min(start + perPage, |data|)]
            == data[..Min(k * perPage, |data|)];
      }
    }
  }

  /** Reading the pages 1 to `TotalPages` in order gives back every row, in order, once. */
  lemma PagesCoverData<T>(data: seq<T>, perPage: nat)
    requires perPage > 0
    ensures FirstPages(data, perPage, TotalPages(|data|, perPage)) == data
  {
    FirstPagesArePrefix(data, perPage, TotalPages(|data|, perPage));
  }

  // ---------------------------------------------------------------------------
  // Page buttons

  datatype PageItem = Page(n: int) | Ellipsis

  /** Buttons for the pages `lo` to `hi`; none when `lo > hi`. */
  function PageRange(lo: int, hi: int): (r: seq<PageItem>)
    ensures |r| == Max(0, hi - lo + 1)
    ensures forall i :: 0 <= i < |r| ==> r[i] == Page(lo + i)
    decreases hi - lo
  {
    if lo > hi then [] else [Page(lo)] + PageRange(lo + 1, hi)
  }

  /**
   * `getPageNumbers`: every page when there are at most five; otherwise the first
   * and last page, the current page and its neighbours, and an ellipsis for each gap.
   */
  function PageNumbers(total: nat, current: PageIndex): seq<PageItem> {
    if total <= MaxButtons then PageRange(1, total)
    else
      var middleStart := Max(2, current - 1);
      var middleEnd := Min(total - 1, current + 1);
      WithGap(WithGap([Page(1)], middleStart > 2, PageRange(middleStart, middleEnd)), middleEnd < total - 1, [Page(total)])
  }

  /** `a`, an ellipsis when `gap` holds, then `b`. */
  function WithGap(a: seq<PageItem>, gap: bool, b: seq<PageItem>): seq<PageItem> {
    if gap then a + [Ellipsis] + b else a + b
  }

  /**
   * A row of buttons that reads as the pages `lo` to `hi`: it starts at `lo` and
   * ends at `hi`, neighbouring buttons are neighbouring pages, and an ellipsis
   * stands exactly for a gap between the buttons on either side of it.
   */
  ghost predicate Reads(items: seq<PageItem>, lo: int, hi: int) {
    && |items| > 0 && items[0] == Page(lo) && items[|items| - 1] == Page(hi)
    && (forall i :: 0 <= i < |items| - 1 && items[i].Page? && items[i + 1].Page? ==> items[i + 1].n == items[i].n + 1)
    && (forall i :: 0 <= i < |items| && items[i].Ellipsis? ==>
          && 0 < i < |items| - 1 && items[i - 1].Page? && items[i + 1].Page?
          && items[i - 1].n + 1 < items[i + 1].n)
  }

  lemma RangeReads(lo: int, hi: int)
    requires lo <= hi
    ensures Reads(PageRange(lo, hi), lo, hi)
  {
  }

  /** Two rows of consecutive page ranges read as one. */
  lemma JoinAdjacent(a: seq<PageItem>, b: seq<PageItem>, lo: int, mid: int, hi: int)
    requires Reads(a, lo, mid) && Reads(b, mid + 1, hi)
    ensures Reads(a + b, lo, hi)
  {
    var ab := a + b;
    forall i | 0 <= i < |ab| && ab[i].Ellipsis?
      ensures 0 < i < |ab| - 1 && ab[i - 1].Page? && ab[i + 1].Page? && ab[i - 1].n + 1 < ab[i + 1].n
    {
      if i >= |a| {
        assert ab[i] == b[i - |a|];
      }
    }
  }

  /** Two rows with a gap between them read as one when an ellipsis marks the gap. */
  lemma JoinWithEllipsis(a: seq<PageItem>, b: seq<PageItem>, lo: int, mid: int, next: int, hi: int)
    requires Reads(a, lo, mid) && Reads(b, next, hi) && mid + 1 < next
    ensures Reads(a + [Ellipsis] + b, lo, hi)
  {
    var ab := a + [Ellipsis] + b;
    forall i | 0 <= i < |ab| && ab[i].Ellipsis?
      ensures 0 < i < |ab| - 1 && ab[i - 1].Page? && ab[i + 1].Page? && ab[i - 1].n + 1 < ab[i + 1].n
    {
      if i > |a| {
        assert ab[i] == b[i - |a| - 1];
      }
    }
  }

  /** Two rows read as one when an ellipsis marks exactly a gap between them. */
  lemma JoinRows(a: seq<PageItem>, b: seq<PageItem>, lo: int, mid: int, next: int, hi: int, gap: bool)
    requires Reads(a, lo, mid) && Reads(b, next, hi)
    requires gap <==> mid + 1 < next
    requires mid < next
    ensures Reads(WithGap(a, gap, b), lo, hi)
  {
    if gap {
      JoinWithEllipsis(a, b, lo, mid, next, hi);
    } else {
      JoinAdjacent(a, b, lo, mid, hi);
    }
  }

  /** With few pages every page has its button, in order. */
  lemma FewPagesAllListed(total: nat, current: PageIndex)
    requires total <= MaxButtons
    ensures var items := PageNumbers(total, current);
      |items| == total && forall i :: 0 <= i < total ==> items[i] == Page(i + 1)
  {
  }

  /** With many pages the row reads as pages 1 to `total`. */
  lemma ManyPagesRead(total: nat, current: PageIndex)
    requires total > MaxButtons
    ensures Reads(PageNumbers(total, current), 1, total)
  {
    var middleStart := Max(2, current - 1);
    var middleEnd := Min(total - 1, current + 1);
    var first := [Page(1)];
    var last := [Page(total)];
    RangeReads(1, 1);
    RangeReads(total, total);
    if middleStart <= middleEnd {
      var mid := PageRange(middleStart, middleEnd);
      RangeReads(middleStart, middleEnd);
      JoinRows(first, mid, 1, 1, middleStart, middleEnd, middleStart > 2);
      JoinRows(WithGap(first, middleStart > 2, mid), last, 1, middleEnd, total, total, middleEnd < total - 1);
    } else {
      assert PageNumbers(total, current) == [Page(1), Ellipsis, Page(total)];
    }
  }

  /** With many pages at most seven entries are shown, the current page among them. */
  lemma ManyPagesBounded(total: nat, current: PageIndex)
    requires total > MaxButtons
    ensures |PageNumbers(total, current)| <= 7
    ensures current <= total ==> Page(current) in PageNumbers(total, current)
  {
    var middleStart := Max(2, current - 1);
    var middleEnd := Min(total - 1, current + 1);
    var mid := PageRange(middleStart, middleEnd);
    if 1 < current < total {
      assert mid[current - middleStart] == Page(current);
    }
  }

  /** The numbers on the buttons increase from left to right. */
  lemma {:induction false} PageButtonsIncrease(items: seq<PageItem>, lo: int, hi: int, i: nat, j: nat)
    requires Reads(items, lo, hi)
    requires i < j < |items| && items[i].Page? && items[j].Page?
    ensures items[i].n < items[j].n
    decreases j - i
  {
    if j == i + 1 {
    } else if items[i + 1].Page? {
      PageButtonsIncrease(items, lo, hi, i + 1, j);
    } else if j > i + 2 {
      PageButtonsIncrease(items, lo, hi, i + 2, j);
    }
  }

  // ---------------------------------------------------------------------------
  // Controls and view

  /** The previous-page control: one back, never below page 1. */
  function Prev(page: PageIndex): (p: PageIndex)
    ensures page > 1 ==> p == page - 1
    ensures page == 1 ==> p == 1
  {
    Max(1, page - 1)
  }

  /** The next-page control: one on, never beyond the last page. */
  function Next(page: PageIndex, total: nat): (p: PageIndex)
    requires total >= 1
    ensures page < total ==> p == page + 1
    ensures page >= total ==> p == total
  {
    Min(total, page + 1)
  }

  /** Next undoes Prev away from the first page, and Prev undoes Next before the last. */
  lemma PrevNextInverse(page: PageIndex, total: nat)
    requires 1 <= page <= total
    ensures page > 1 ==> Next(Prev(page), total) == page
    ensures page < total ==> Prev(Next(page, total)) == page
  {
  }

  /** "Showing a to b of n results" with the buttons and the disabled state of the two arrows. */
  datatype Controls = Controls(
    first: int,
    last: int,
    count: nat,
    buttons: seq<PageItem>,
    prevDisabled: bool,
    nextDisabled: bool)

  datatype View<T> = EmptyMessage(message: string) | Rows(rows: seq<T>, controls: Option<Controls>)

  /** The table as the source renders it for a page, stale or not. */
  function RenderAsWritten<T>(data: seq<T>, page: PageIndex, perPage: nat, emptyMessage: string): (v: View<T>)
    requires perPage > 0
    ensures v.EmptyMessage? <==> |data| == 0
    ensures v.EmptyMessage? ==> v.message == emptyMessage
    ensures v.Rows? ==> (v.controls.Some? <==> TotalPages(|data|, perPage) > 1)
    ensures v.Rows? ==> v.rows == CurrentData(data, page, perPage)
    ensures v.Rows? && v.controls.Some? ==>
      var c := v.controls.value;
      var total := TotalPages(|data|, perPage);
      && c.count == |data|
      && c.first == (page - 1) * perPage + 1
      && c.last == Min(page * perPage, |data|)
      && c.buttons == PageNumbers(total, page)
      && (c.prevDisabled <==> page == 1)
      && (c.nextDisabled <==> page == total)
    ensures v.Rows? && v.controls.Some? && page <= TotalPages(|data|, perPage) ==>
      var c := v.controls.value;
      1 <= c.first <= c.last <= |data| && v.rows == data[c.first - 1..c.last]
  {
    var total := TotalPages(|data|, perPage);
    if |data| == 0 then EmptyMessage(emptyMessage)
    else
      assert page <= total ==> StartIndex(page, perPage) < |data| by {
        if page <= total { PageInRangeHasRows(data, page, perPage); }
      }
      Rows(CurrentData(data, page, perPage),
        if total > 1 then
          Some(Controls(StartIndex(page, perPage) + 1, EndIndex(page, perPage, |data|), |data|,
                        PageNumbers(total, page), page == 1, page == total))
        else None)
  }

  /**
   * The page state is never brought back into range when the data shrinks: after
   * the only row of the last page is deleted, that page is empty and, with a
   * single page left, no control to leave it is shown.
   */
  lemma StalePageShowsNothing()
    ensures var v := RenderAsWritten([0, 1, 2, 3, 4], 2, DefaultItemsPerPage, DefaultEmptyMessage);
      v == Rows([], None)
  {
  }

  /** The page actually displayed: the state, limited to the pages that exist. */
  function ShownPage(page: PageIndex, total: nat): (p: PageIndex)
    ensures total >= 1 ==> p <= total
    ensures page <= total ==> p == page
    ensures total >= 1 && page > total ==> p == total
  {
    Min(page, Max(1, total))
  }

  /** A page within range holds at least one row. */
  lemma PageInRangeHasRows<T>(data: seq<T>, page: PageIndex, perPage: nat)
    requires perPage > 0 && page <= TotalPages(|data|, perPage)
    ensures 0 < |CurrentData(data, page, perPage)|
  {
    var t := TotalPages(|data|, perPage);
    assert (page - 1) * perPage <= (t - 1) * perPage;
  }

  /** The table with the page state limited to the existing pages. */
  function Render<T>(data: seq<T>, page: PageIndex, perPage: nat, emptyMessage: string): (v: View<T>)
    requires perPage > 0
    ensures v.EmptyMessage? <==> |data| == 0
    ensures v.EmptyMessage? ==> v.message == emptyMessage
    ensures v.Rows? ==> (v.controls.Some? <==> TotalPages(|data|, perPage) > 1)
    ensures v.Rows? ==> 0 < |v.rows| <= perPage
    ensures page <= TotalPages(|data|, perPage) ==> v == RenderAsWritten(data, page, perPage, emptyMessage)
    ensures |data| > 0 && page > TotalPages(|data|, perPage) ==>
      v == RenderAsWritten(data, TotalPages(|data|, perPage), perPage, emptyMessage)
  {
    var shown := ShownPage(page, TotalPages(|data|, perPage));
    if |data| > 0 then PageInRangeHasRows(data, shown, perPage); RenderAsWritten(data, shown, perPage, emptyMessage)
    else RenderAsWritten(data, shown, perPage, emptyMessage)
  }

  /** Every row appears on the page its index falls in, at its offset within that page. */
  lemma RowOnItsPage<T>(data: seq<T>, perPage: nat, i: nat)
    requires perPage > 0 && i < |data|
    ensures var page := i / perPage + 1;
      && page <= TotalPages(|data|, perPage)
      && CurrentData(data, page, perPage)[i % perPage] == data[i]
  {
    var page := i / perPage + 1;
    assert StartIndex(page, perPage) == i - i % perPage;
  }
}
