/**
 The arithmetic of the task table's pagination footer
 (`DataTablePagination` in src/components/ui/DataTablePagination.tsx):
 page count, the "start - end of total" caption, the previous/next
 enablement flags and the page selector.
 */
module Pagination {
  import opened Wrappers
  import Decimal

  /** What the footer shows for one page of the table. */
  datatype PageView = PageView(
    pageNumber: nat,        // 1-based number of the current page
    totalPages: nat,
    startItem: nat,         // 1-based index of the page's first row
    endItem: nat,           // 1-based index of the page's last row
    canPrevious: bool,
    canNext: bool,
    selectValue: string,    // the value the page selector shows
    options: seq<string>    // the values the page selector offers
  )

  function Min(a: int, b: int): int {
    if a <= b then a else b
  }

  /** `Math.ceil(total / pageSize)`: the number of pages needed to hold `total` rows. */
  function TotalPages(total: nat, pageSize: nat): (r: nat)
    requires pageSize > 0
    ensures total <= r * pageSize
    ensures (r - 1) * pageSize < total || r == 0
    ensures r == 0 <==> total == 0
  {
    var q := (total + pageSize - 1) / pageSize;
    var m := (total + pageSize - 1) % pageSize;
    assert total + pageSize - 1 == q * pageSize + m;
    assert q * pageSize == total + (pageSize - 1 - m);
    assert (q - 1) * pageSize == total - 1 - m;
    q
  }

  /** The page count is the only count whose pages hold `total` rows with none left empty. */
  lemma TotalPagesUnique(total: nat, pageSize: nat, n: nat)
    requires pageSize > 0 && total > 0
    requires (n - 1) * pageSize < total <= n * pageSize
    ensures n == TotalPages(total, pageSize)
  {
    var t := TotalPages(total, pageSize);
    if n < t {
      MulMonotonic(n, t - 1, pageSize);
    } else if n > t {
      MulMonotonic(t, n - 1, pageSize);
    }
  }

  lemma MulMonotonic(a: int, b: int, c: nat)
    requires a <= b
    ensures a * c <= b * c
  {
    assert b * c - a * c == (b - a) * c;
  }

  /** The selector's options: the values "1" .. "totalPages" (lines 53-58). */
  function PageOptions(totalPages: nat): (r: seq<string>)
    ensures |r| == totalPages
    ensures forall k :: 0 <= k < totalPages ==> r[k] == Decimal.Render(k + 1)
  {
    seq(totalPages, k requires 0 <= k < totalPages => Decimal.Render(k + 1))
  }

  /** Choosing `value` in the selector: `setPageIndex(Number(value) - 1)`; None when it is not a numeral. */
  function SelectPage(value: string): (r: Option<int>)
    ensures r.Some? <==> Decimal.Parse(value).Some?
    ensures r.Some? ==> r.value >= -1 && r.value + 1 == Decimal.Parse(value).value
  {
    match Decimal.Parse(value)
    case Some(n) => Some(n - 1)
    case None => None
  }

  /** The footer for page `pageIndex` (0-based) of `total` rows; None when nothing is rendered. */
  function Paginate(pageIndex: nat, pageSize: nat, total: nat): (r: Option<PageView>)
    requires pageSize > 0
    ensures r.None? <==> total == 0
    ensures r.Some? ==> r.value.totalPages == TotalPages(total, pageSize) && |r.value.options| == r.value.totalPages
    ensures r.Some? ==> r.value.selectValue == Decimal.Render(r.value.pageNumber)
  {
    if total == 0 then None
    else
      var pageNumber := pageIndex + 1;
      var totalPages := TotalPages(total, pageSize);
      Some(PageView(
        pageNumber,
        totalPages,
        pageIndex * pageSize + 1,
        Min(pageNumber * pageSize, total),
        pageIndex > 0,
        pageNumber < totalPages,
        Decimal.Render(pageNumber),
        PageOptions(totalPages)))
  }

  /** On an existing page, the caption lies within the rows and spans at most one page. */
  lemma PageBounds(pageIndex: nat, pageSize: nat, total: nat)
    requires pageSize > 0 && total > 0
    requires pageIndex < TotalPages(total, pageSize)
    ensures var v := Paginate(pageIndex, pageSize, total).value;
      && 1 <= v.startItem <= v.endItem <= total
      && v.endItem - v.startItem + 1 <= pageSize
      && v.pageNumber <= v.totalPages
  {
    var t := TotalPages(total, pageSize);
    MulMonotonic(pageIndex, t - 1, pageSize);
    assert (pageIndex + 1) * pageSize == pageIndex * pageSize + pageSize;
  }

  /**
   The pages tile the rows: the first page starts at row 1, every page but
   the last holds exactly `pageSize` rows and the next page starts right
   after it, and the last page ends at the last row.
   */
  lemma PagesTile(pageIndex: nat, pageSize: nat, total: nat)
    requires pageSize > 0 && total > 0
    requires pageIndex < TotalPages(total, pageSize)
    ensures Paginate(0, pageSize, total).value.startItem == 1
    ensures var v := Paginate(pageIndex, pageSize, total).value;
      && (pageIndex + 1 < v.totalPages ==>
            && v.endItem - v.startItem + 1 == pageSize
            && Paginate(pageIndex + 1, pageSize, total).value.startItem == v.endItem + 1)
      && (pageIndex + 1 == v.totalPages ==> v.endItem == total)
  {
    var t := TotalPages(total, pageSize);
    var n := pageIndex + 1;
    assert n * pageSize == pageIndex * pageSize + pageSize;
    if n < t {
      MulMonotonic(n, t - 1, pageSize);
    } else {
      MulMonotonic(t, n, pageSize);
    }
  }

  /**
   Previous is enabled exactly off the first page; next is enabled exactly
   when rows remain beyond the current page, i.e. when the caption's end
   is short of the total.
   */
  lemma NavigationFlags(pageIndex: nat, pageSize: nat, total: nat)
    requires pageSize > 0 && total > 0
    ensures var v := Paginate(pageIndex, pageSize, total).value;
      && (v.canPrevious <==> pageIndex > 0)
      && (v.canNext <==> (pageIndex + 1) * pageSize < total)
      && (v.canNext <==> v.endItem < total)
  {
    var t := TotalPages(total, pageSize);
    var n := pageIndex + 1;
    if n < t {
      MulMonotonic(n, t - 1, pageSize);
    } else {
      MulMonotonic(t, n, pageSize);
    }
  }

  /**
   The selector offers exactly the values 1 .. totalPages; choosing the
   k-th option selects page index k, whose footer shows that option again.
   */
  lemma SelectorRoundTrip(pageIndex: nat, pageSize: nat, total: nat, k: nat)
    requires pageSize > 0 && total > 0
    requires k < TotalPages(total, pageSize)
    ensures var v := Paginate(pageIndex, pageSize, total).value;
      && |v.options| == v.totalPages
      && Decimal.Parse(v.options[k]) == Some(k + 1)
      && SelectPage(v.options[k]) == Some(k)
      && Paginate(k, pageSize, total).value.selectValue == v.options[k]
  {
    Decimal.ParseRender(k + 1);
  }

  /** The current page, when it exists, is among the options, and re-selecting it keeps it. */
  lemma CurrentPageIsOffered(pageIndex: nat, pageSize: nat, total: nat)
    requires pageSize > 0 && total > 0
    requires pageIndex < TotalPages(total, pageSize)
    ensures var v := Paginate(pageIndex, pageSize, total).value;
      && v.options[pageIndex] == v.selectValue
      && SelectPage(v.selectValue) == Some(pageIndex)
  {
    Decimal.ParseRender(pageIndex + 1);
  }
}
