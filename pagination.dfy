/**
  * The pager under the data grid, src/components/data-grid/table/DataTablePagination.tsx:
  * a page count of at least one, next/previous buttons that emit a page
  * number only inside the valid range, the "Showing a to b of n" text and
  * the disabled flags of the two buttons.
  */
module Pagination {
  import opened Wrappers
  import Collections

  /** `Math.max(1, Math.ceil(totalItems / pageSize))` */
  function TotalPages(totalItems: nat, pageSize: nat): (r: nat)
    requires pageSize >= 1
    ensures r >= 1
    ensures r * pageSize >= totalItems
    ensures r == 1 || (r - 1) * pageSize < totalItems
    ensures totalItems > 0 ==> r == Collections.CeilDiv(totalItems, pageSize)
  {
    var q := Collections.CeilDiv(totalItems, pageSize);
    if q < 1 then 1 else q
  }

  /** handleNextPage: the page passed to onPageChange, if any. */
  function NextPage(currentPage: int, totalPages: nat): (r: Option<int>)
    ensures r.Some? <==> currentPage < totalPages
    ensures r.Some? ==> r.value == currentPage + 1
  {
    if currentPage < totalPages then Some(currentPage + 1) else None
  }

  /** handlePrevPage: the page passed to onPageChange, if any. */
  function PrevPage(currentPage: int): (r: Option<int>)
    ensures r.Some? <==> currentPage > 1
    ensures r.Some? ==> r.value == currentPage - 1
  {
    if currentPage > 1 then Some(currentPage - 1) else None
  }

  /** From a page in range, both buttons emit only pages in range, and they move by one. */
  lemma EmittedPagesInRange(currentPage: int, totalItems: nat, pageSize: nat)
    requires pageSize >= 1
    requires 1 <= currentPage <= TotalPages(totalItems, pageSize)
    ensures var total := TotalPages(totalItems, pageSize);
      && (NextPage(currentPage, total).Some? ==> 1 <= NextPage(currentPage, total).value <= total)
      && (PrevPage(currentPage).Some? ==> 1 <= PrevPage(currentPage).value <= total)
      && (NextPage(currentPage, total).None? <==> currentPage == total)
      && (PrevPage(currentPage).None? <==> currentPage == 1)
  {
  }

  /** Next then previous comes back to the page one started on. */
  lemma NextThenPrevReturns(currentPage: int, totalPages: nat)
    requires 1 <= currentPage < totalPages
    ensures PrevPage(NextPage(currentPage, totalPages).value) == Some(currentPage)
  {
  }

  /** The text left of the buttons. */
  datatype RangeText = Showing(first: int, last: int, total: nat) | NoResults

  /** `Showing {(page - 1) * pageSize + 1} to {Math.min(page * pageSize, totalItems)} of {totalItems}`, or "No results". */
  function ResultRange(currentPage: int, pageSize: nat, totalItems: nat): (r: RangeText)
    ensures r.Showing? <==> totalItems > 0
    ensures r.Showing? ==> r.total == totalItems && r.last <= totalItems
    ensures r.Showing? ==> r.first == (currentPage - 1) * pageSize + 1
    ensures r.Showing? ==> r.last == (if currentPage * pageSize < totalItems then currentPage * pageSize else totalItems)
  {
    if totalItems > 0 then
      var last := if currentPage * pageSize < totalItems then currentPage * pageSize else totalItems;
      Showing((currentPage - 1) * pageSize + 1, last, totalItems)
    else NoResults
  }

  /** On a page in range the text names a non-empty run of at most pageSize items, within 1..totalItems. */
  lemma RangeWithinItems(currentPage: int, pageSize: nat, totalItems: nat)
    requires pageSize >= 1 && totalItems > 0
    requires 1 <= currentPage <= TotalPages(totalItems, pageSize)
    ensures var r := ResultRange(currentPage, pageSize, totalItems);
      1 <= r.first <= r.last <= totalItems && r.last - r.first + 1 <= pageSize
  {
    var total := TotalPages(totalItems, pageSize);
    if currentPage < total {
      Collections.MulMonotone(currentPage, total - 1, pageSize);
    }
    assert (currentPage - 1) * pageSize < totalItems;
    assert currentPage * pageSize == (currentPage - 1) * pageSize + pageSize;
  }

  /** `disabled={currentPage === 1 || isLoading}` */
  predicate PrevDisabled(currentPage: int, isLoading: bool) {
    currentPage == 1 || isLoading
  }

  /** `disabled={currentPage >= totalPages || isLoading}` */
  predicate NextDisabled(currentPage: int, totalPages: nat, isLoading: bool) {
    currentPage >= totalPages || isLoading
  }

  /** When not loading and on a page from 1 up, a button is disabled exactly when its handler would emit nothing. */
  lemma DisabledIffNothingEmitted(currentPage: int, totalPages: nat, isLoading: bool)
    requires currentPage >= 1
    ensures !isLoading ==> (NextDisabled(currentPage, totalPages, isLoading) <==> NextPage(currentPage, totalPages).None?)
    ensures !isLoading ==> (PrevDisabled(currentPage, isLoading) <==> PrevPage(currentPage).None?)
    ensures isLoading ==> NextDisabled(currentPage, totalPages, isLoading) && PrevDisabled(currentPage, isLoading)
  {
  }
}
