/**
  * The generic data grid of src/components/data-grid/DataTable.tsx: the
  * sort state (column and direction) that a column header click toggles
  * and reports through onSort, the initial sort column chosen on mount, the
  * page buttons that report through onPageChange, and the range text.
  */
module DataTable {
  import opened Wrappers
  import Collections
  import Pagination

  /** The part of a column definition the grid's logic reads. */
  datatype Column = Column(id: string, header: string, sortable: bool)

  /** `columns.find(col => col.sortable)` */
  function FirstSortable(columns: seq<Column>): (r: Option<nat>)
    ensures r.Some? ==> r.value < |columns| && columns[r.value].sortable
    ensures r.Some? ==> forall j :: 0 <= j < r.value ==> !columns[j].sortable
    ensures r.None? <==> forall j :: 0 <= j < |columns| ==> !columns[j].sortable
  {
    if columns == [] then None
    else if columns[0].sortable then Some(0)
    else
      match FirstSortable(columns[1..])
      case None => None
      case Some(i) => Some(i + 1)
  }

  /** The direction a click on columnId selects: 'desc' only when that column is already sorted ascending. */
  function ToggledDirection(sortColumn: Option<string>, sortDirection: Collections.SortDirection,
                            columnId: string): (r: Collections.SortDirection)
    ensures r == Collections.Desc <==> sortColumn == Some(columnId) && sortDirection == Collections.Asc
  {
    if sortColumn == Some(columnId) && sortDirection == Collections.Asc then Collections.Desc else Collections.Asc
  }

  /** Clicking the same column twice from ascending goes to descending and back to ascending. */
  lemma ToggleTwiceRestores(columnId: string)
    ensures var once := ToggledDirection(Some(columnId), Collections.Asc, columnId);
      once == Collections.Desc && ToggledDirection(Some(columnId), once, columnId) == Collections.Asc
  {
  }

  /** A click on a column other than the sorted one always sorts it ascending. */
  lemma NewColumnSortsAscending(sortColumn: Option<string>, sortDirection: Collections.SortDirection, columnId: string)
    requires sortColumn != Some(columnId)
    ensures ToggledDirection(sortColumn, sortDirection, columnId) == Collections.Asc
  {
  }

  /** The sort state of one grid. */
  class SortState {
    var sortColumn: Option<string>
    var sortDirection: Collections.SortDirection

    /** `useState<string | null>(null)` and `useState('asc')`. */
    constructor ()
      ensures sortColumn == None && sortDirection == Collections.Asc
    {
      sortColumn := None;
      sortDirection := Collections.Asc;
    }

    /**
      * The mount effect: with an onSort handler, the first sortable column
      * becomes the sort column, unless there is none or its id is empty
      * (`?.id || null`).
      */
    method InitialSort(columns: seq<Column>, hasOnSort: bool)
      modifies this
      ensures sortDirection == old(sortDirection)
      ensures hasOnSort && FirstSortable(columns).Some? && columns[FirstSortable(columns).value].id != "" ==>
        sortColumn == Some(columns[FirstSortable(columns).value].id)
      ensures !(hasOnSort && FirstSortable(columns).Some? && columns[FirstSortable(columns).value].id != "") ==>
        sortColumn == old(sortColumn)
    {
      if hasOnSort {
        var first := FirstSortable(columns);
        if first.Some? && columns[first.value].id != "" {
          sortColumn := Some(columns[first.value].id);
        }
      }
    }

    /** handleSort: the new column and direction are stored and, with an onSort handler, reported as stored. */
    method HandleSort(columnId: string, hasOnSort: bool) returns (reported: Option<(string, Collections.SortDirection)>)
      modifies this
      ensures sortColumn == Some(columnId)
      ensures sortDirection == ToggledDirection(old(sortColumn), old(sortDirection), columnId)
      ensures reported == (if hasOnSort then Some((columnId, sortDirection)) else None)
    {
      var newDirection := ToggledDirection(sortColumn, sortDirection, columnId);
      sortColumn := Some(columnId);
      sortDirection := newDirection;
      if hasOnSort {
        reported := Some((columnId, newDirection));
      } else {
        reported := None;
      }
    }
  }

  /** The grid's handleNextPage: as the pager, and only when onPageChange is given. */
  function NextPage(currentPage: int, totalItems: nat, pageSize: nat, hasOnPageChange: bool): (r: Option<int>)
    requires pageSize >= 1
    ensures r.Some? <==> hasOnPageChange && currentPage < Pagination.TotalPages(totalItems, pageSize)
    ensures r.Some? ==> r.value == currentPage + 1
  {
    if hasOnPageChange then Pagination.NextPage(currentPage, Pagination.TotalPages(totalItems, pageSize)) else None
  }

  /** The grid's handlePrevPage. */
  function PrevPage(currentPage: int, hasOnPageChange: bool): (r: Option<int>)
    ensures r.Some? <==> hasOnPageChange && currentPage > 1
    ensures r.Some? ==> r.value == currentPage - 1
  {
    if hasOnPageChange then Pagination.PrevPage(currentPage) else None
  }

  /** From a page in range the grid's buttons emit only pages in range. */
  lemma GridPagesInRange(currentPage: int, totalItems: nat, pageSize: nat, hasOnPageChange: bool)
    requires pageSize >= 1
    requires 1 <= currentPage <= Pagination.TotalPages(totalItems, pageSize)
    ensures NextPage(currentPage, totalItems, pageSize, hasOnPageChange).Some? ==>
      1 <= NextPage(currentPage, totalItems, pageSize, hasOnPageChange).value <= Pagination.TotalPages(totalItems, pageSize)
    ensures PrevPage(currentPage, hasOnPageChange).Some? ==>
      1 <= PrevPage(currentPage, hasOnPageChange).value <= Pagination.TotalPages(totalItems, pageSize)
  {
    Pagination.EmittedPagesInRange(currentPage, totalItems, pageSize);
  }

  /** The grid's range text: shown when the current page of data is non-empty. */
  function GridRange(dataLength: nat, currentPage: int, pageSize: nat, totalItems: nat): (r: Pagination.RangeText)
    ensures r.Showing? <==> dataLength > 0
    ensures r.Showing? ==> r.total == totalItems && r.last <= totalItems
    ensures r.Showing? ==> r.first == (currentPage - 1) * pageSize + 1
    ensures r.Showing? ==> r.last == (if currentPage * pageSize < totalItems then currentPage * pageSize else totalItems)
  {
    if dataLength > 0 then
      var last := if currentPage * pageSize < totalItems then currentPage * pageSize else totalItems;
      Pagination.Showing((currentPage - 1) * pageSize + 1, last, totalItems)
    else Pagination.NoResults
  }

  /** When the data page is non-empty exactly when there are items, the grid shows the pager's text. */
  lemma GridRangeMatchesPager(dataLength: nat, currentPage: int, pageSize: nat, totalItems: nat)
    requires dataLength > 0 <==> totalItems > 0
    ensures GridRange(dataLength, currentPage, pageSize, totalItems) == Pagination.ResultRange(currentPage, pageSize, totalItems)
  {
  }

  /** With data but no totalItems prop (its default is 0), the grid reads "Showing 1 to 0 of 0". */
  lemma GridRangeWithDefaultTotal(dataLength: nat, pageSize: nat)
    requires dataLength > 0 && pageSize >= 1
    ensures GridRange(dataLength, 1, pageSize, 0) == Pagination.Showing(1, 0, 0)
    ensures Pagination.ResultRange(1, pageSize, 0) == Pagination.NoResults
  {
  }
}
