/**
 * The filter panel of the listing page: three selects, each replacing one
 * field of the filter record, and a search box whose text is kept locally
 * and pushed into the record.
 */
module FilterPanel {
  import opened UserTypes

  /** The status select. */
  function OnStatusChange(filters: UserFilters, status: StatusFilter): (r: UserFilters)
    ensures r.status == status
    ensures r.search == filters.search && r.sortBy == filters.sortBy && r.sortOrder == filters.sortOrder
  {
    filters.(status := status)
  }

  /** The sort-key select. */
  function OnSortByChange(filters: UserFilters, sortBy: SortKey): (r: UserFilters)
    ensures r.sortBy == sortBy
    ensures r.search == filters.search && r.status == filters.status && r.sortOrder == filters.sortOrder
  {
    filters.(sortBy := sortBy)
  }

  /** The sort-direction select. */
  function OnSortOrderChange(filters: UserFilters, sortOrder: SortOrder): (r: UserFilters)
    ensures r.sortOrder == sortOrder
    ensures r.search == filters.search && r.status == filters.status && r.sortBy == filters.sortBy
  {
    filters.(sortOrder := sortOrder)
  }

  /** The record the search box hands to the page: its text, the other fields copied. */
  function PushSearch(filters: UserFilters, searchValue: string): (r: UserFilters)
    ensures r.search == searchValue
    ensures r.status == filters.status && r.sortBy == filters.sortBy && r.sortOrder == filters.sortOrder
  {
    filters.(search := searchValue)
  }

  /** The controls touch different fields, so their order does not matter. */
  lemma ControlsCommute(filters: UserFilters, status: StatusFilter, sortBy: SortKey, sortOrder: SortOrder, search: string)
    ensures OnSortByChange(OnStatusChange(filters, status), sortBy) == OnStatusChange(OnSortByChange(filters, sortBy), status)
    ensures OnSortOrderChange(OnStatusChange(filters, status), sortOrder) == OnStatusChange(OnSortOrderChange(filters, sortOrder), status)
    ensures OnSortOrderChange(OnSortByChange(filters, sortBy), sortOrder) == OnSortByChange(OnSortOrderChange(filters, sortOrder), sortBy)
    ensures PushSearch(OnStatusChange(filters, status), search) == OnStatusChange(PushSearch(filters, search), status)
  {
  }

  /** Choosing the value already selected changes nothing; the last choice wins. */
  lemma ControlsLastWins(filters: UserFilters, s1: StatusFilter, s2: StatusFilter)
    ensures OnStatusChange(filters, filters.status) == filters
    ensures OnSortByChange(filters, filters.sortBy) == filters
    ensures OnSortOrderChange(filters, filters.sortOrder) == filters
    ensures OnStatusChange(OnStatusChange(filters, s1), s2) == OnStatusChange(filters, s2)
  {
  }

  /** The search box's local text. */
  class SearchBox {
    var searchValue: string

    /** The text starts as the record's current search. */
    constructor (filters: UserFilters)
      ensures searchValue == filters.search
    {
      searchValue := filters.search;
    }

    /** A keystroke replaces the local text; the record is not touched yet. */
    method OnInput(text: string)
      modifies this
      ensures searchValue == text
    {
      searchValue := text;
    }

    /** The record pushed to the page once the text settles. */
    function Pushed(filters: UserFilters): (r: UserFilters)
      reads this
      ensures r.search == searchValue
      ensures r.status == filters.status && r.sortBy == filters.sortBy && r.sortOrder == filters.sortOrder
    {
      PushSearch(filters, searchValue)
    }
  }

  /** The push made right after the box appears hands back the record unchanged. */
  lemma FirstPushIsNoOp(filters: UserFilters)
    ensures PushSearch(filters, filters.search) == filters
  {
  }
}
