/**
 * The listing page: the search, status and sort pipeline over the decorated
 * users, the page of six, the page count, the header click that toggles the
 * sort, and the page state those handlers replace.
 */
module UsersPage {
  import opened Text
  import opened Paging
  import opened UserTypes
  import opened UserOrder
  import opened Sorting

  const ItemsPerPage := 6

  /** The filter record the page starts with. */
  const InitialFilters := UserFilters("", All, Name, Asc)

  /** The lower-cased query occurs in the lower-cased first name, last name or email. */
  predicate MatchesSearch(u: UserWithStatus, search: string) {
    var query := Lower(search);
    Contains(Lower(u.firstName), query) || Contains(Lower(u.lastName), query) || Contains(Lower(u.email), query)
  }

  /** A record passes both filters of `filters`. */
  predicate PassesFilters(u: UserWithStatus, filters: UserFilters) {
    && (filters.search == "" || MatchesSearch(u, filters.search))
    && (filters.status.All? || u.status == filters.status.wanted)
  }

  /** `users.filter(...)` with the search predicate. */
  function KeepMatchingSearch(users: seq<UserWithStatus>, search: string): (r: seq<UserWithStatus>)
    ensures multiset(r) <= multiset(users)
    ensures forall u :: u in r <==> u in users && MatchesSearch(u, search)
    ensures forall u :: multiset(r)[u] == if MatchesSearch(u, search) then multiset(users)[u] else 0
  {
    if |users| == 0 then []
    else
      var rest := KeepMatchingSearch(users[1..], search);
      assert users == [users[0]] + users[1..];
      if MatchesSearch(users[0], search) then [users[0]] + rest else rest
  }

  /** The search step: skipped for an empty search, otherwise a filter. */
  function SearchStep(users: seq<UserWithStatus>, search: string): (r: seq<UserWithStatus>)
    ensures search == "" ==> r == users
    ensures multiset(r) <= multiset(users)
    ensures forall u :: u in r <==> u in users && (search == "" || MatchesSearch(u, search))
    ensures forall u :: multiset(r)[u] == if search == "" || MatchesSearch(u, search) then multiset(users)[u] else 0
  {
    if search == "" then users else KeepMatchingSearch(users, search)
  }

  /** The status step: `'all'` keeps everything, otherwise only the chosen status. */
  function StatusStep(users: seq<UserWithStatus>, status: StatusFilter): (r: seq<UserWithStatus>)
    ensures status.All? ==> r == users
    ensures multiset(r) <= multiset(users)
    ensures forall u :: u in r <==> u in users && (status.All? || u.status == status.wanted)
    ensures forall u :: multiset(r)[u] == if status.All? || u.status == status.wanted then multiset(users)[u] else 0
  {
    match status
    case All => users
    case Only(wanted) => WithStatus(users, wanted)
  }

  /** The records the pipeline keeps, before sorting. */
  function Matching(users: seq<UserWithStatus>, filters: UserFilters): (r: seq<UserWithStatus>)
    ensures multiset(r) <= multiset(users)
    ensures forall u :: u in r <==> u in users && PassesFilters(u, filters)
    ensures forall u :: multiset(r)[u] == if PassesFilters(u, filters) then multiset(users)[u] else 0
  {
    StatusStep(SearchStep(users, filters.search), filters.status)
  }

  /** The page's comparator as a relation: `a` may stand before `b`. */
  function Comparator(key: SortKey, order: SortOrder): (T: (UserWithStatus, UserWithStatus) -> bool)
    ensures forall a, b :: T(a, b) == InOrder(key, order, a, b)
  {
    (a, b) => InOrder(key, order, a, b)
  }

  /** The comparator is total and transitive, so sorting with it is well defined up to ties. */
  lemma ComparatorIsTotalPreorder(key: SortKey, order: SortOrder)
    ensures TotalPreorder(Comparator(key, order))
  {
    var le := Comparator(key, order);
    forall x, y
      ensures le(x, y) || le(y, x)
    {
      InOrderTotal(key, order, x, y);
    }
    forall x, y, z | le(x, y) && le(y, z)
      ensures le(x, z)
    {
      InOrderTransitive(key, order, x, y, z);
    }
  }

  /** A list sorted by the comparator relation is sorted in the page's order. */
  lemma SortedByComparator(r: seq<UserWithStatus>, key: SortKey, order: SortOrder)
    requires SortedBy(r, Comparator(key, order))
    ensures Sorted(r, key, order)
  {
    var le := Comparator(key, order);
    forall i, j | 0 <= i < j < |r|
      ensures InOrder(key, order, r[i], r[j])
    {
      assert le(r[i], r[j]);
    }
  }

  /** Lists with the same elements, counted with multiplicity, have the same members. */
  lemma SameMembers(r: seq<UserWithStatus>, s: seq<UserWithStatus>)
    requires multiset(r) == multiset(s)
    ensures forall u :: u in r <==> u in s
  {
    forall u
      ensures u in r <==> u in s
    {
      assert u in r <==> u in multiset(r);
      assert u in s <==> u in multiset(s);
    }
  }

  /**
   * `filteredUsers`: search, then status, then sort. The result holds exactly
   * the matching records, each as often as in the input, in sorted order.
   */
  method FilteredUsers(users: seq<UserWithStatus>, filters: UserFilters) returns (r: seq<UserWithStatus>)
    ensures multiset(r) == multiset(Matching(users, filters))
    ensures multiset(r) <= multiset(users)
    ensures forall u :: u in r <==> u in users && PassesFilters(u, filters)
    ensures Sorted(r, filters.sortBy, filters.sortOrder)
  {
    var matching := Matching(users, filters);
    var a := new UserWithStatus[|matching|](i requires 0 <= i < |matching| => matching[i]);
    assert a[..] == matching;
    var le := Comparator(filters.sortBy, filters.sortOrder);
    ComparatorIsTotalPreorder(filters.sortBy, filters.sortOrder);
    SortInPlace(a, le);
    r := a[..];
    SortedByComparator(r, filters.sortBy, filters.sortOrder);
    SameMembers(r, matching);
  }

  /** `paginatedUsers`: page `currentPage` of six. */
  function PaginatedUsers(filtered: seq<UserWithStatus>, currentPage: int): (r: seq<UserWithStatus>)
    ensures currentPage >= 1 ==> r == filtered[PageStart(currentPage, ItemsPerPage, |filtered|)..PageEnd(currentPage, ItemsPerPage, |filtered|)]
    ensures currentPage >= 1 ==> |r| <= ItemsPerPage
    ensures currentPage >= 1 && (currentPage - 1) * ItemsPerPage >= |filtered| ==> r == []
  {
    PageOf(filtered, currentPage, ItemsPerPage)
  }

  /** `totalPages = Math.ceil(filteredUsers.length / 6)`. */
  function TotalPages(filtered: seq<UserWithStatus>): (n: nat)
    ensures |filtered| <= n * ItemsPerPage
    ensures (n - 1) * ItemsPerPage < |filtered|
  {
    PageCount(|filtered|, ItemsPerPage)
  }

  /** The pagination bar is rendered only for a non-empty result. */
  predicate ShowsPagination(filtered: seq<UserWithStatus>) {
    |filtered| > 0
  }

  /** Pages 1..totalPages laid end to end rebuild the filtered list exactly. */
  lemma PagesRebuildFiltered(filtered: seq<UserWithStatus>)
    ensures ConcatPages(filtered, TotalPages(filtered), ItemsPerPage) == filtered
  {
    PagesRebuild(filtered, ItemsPerPage);
  }

  /** The bar is shown exactly when there is at least one page, i.e. when page 1 is non-empty. */
  lemma PaginationShownIffPages(filtered: seq<UserWithStatus>)
    ensures ShowsPagination(filtered) <==> TotalPages(filtered) >= 1
    ensures ShowsPagination(filtered) <==> PaginatedUsers(filtered, 1) != []
  {
    PagesNonEmptyUpToCount(filtered, ItemsPerPage, 1);
  }

  /**
   * A page number past the count shows an empty table. Changing a filter
   * keeps `currentPage`, so a narrower filter can leave the page in this state.
   */
  lemma PageEmptyIffPastCount(filtered: seq<UserWithStatus>, currentPage: int)
    requires currentPage >= 1
    ensures PaginatedUsers(filtered, currentPage) == [] <==> currentPage > TotalPages(filtered)
  {
    PagesNonEmptyUpToCount(filtered, ItemsPerPage, currentPage);
  }

  /** Thirteen matches make three pages, the last holding one record. */
  lemma ThirteenMatches(filtered: seq<UserWithStatus>)
    requires |filtered| == 13
    ensures TotalPages(filtered) == 3
    ensures |PaginatedUsers(filtered, 3)| == 1 && PaginatedUsers(filtered, 3) == [filtered[12]]
    ensures PaginatedUsers(filtered, 4) == []
  {
    assert PageStart(3, ItemsPerPage, 13) == 12 && PageEnd(3, ItemsPerPage, 13) == 13;
  }

  /** The search ignores case: a query and its lower-cased form select the same records. */
  lemma SearchIgnoresCase(u: UserWithStatus, search: string)
    ensures MatchesSearch(u, search) <==> MatchesSearch(u, Lower(search))
  {
    LowerIdempotent(search);
  }

  /** With an empty search, only the status filter decides. */
  lemma EmptySearchKeepsAll(users: seq<UserWithStatus>, filters: UserFilters)
    requires filters.search == "" && filters.status.All?
    ensures Matching(users, filters) == users
  {
  }

  /**
   * The 'active' and 'inactive' results split the 'all' result: nothing is
   * in both, and together they hold every record of it as often as it does.
   */
  lemma StatusFiltersPartition(users: seq<UserWithStatus>, search: string, key: SortKey, order: SortOrder)
    ensures var all := Matching(users, UserFilters(search, All, key, order));
            var active := Matching(users, UserFilters(search, Only(Active), key, order));
            var inactive := Matching(users, UserFilters(search, Only(Inactive), key, order));
            && multiset(active) + multiset(inactive) == multiset(all)
            && multiset(active) !! multiset(inactive)
  {
    StatusPartition(SearchStep(users, search));
  }

  /** `onSort(key)`: sort by `key`, descending only when it was already ascending by `key`. */
  function ToggleSort(filters: UserFilters, key: SortKey): (r: UserFilters)
    ensures r.sortBy == key
    ensures r.sortOrder == Desc <==> filters.sortBy == key && filters.sortOrder == Asc
    ensures r.search == filters.search && r.status == filters.status
  {
    filters.(sortBy := key, sortOrder := if filters.sortBy == key && filters.sortOrder == Asc then Desc else Asc)
  }

  /** Once a column is the sort key, each further click on it flips the direction and nothing else. */
  lemma ToggleSortAlternates(filters: UserFilters, key: SortKey)
    ensures var once := ToggleSort(filters, key);
            var twice := ToggleSort(once, key);
            && twice.sortOrder != once.sortOrder
            && twice.(sortOrder := once.sortOrder) == once
            && ToggleSort(twice, key) == once
  {
  }

  /** The state of the listing page: the filter record and the current page. */
  class UsersPageState {
    var filters: UserFilters
    var currentPage: int

    constructor ()
      ensures filters == InitialFilters && currentPage == 1
    {
      filters := InitialFilters;
      currentPage := 1;
    }

    /** A click on a sortable column header. */
    method OnSort(key: SortKey)
      modifies this
      ensures filters == ToggleSort(old(filters), key)
      ensures currentPage == old(currentPage)
    {
      filters := ToggleSort(filters, key);
    }

    /** `setFilters`, as the filter panel calls it; the current page is not reset. */
    method OnFiltersChange(next: UserFilters)
      modifies this
      ensures filters == next
      ensures currentPage == old(currentPage)
    {
      filters := next;
    }

    /** `setCurrentPage`, as the pagination bar calls it. */
    method OnPageChange(page: int)
      modifies this
      ensures currentPage == page
      ensures filters == old(filters)
    {
      currentPage := page;
    }
  }
}
