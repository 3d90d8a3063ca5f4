# User dashboard data layer, modelled in Dafny

This project models the data layer of a small client-side user dashboard,
which lists users, shows each user's details and charts some statistics.
Users come from a remote directory. When the remote read fails, they come
from an embedded table of 50 records.

The model covers:

- **The record enhancer.** It derives a user's status, join day and
  last-active day from the numeric id. It also builds a five-entry synthetic
  activity log.
- **The directory gateway.** It has three calls: a page of users, one user
  by id, and all users. Each has a success path and a fallback path.
- **The listing page's query pipeline.** This is the case-insensitive
  search, the status filter, the sort by name or by join date, the page of
  six, the page count, and the header click that toggles the sort.
- **The filter panel.** Each control replaces one field of the filter
  record, and the search box keeps its text locally until it is pushed.
- **The edit dialog.** It has a validation schema, default values, and a
  submit that saves and then closes.
- **The detail page.** Its save handler merges the edit into the cached
  single user and into the cached list. The page also decides which view to
  show and when to fetch.
- **The analytics page.** It counts active and inactive users and builds the
  status chart, the headline stats and the seven signup-trend days.

Timestamps are whole days before "now", so a larger offset is an earlier
instant. Strings are `seq<char>`. Lower-casing is ASCII. JavaScript's
truncating `%`, `Array.prototype.slice` index resolution and `Math.ceil`
are written out explicitly.

The remote read is a parameter of every gateway operation: `Success(response)`
or `Failure`. The array sort of the listing page is an in-place insertion
sort (`Sorting.SortInPlace`). It is proved to return a sorted permutation of
its input.

The detail page's two query-cache entries form a class,
`UserDetailPage.DetailPageCache`, whose `SaveUser` method updates both. The
listing page's state is another class, `UsersPage.UsersPageState`.

Modules, one per source file plus shared helpers:

| module | file | models |
|---|---|---|
| `Outcomes` | outcomes.dfy | `Option` (`undefined`) and `Result` |
| `Text` | text.dfy | `toLowerCase`, `includes`, number-to-string, string `<` |
| `Paging` | paging.dfy | `slice`, `Math.ceil(n / size)`, 1-based page windows |
| `UserTypes` | user_types.dfy | the records of `src/types/user.ts`, the status filter |
| `UserEnhancer` | user_enhancer.dfy | `src/utils/userEnhancer.ts` |
| `UserApi` | api.dfy | `src/services/api.ts` |
| `UserOrder` | user_order.dfy | the listing page's comparator and sortedness |
| `Sorting` | sorting.dfy | `Array.prototype.sort(comparator)` on the page's copy |
| `UsersPage` | users_page.dfy | `src/pages/UsersPage.tsx` |
| `FilterPanel` | user_filters.dfy | `src/components/users/UserFilters.tsx` |
| `EditUserModal` | edit_user_modal.dfy | `src/components/users/EditUserModal.tsx` |
| `UserDetailPage` | user_detail_page.dfy | `src/pages/UserDetailPage.tsx` |
| `AnalyticsPage` | analytics_page.dfy | `src/pages/AnalyticsPage.tsx` |

For a negative id `(userId + index) % 8` is negative, so
`activities[actionIndex]` is `undefined` and `.toLowerCase()` throws.
`UserEnhancer.GenerateUserActivities` therefore requires `userId >= 0`.
Every id the gateway's fallback hands out is between 1 and 50.

## Model

| member | source | states |
|---|---|---|
| UserTypes.WithStatus | src/pages/UsersPage.tsx:44-46 | keeps exactly the records with the wanted status, each as many times as the input holds it |
| UserTypes.StatusSplit | src/types/user.ts:10 | every record lands in exactly one of the two status lists, as often as it occurs in the input |
| UserTypes.StatusPartition | src/types/user.ts:10 | the active and the inactive records are disjoint and together are the whole list, counted with multiplicity and by length |
| Text.LowerChar | src/pages/UsersPage.tsx:35 | the result is never an upper-case ASCII letter, and only `A`-`Z` change, each by the fixed case offset |
| Text.Lower | src/pages/UsersPage.tsx:35 | lower-casing keeps the length and maps each character on its own |
| Text.LowerIdempotent | src/pages/UsersPage.tsx:35-40 | lower-casing twice is lower-casing once |
| Text.Contains | src/pages/UsersPage.tsx:38-40 | `includes` holds iff the needle occurs at some position, so the empty needle is always included |
| Text.NatToString | src/utils/userEnhancer.ts:55 | a number is written as a non-empty run of decimal digits with no leading zero; it starts with `0` only for 0 |
| Text.NatToStringRoundTrip | src/utils/userEnhancer.ts:55 | reading the digits back gives the number |
| Text.NatToStringInjective | src/utils/userEnhancer.ts:55 | different numbers are written differently |
| Text.LexLessIrreflexive | src/pages/UsersPage.tsx:60 | no string is less than itself |
| Text.LexLessTransitive | src/pages/UsersPage.tsx:60 | string `<` is transitive |
| Text.LexLessTotal | src/pages/UsersPage.tsx:62 | of two different strings, one is less than the other |
| Paging.ResolveIndex | src/services/api.ts:92 | `slice` index resolution: a non-negative index is clamped to the length, a negative one counts back from the end (floored at 0) |
| Paging.JsSlice | src/services/api.ts:92 | for bounds `0 <= start <= end`, `slice` is the subsequence between the bounds clamped to the length; never longer than the input |
| Paging.PageCount | src/pages/UsersPage.tsx:74 | `Math.ceil(n / size)`: the least page count whose pages hold all `n` items |
| Paging.PageEnd | src/services/api.ts:85-86 | the page window ends between its start and the length, at most `size` past its start |
| Paging.PageOf | src/pages/UsersPage.tsx:69-72 | page `p >= 1` is the items `(p-1)*size .. p*size` clamped to bounds, holds at most `size` items and is empty past the end |
| Paging.ConcatPagesPrefix | src/pages/UsersPage.tsx:69-72 | pages 1..k laid end to end are the first `k*size` items |
| Paging.PagesRebuild | src/pages/UsersPage.tsx:74 | pages 1..ceil(n/size) laid end to end rebuild the list exactly |
| Paging.PagesNonEmptyUpToCount | src/pages/UsersPage.tsx:74 | a page is non-empty iff its number is at most the page count |
| UserEnhancer.JsRem | src/utils/userEnhancer.ts:8 | JavaScript's `%`: differs from the dividend by a multiple of the divisor and takes the dividend's sign, with magnitude below the divisor; for a non-negative dividend it equals the Euclidean remainder |
| UserEnhancer.GetStatus | src/utils/userEnhancer.ts:3-5 | inactive iff the id is divisible by three, active otherwise |
| UserEnhancer.CreatedDaysAgo | src/utils/userEnhancer.ts:7-12 | for `id >= 0` the join day is `(id*7) % 365` days ago, within [0, 365) |
| UserEnhancer.LastActiveDaysAgo | src/utils/userEnhancer.ts:14-19 | for `id >= 0` the last-active day is `(id*3) % 30` days ago, within [0, 30) |
| UserEnhancer.EnhanceUser | src/utils/userEnhancer.ts:21-28 | keeps id, email, names and avatar, and adds status and day offsets that are functions of the id alone |
| UserEnhancer.EnhanceUserInverse | src/utils/userEnhancer.ts:21-28 | a decorated record is the enhancement of its raw fields iff its derived fields match its id |
| UserEnhancer.EnhanceUsers | src/utils/userEnhancer.ts:30-32 | keeps length and order: entry i is the enhancement of input i |
| UserEnhancer.EnhanceUsersFaithful | src/utils/userEnhancer.ts:30-32 | every output record's raw fields are the input record's at the same index, and every output record is consistently derived |
| UserEnhancer.EnhanceUsersSlice | src/utils/userEnhancer.ts:30-32 | enhancing a window equals taking the window of the enhanced list |
| UserEnhancer.GenerateUserActivities | src/utils/userEnhancer.ts:34-61 | exactly 5 entries; entry i has label `(userId+i) % 8`, id `activity-{userId}-{i}`, offset `2*i` days and description "User performed {lower(action)} action" |
| UserEnhancer.ActivityIdsDistinct | src/utils/userEnhancer.ts:55 | entry ids of one log are pairwise distinct |
| UserEnhancer.ActionLabelsDistinct | src/utils/userEnhancer.ts:35-44 | the eight action labels are pairwise different |
| UserEnhancer.ActivityActionsDistinct | src/utils/userEnhancer.ts:52 | no action repeats within one log |
| UserEnhancer.ActivitiesNewestFirst | src/utils/userEnhancer.ts:47 | the log runs newest first, two days apart |
| UserEnhancer.DescriptionMentionsAction | src/utils/userEnhancer.ts:58 | each description contains its action lower-cased |
| UserEnhancer.StatusExamples | src/utils/userEnhancer.ts:3-5 | ids 3 and 0 are inactive, 4 is active; id 0 joined and was last active today |
| UserApi.MockUsersShape | src/services/api.ts:20-71 | the table has 50 records, record i has id i+1 and avatar `img={i+1}`, and ids are distinct |
| UserApi.FindById | src/services/api.ts:103 | `find`: absent iff no record has the id, otherwise the first record with it |
| UserApi.GetUsers | src/services/api.ts:74-95 | success passes the paging fields through and enhances the data; failure echoes page and per-page size, reports total 50 and `ceil(50/perPage)` pages, and returns the enhanced `slice` of the table |
| UserApi.GetUsersFallbackWindow | src/services/api.ts:85-92 | for page, perPage >= 1 the fallback data is window `(page-1)*perPage .. page*perPage` of the enhanced table, at most perPage long, empty past the end |
| UserApi.FallbackPagesMakeAllUsers | src/services/api.ts:85-92 | fallback pages 1..k laid end to end are the enhancement of the table's first k pages |
| UserApi.FallbackPagingCoversAll | src/services/api.ts:91-92 | paging through all `total_pages` fallback pages yields exactly `getAllUsers`' fallback, with nothing lost or repeated |
| UserApi.EnhanceUsersConcat | src/services/api.ts:92 | enhancing a concatenation is concatenating the enhancements |
| UserApi.GetUserById | src/services/api.ts:97-109 | success returns the enhanced remote record; the fallback returns a table record with that id, or fails with "User not found" only when no record has it |
| UserApi.GetUserByIdFallback | src/services/api.ts:102-107 | the fallback succeeds iff 1 <= id <= 50, and then returns table record id-1 enhanced |
| UserApi.GetUserByIdMissing | src/services/api.ts:104-106 | looking up 999 in the fallback fails with "User not found" |
| UserApi.GetAllUsers | src/services/api.ts:111-123 | success returns the response data enhanced in order; failure returns the whole table enhanced in id order |
| UserApi.EveryPathEnhanced | src/services/api.ts:74-123 | every record returned on every path carries the status and day offsets of its id |
| UserApi.InactiveAmongConsecutive | src/utils/userEnhancer.ts:3-5 | among consecutive ids, the inactive count is the number of multiples of three in the range |
| UserApi.AllUsersFallbackStatusCounts | src/services/api.ts:119-121 | the fallback list has 50 users: 16 inactive (multiples of three) and 34 active |
| UserOrder.KeyTrichotomy | src/pages/UsersPage.tsx:48-57 | of two users, exactly one of less, same or greater key holds |
| UserOrder.KeyLessTransitive | src/pages/UsersPage.tsx:48-57 | the key order is transitive |
| UserOrder.Compare | src/pages/UsersPage.tsx:59-63 | the tie-aware comparator answers 0 iff the keys are equal, and otherwise +1 or -1 |
| UserOrder.CompareAntisymmetric | src/pages/UsersPage.tsx:59-63 | swapping the arguments of the tie-aware comparator negates its answer |
| UserOrder.CompareAgreesOffTies | src/pages/UsersPage.tsx:59-63 | the page's comparator and the tie-aware one agree whenever the keys differ |
| UserOrder.SourceCompareTieInconsistent | src/pages/UsersPage.tsx:59-63 | on equal keys the page's comparator answers -1 both ways round, so it is not antisymmetric |
| UserOrder.SourceCompareTieWitness | src/pages/UsersPage.tsx:59-63 | two users both named "Rahul Sharma" each come before the other under the page's comparator |
| UserOrder.InOrderTotal | src/pages/UsersPage.tsx:48-64 | of any two users, one may stand before the other |
| UserOrder.InOrderTransitive | src/pages/UsersPage.tsx:48-64 | "may stand before" is transitive |
| UserOrder.InOrderReversed | src/pages/UsersPage.tsx:59-63 | descending order is ascending order with the arguments swapped |
| UserOrder.SortedUnique | src/pages/UsersPage.tsx:48-64 | when no two different records share a key, a list has only one sorted arrangement |
| UserOrder.Reverse | src/pages/UsersPage.tsx:59-63 | reversal keeps length and elements, entry i being entry n-1-i |
| UserOrder.SortDirectionsMirror | src/pages/UsersPage.tsx:59-63 | when keys identify records, the descending sort is exactly the ascending sort read backwards |
| Sorting.SinkLast | src/pages/UsersPage.tsx:48 | one insertion step: the first i+1 elements become sorted, the rest is untouched, and the elements are only permuted |
| Sorting.SortInPlace | src/pages/UsersPage.tsx:48-64 | `sort` in place with a total preorder: the array ends sorted and is a permutation of what it held |
| UsersPage.KeepMatchingSearch | src/pages/UsersPage.tsx:36-41 | keeps exactly the records the search matches, each as many times as the input holds it |
| UsersPage.SearchStep | src/pages/UsersPage.tsx:34-42 | an empty search keeps the list unchanged; otherwise a record is kept, with all its copies, iff the lower-cased query occurs in the lower-cased first name, last name or email |
| UsersPage.StatusStep | src/pages/UsersPage.tsx:44-46 | 'all' keeps the list unchanged; otherwise exactly the records with that status are kept, with all their copies |
| UsersPage.Matching | src/pages/UsersPage.tsx:31-46 | a record is kept iff it passes both filters, and then as many times as the input holds it |
| UsersPage.ComparatorIsTotalPreorder | src/pages/UsersPage.tsx:48-64 | the page's ordering is total and transitive, so sorting with it is well defined up to ties |
| UsersPage.FilteredUsers | src/pages/UsersPage.tsx:31-67 | the result is sorted by the chosen key and direction and is a permutation of the filtered records: a sub-multiset of the input holding exactly the records that pass |
| UsersPage.PaginatedUsers | src/pages/UsersPage.tsx:69-72 | page p >= 1 is `filtered[(p-1)*6 .. p*6)` clamped, at most 6 records, empty past the end |
| UsersPage.TotalPages | src/pages/UsersPage.tsx:74 | `ceil(n/6)`: the least page count whose pages hold all results |
| UsersPage.PagesRebuildFiltered | src/pages/UsersPage.tsx:69-74 | pages 1..totalPages laid end to end rebuild the filtered list exactly |
| UsersPage.PaginationShownIffPages | src/pages/UsersPage.tsx:201 | the pagination bar is shown iff there is at least one page, iff page 1 is non-empty |
| UsersPage.PageEmptyIffPastCount | src/pages/UsersPage.tsx:69-74 | the current page shows nothing iff its number exceeds the page count |
| UsersPage.ThirteenMatches | src/pages/UsersPage.tsx:69-74 | 13 results make 3 pages, the third holding only the 13th record and the fourth empty |
| UsersPage.SearchIgnoresCase | src/pages/UsersPage.tsx:35-40 | a query and its lower-cased form match the same records |
| UsersPage.EmptySearchKeepsAll | src/pages/UsersPage.tsx:34-46 | with an empty search and status 'all', every record passes, in input order |
| UsersPage.StatusFiltersPartition | src/pages/UsersPage.tsx:44-46 | for any search, the 'active' and 'inactive' results are disjoint and together make the 'all' result |
| UsersPage.ToggleSort | src/pages/UsersPage.tsx:189-197 | a header click sorts by that key; the order becomes descending iff that key was already ascending; search and status are kept |
| UsersPage.ToggleSortAlternates | src/pages/UsersPage.tsx:189-197 | repeated clicks on the same header alternate the direction and change nothing else |
| UsersPage.UsersPageState.constructor | src/pages/UsersPage.tsx:17-23 | the page starts with an empty search, all statuses, by name ascending, on page 1 |
| UsersPage.UsersPageState.OnSort | src/pages/UsersPage.tsx:189-197 | a header click replaces the filters by the toggled record and keeps the page number |
| UsersPage.UsersPageState.OnFiltersChange | src/pages/UsersPage.tsx:181 | the filter panel replaces the filter record; the page number is not reset |
| UsersPage.UsersPageState.OnPageChange | src/pages/UsersPage.tsx:205 | the pagination bar sets the page number and keeps the filters |
| FilterPanel.OnStatusChange | src/components/users/UserFilters.tsx:54-59 | replaces only the status |
| FilterPanel.OnSortByChange | src/components/users/UserFilters.tsx:70-75 | replaces only the sort key |
| FilterPanel.OnSortOrderChange | src/components/users/UserFilters.tsx:84-89 | replaces only the sort direction |
| FilterPanel.PushSearch | src/components/users/UserFilters.tsx:17 | sets the search to the box's text and copies the other fields |
| FilterPanel.ControlsCommute | src/components/users/UserFilters.tsx:54-89 | controls that touch different fields give the same record in either order |
| FilterPanel.ControlsLastWins | src/components/users/UserFilters.tsx:54-89 | re-selecting the current value changes nothing, and of two status choices the last wins |
| FilterPanel.SearchBox.constructor | src/components/users/UserFilters.tsx:13 | the box's text starts as the record's search |
| FilterPanel.SearchBox.OnInput | src/components/users/UserFilters.tsx:41 | a keystroke replaces the box's text |
| FilterPanel.SearchBox.Pushed | src/components/users/UserFilters.tsx:15-21 | the pushed record has the box's text as search and the current status, sort key and direction |
| FilterPanel.FirstPushIsNoOp | src/components/users/UserFilters.tsx:13-21 | the push made before any typing hands back the record unchanged |
| EditUserModal.Message | src/components/users/EditUserModal.tsx:11-12 | each name error carries its fixed text ("First name must be at least 2 characters", "Last name must be at least 2 characters"); the status error has none of its own |
| EditUserModal.ParseStatus | src/components/users/EditUserModal.tsx:13 | only "active" and "inactive" parse, each back to its own name |
| EditUserModal.StatusNameRoundTrip | src/components/users/EditUserModal.tsx:13 | every status's select value parses back to that status |
| EditUserModal.Errors | src/components/users/EditUserModal.tsx:10-14 | no errors iff the form is valid; each error is reported iff its check fails, at most once |
| EditUserModal.DefaultValues | src/components/users/EditUserModal.tsx:32-36 | the form opens on the user's names and status |
| EditUserModal.DefaultsValidIff | src/components/users/EditUserModal.tsx:10-36 | saving the untouched form passes iff both stored names have at least 2 characters |
| EditUserModal.FormPatch | src/components/users/EditUserModal.tsx:16 | the saved patch holds the two names and the status and nothing else |
| EditUserModal.OnSubmit | src/components/users/EditUserModal.tsx:39-43 | an invalid form does nothing; a valid one saves the patch and then closes, in that order |
| EditUserModal.OnCancel | src/components/users/EditUserModal.tsx:71 | cancel closes without saving |
| EditUserModal.SubmitNeverTouchesIdentity | src/components/users/EditUserModal.tsx:39-43 | no submit ever asks to change id, email, avatar or the day offsets |
| UserDetailPage.Merge | src/pages/UserDetailPage.tsx:30-33 | every field present in the patch overrides the record's; every absent one is kept |
| UserDetailPage.MergeLaws | src/pages/UserDetailPage.tsx:30-33 | an empty patch changes nothing; merging the same patch twice equals merging it once |
| UserDetailPage.SavedEditKeepsIdentity | src/pages/UserDetailPage.tsx:29-33 | a saved edit sets the names and status from the form and keeps id, email, avatar and the day offsets |
| UserDetailPage.MergeMatching | src/pages/UserDetailPage.tsx:35-37 | the list keeps its length and order; records with the route's id are merged, every other record is unchanged |
| UserDetailPage.MergeKeepsCopiesEqual | src/pages/UserDetailPage.tsx:29-37 | when the list's copies of the routed user equal the single-user entry, they still do after both take the same patch |
| UserDetailPage.DetailPageCache.constructor | src/pages/UserDetailPage.tsx:21-25 | the cache holds the route's number, the single-user entry and the list entry given |
| UserDetailPage.DetailPageCache.SaveUser | src/pages/UserDetailPage.tsx:29-38 | merges the patch into the single-user entry and the routed list records, leaves an absent list absent, and keeps the two entries coherent |
| UserDetailPage.Activities | src/pages/UserDetailPage.tsx:27 | the loaded user's generated log, or nothing when no user is loaded |
| UserDetailPage.TotalActions | src/pages/UserDetailPage.tsx:179 | "Total Actions" is 5 for a loaded user and 0 otherwise |
| UserDetailPage.SelectView | src/pages/UserDetailPage.tsx:58-96 | exactly one view: loading first, then "User not found" with no user, then the detail view of the loaded user |
| UserDetailPage.FetchEnabled | src/pages/UserDetailPage.tsx:24 | the fetch runs iff the route id is present and non-empty |
| AnalyticsPage.ActiveCount | src/pages/AnalyticsPage.tsx:35 | the number of active users, at most the total |
| AnalyticsPage.InactiveCount | src/pages/AnalyticsPage.tsx:36 | the number of inactive users, at most the total |
| AnalyticsPage.CountsAddUp | src/pages/AnalyticsPage.tsx:35-36 | active plus inactive is the number of users |
| AnalyticsPage.StatusData | src/pages/AnalyticsPage.tsx:38-41 | two slices, Active then Inactive, carrying the two counts |
| AnalyticsPage.StatusDataCoversAll | src/pages/AnalyticsPage.tsx:38-41 | the two slices add up to all users |
| AnalyticsPage.Stats | src/pages/AnalyticsPage.tsx:43-65 | three stats: total users, active users, and the fixed growth rate "+12.5%" |
| AnalyticsPage.ActiveWithinTotal | src/pages/AnalyticsPage.tsx:45-53 | the active-users figure never exceeds the total |
| AnalyticsPage.SignupTrendDaysAgo | src/pages/AnalyticsPage.tsx:26-28 | seven points, point i dated 6-i days ago |
| AnalyticsPage.SignupTrendChronological | src/pages/AnalyticsPage.tsx:26-28 | the trend runs oldest first and ends today |
| AnalyticsPage.FallbackFigures | src/pages/AnalyticsPage.tsx:35-53 | with the directory unreachable the page shows 50 users, 34 active and 16 inactive |

## Left out

- HTTP transport is not modelled: the axios instance, base URL, 10-second timeout and console logging. Each remote read is an input, `Success(response)` or `Failure`, and any failure takes the fallback path.
- Query caching, retries, refetching, routing, React hooks and rendering are not modelled. The detail page's cache is reduced to its two entries.
- Wall-clock and locale formatting are not modelled: `new Date()`, `setDate`, `toISOString` and `toLocaleDateString`. Dates are integer day offsets. The sort by join date compares instants as `-daysAgo`, which agrees with comparing the ISO timestamps built on one day.
- `Math.random` values are not modelled: the activity hour of day, the three detail-page counters and the signup counts.
- The 300 ms search debounce is not modelled. Timers are outside the model, so `FilterPanel.SearchBox.Pushed` is the record a settled push hands over. A late timer reverting a concurrent status or sort change is not captured.
- The 500 ms simulated save delay is not modelled.
- `Number(id)` on the route parameter is an input: `routeNum` is `Some(n)` for a numeric id and `None` for one that is not a number.
- Lower-casing is ASCII only. Full Unicode `toLowerCase` is not modelled.
- Strings are sequences of Unicode scalar values, not of UTF-16 code units. For characters outside the Basic Multilingual Plane the model's string lengths (the edit schema's `min(2)` on names) and string `<` (the name sort) differ from JavaScript's: such a character counts as one character, not two, and compares by its scalar value, not by its leading surrogate.
- UsersPage.FilteredUsers: it sorts with the tie-aware comparator `UserOrder.Compare` instead of the page's own comparator. It agrees with the page's comparator whenever keys differ (`UserOrder.CompareAgreesOffTies`). The order among records with equal keys is left unspecified, as it is for the page's comparator (see Findings).
- UserApi.GetUsers: the fallback requires `perPage >= 1`. With `perPage = 0` the source reports `Infinity` pages, which has no integer counterpart. A negative `perPage` is excluded too; for it the source reports a negative `total_pages` and returns whatever `slice` gives for the reversed bounds. Negative and zero page numbers are modelled, through `slice`'s negative-index resolution.
- UserEnhancer.GenerateUserActivities: it requires `userId >= 0`. For a negative id the source indexes the label list with a negative remainder and throws.
- UserDetailPage.Activities: it requires the loaded user's id to be `>= 0`, inherited from `UserEnhancer.GenerateUserActivities`.
- UserDetailPage.TotalActions: it requires the loaded user's id to be `>= 0`, inherited from `UserEnhancer.GenerateUserActivities`.
- UserDetailPage.DetailPageCache.SaveUser: it requires the single-user entry to be loaded. The edit dialog is only reachable from the detail view, which is shown only for a loaded user.
- EditUserModal.Message: the schema library's own message for an invalid status is not modelled.
- The fallback table is written as ten five-record chunks, and each avatar is written as the common URL prefix followed by the number. This lets each chunk be checked row by row. `UserApi.MockUsersShape` states the shape of the whole table.
- Chart colours, icons, CSS classes, the loading skeletons and the presentational components are not modelled.
- Default parameters (`page = 1`, `perPage = 6`) are not modelled. Every gateway call passes both arguments explicitly.

## Findings

| source | as written | input that shows it | evidently intended | confidence | as-written member | corrected member |
|---|---|---|---|---|---|---|
| src/pages/UsersPage.tsx:59-63 | the comparator returns `aValue > bValue ? 1 : -1` (and the mirror for descending), so it never returns 0 and answers -1 both ways round for equal keys; `Array.prototype.sort` then has an implementation-defined order | two users both named "Rahul Sharma": each compares as coming before the other | a consistent comparator that returns 0 on equal keys, so that sorting is well defined and ties keep a defined relative order | medium (not executed) | UserOrder.SourceCompareTieWitness | UserOrder.CompareAntisymmetric |
