/**
 * The records of the dashboard: a raw user as the directory serves it, the
 * decorated user the pages work on, the filter record of the listing page,
 * an activity-log entry, and a partial user as the edit flow saves it.
 * Timestamps are whole days before "now" (0 is today).
 */
module UserTypes {
  import opened Outcomes

  datatype Status = Active | Inactive

  /** A user as the remote directory (or the embedded fallback data) serves it. */
  datatype User = User(id: int, email: string, firstName: string, lastName: string, avatar: string)

  /** A user with the derived status, join day and last-active day. */
  datatype UserWithStatus = UserWithStatus(
    id: int,
    email: string,
    firstName: string,
    lastName: string,
    avatar: string,
    status: Status,
    createdDaysAgo: int,
    lastActiveDaysAgo: int)

  /** The status select of the listing page: 'all', 'active' or 'inactive'. */
  datatype StatusFilter = All | Only(wanted: Status)

  datatype SortKey = Name | CreatedAt

  datatype SortOrder = Asc | Desc

  datatype UserFilters = UserFilters(search: string, status: StatusFilter, sortBy: SortKey, sortOrder: SortOrder)

  /** One entry of the synthetic activity log; `daysAgo` replaces the timestamp. */
  datatype UserActivity = UserActivity(id: string, action: string, daysAgo: int, description: string)

  /** `Partial<UserWithStatus>`: each field may be present or absent. */
  datatype UserPatch = UserPatch(
    id: Option<int>,
    email: Option<string>,
    firstName: Option<string>,
    lastName: Option<string>,
    avatar: Option<string>,
    status: Option<Status>,
    createdDaysAgo: Option<int>,
    lastActiveDaysAgo: Option<int>)

  /** `users.filter(u => u.status === wanted)`, used by the listing and analytics pages. */
  function WithStatus(users: seq<UserWithStatus>, wanted: Status): (r: seq<UserWithStatus>)
    ensures |r| <= |users|
    ensures multiset(r) <= multiset(users)
    ensures forall u :: u in r <==> u in users && u.status == wanted
    ensures forall u :: multiset(r)[u] == if u.status == wanted then multiset(users)[u] else 0
  {
    if |users| == 0 then []
    else
      var rest := WithStatus(users[1..], wanted);
      assert users == [users[0]] + users[1..];
      if users[0].status == wanted then [users[0]] + rest else rest
  }

  /** The first user's share of the split: itself in the list of its own status, nothing in the other. */
  function Keep(u: UserWithStatus, wanted: Status): seq<UserWithStatus> {
    if u.status == wanted then [u] else []
  }

  lemma WithStatusUnfold(users: seq<UserWithStatus>, wanted: Status)
    requires |users| > 0
    ensures WithStatus(users, wanted) == Keep(users[0], wanted) + WithStatus(users[1..], wanted)
  {
    var rest := WithStatus(users[1..], wanted);
    if users[0].status == wanted {
      assert WithStatus(users, wanted) == [users[0]] + rest;
    } else {
      assert WithStatus(users, wanted) == rest;
      assert Keep(users[0], wanted) + rest == rest;
    }
  }

  /** Splitting the first element and the rest separately splits the whole list. */
  lemma SplitCons<T>(s: seq<T>, h1: seq<T>, h2: seq<T>, t1: seq<T>, t2: seq<T>)
    requires |s| > 0
    requires multiset(h1) + multiset(h2) == multiset{s[0]}
    requires multiset(t1) + multiset(t2) == multiset(s[1..])
    ensures multiset(h1 + t1) + multiset(h2 + t2) == multiset(s)
  {
    assert s == [s[0]] + s[1..];
  }

  /** Every user lands in exactly one of the two status lists, as often as in the input. */
  lemma {:induction false} StatusSplit(users: seq<UserWithStatus>)
    ensures multiset(WithStatus(users, Active)) + multiset(WithStatus(users, Inactive)) == multiset(users)
  {
    if |users| > 0 {
      StatusSplit(users[1..]);
      WithStatusUnfold(users, Active);
      WithStatusUnfold(users, Inactive);
      SplitCons(users, Keep(users[0], Active), Keep(users[0], Inactive), WithStatus(users[1..], Active), WithStatus(users[1..], Inactive));
    }
  }

  /** The active and the inactive users split the list: no one is in both, no one is in neither. */
  lemma StatusPartition(users: seq<UserWithStatus>)
    ensures multiset(WithStatus(users, Active)) + multiset(WithStatus(users, Inactive)) == multiset(users)
    ensures |WithStatus(users, Active)| + |WithStatus(users, Inactive)| == |users|
    ensures multiset(WithStatus(users, Active)) !! multiset(WithStatus(users, Inactive))
  {
    var active, inactive := WithStatus(users, Active), WithStatus(users, Inactive);
    StatusSplit(users);
    assert |multiset(active) + multiset(inactive)| == |multiset(users)|;
    forall u | u in multiset(active)
      ensures u !in multiset(inactive)
    {
      assert u in active;
    }
  }
}
