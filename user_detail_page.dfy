/**
 * The detail page of one user: which view it shows, when it fetches, the
 * activity list, and the save handler that writes an edit into the two
 * cached query results (the single user and the full list).
 */
module UserDetailPage {
  import opened Outcomes
  import opened UserTypes
  import opened UserEnhancer
  import opened EditUserModal

  /** `{ ...u, ...data }`: every field present in the patch overrides the record's. */
  function Merge(u: UserWithStatus, p: UserPatch): (r: UserWithStatus)
    ensures r.id == p.id.GetOr(u.id) && r.email == p.email.GetOr(u.email)
    ensures r.firstName == p.firstName.GetOr(u.firstName) && r.lastName == p.lastName.GetOr(u.lastName)
    ensures r.avatar == p.avatar.GetOr(u.avatar) && r.status == p.status.GetOr(u.status)
    ensures r.createdDaysAgo == p.createdDaysAgo.GetOr(u.createdDaysAgo)
    ensures r.lastActiveDaysAgo == p.lastActiveDaysAgo.GetOr(u.lastActiveDaysAgo)
  {
    UserWithStatus(
      p.id.GetOr(u.id), p.email.GetOr(u.email), p.firstName.GetOr(u.firstName), p.lastName.GetOr(u.lastName),
      p.avatar.GetOr(u.avatar), p.status.GetOr(u.status), p.createdDaysAgo.GetOr(u.createdDaysAgo),
      p.lastActiveDaysAgo.GetOr(u.lastActiveDaysAgo))
  }

  const EmptyPatch := UserPatch(None, None, None, None, None, None, None, None)

  /** An empty patch changes nothing, and saving the same patch twice is the same as once. */
  lemma MergeLaws(u: UserWithStatus, p: UserPatch)
    ensures Merge(u, EmptyPatch) == u
    ensures Merge(Merge(u, p), p) == Merge(u, p)
  {
  }

  /** A saved edit changes the names and status and keeps id, email, avatar and the dates. */
  lemma SavedEditKeepsIdentity(u: UserWithStatus, form: FormData)
    requires Valid(form)
    ensures var r := Merge(u, FormPatch(form));
            && r.id == u.id && r.email == u.email && r.avatar == u.avatar
            && r.createdDaysAgo == u.createdDaysAgo && r.lastActiveDaysAgo == u.lastActiveDaysAgo
            && r.firstName == form.firstName && r.lastName == form.lastName
            && StatusName(r.status) == form.status
  {
  }

  /** The route id matches a record: `u.id === Number(id)`, where `None` stands for a non-numeric id. */
  predicate MatchesRoute(u: UserWithStatus, routeNum: Option<int>) {
    routeNum == Some(u.id)
  }

  /** The list updater: merge the patch into every record with the route's id. */
  function MergeMatching(list: seq<UserWithStatus>, routeNum: Option<int>, p: UserPatch): (r: seq<UserWithStatus>)
    ensures |r| == |list|
    ensures forall i :: 0 <= i < |list| && MatchesRoute(list[i], routeNum) ==> r[i] == Merge(list[i], p)
    ensures forall i :: 0 <= i < |list| && !MatchesRoute(list[i], routeNum) ==> r[i] == list[i]
  {
    seq(|list|, i requires 0 <= i < |list| => if MatchesRoute(list[i], routeNum) then Merge(list[i], p) else list[i])
  }

  /**
   * If every listed copy of the routed user equals the single-user entry,
   * the same holds after both entries take the same patch.
   */
  lemma MergeKeepsCopiesEqual(list: seq<UserWithStatus>, routeNum: Option<int>, user: UserWithStatus, p: UserPatch)
    requires forall v :: v in list && MatchesRoute(v, routeNum) ==> v == user
    ensures forall i :: 0 <= i < |list| && MatchesRoute(list[i], routeNum) ==> MergeMatching(list, routeNum, p)[i] == Merge(user, p)
  {
  }

  /** The two query-cache entries the page reads and writes. */
  class DetailPageCache {
    /** `Number(id)` for the route's id. */
    const routeNum: Option<int>
    /** The `['user', id]` entry. */
    var user: Option<UserWithStatus>
    /** The `['users']` entry; `None` when no page has loaded the list. */
    var users: Option<seq<UserWithStatus>>

    constructor (routeNum: Option<int>, user: Option<UserWithStatus>, users: Option<seq<UserWithStatus>>)
      ensures this.routeNum == routeNum && this.user == user && this.users == users
    {
      this.routeNum := routeNum;
      this.user := user;
      this.users := users;
    }

    /** Every copy of the routed user in the list equals the single-user entry. */
    predicate Coherent()
      reads this
    {
      user.Some? && users.Some? ==> forall v :: v in users.value && MatchesRoute(v, routeNum) ==> v == user.value
    }

    /**
     * `handleSaveUser`: merges the patch into the single-user entry and into
     * the routed records of the list; an absent list stays absent.
     */
    method SaveUser(data: UserPatch)
      requires user.Some?
      modifies this
      ensures user == Some(Merge(old(user).value, data))
      ensures old(users).None? ==> users.None?
      ensures old(users).Some? ==> users == Some(MergeMatching(old(users).value, routeNum, data))
      ensures old(Coherent()) ==> Coherent()
    {
      var before := users;
      user := Some(Merge(user.value, data));
      if users.Some? {
        users := Some(MergeMatching(users.value, routeNum, data));
      }
      if old(Coherent()) && before.Some? {
        MergeKeepsCopiesEqual(before.value, routeNum, old(user).value, data);
        forall v | v in users.value && MatchesRoute(v, routeNum)
          ensures v == user.value
        {
          var i :| 0 <= i < |users.value| && users.value[i] == v;
        }
      }
    }
  }

  /** `activities`: the generated log of the loaded user, or nothing. */
  function Activities(user: Option<UserWithStatus>): (r: seq<UserActivity>)
    requires user.Some? ==> user.value.id >= 0
    ensures user.None? ==> r == []
    ensures user.Some? ==> r == GenerateUserActivities(user.value.id)
  {
    if user.Some? then GenerateUserActivities(user.value.id) else []
  }

  /** "Total Actions" is 5 for a loaded user and 0 otherwise. */
  lemma TotalActions(user: Option<UserWithStatus>)
    requires user.Some? ==> user.value.id >= 0
    ensures |Activities(user)| == if user.Some? then ActivityCount else 0
  {
  }

  datatype View = Loading | NotFound | Detail(user: UserWithStatus)

  /** Loading wins, then "User not found" when nothing came back, else the detail view. */
  function SelectView(isLoading: bool, user: Option<UserWithStatus>): (v: View)
    ensures v.Loading? <==> isLoading
    ensures v.NotFound? <==> !isLoading && user.None?
    ensures v.Detail? <==> !isLoading && user.Some?
    ensures v.Detail? ==> v.user == user.value
  {
    if isLoading then Loading
    else if user.None? then NotFound
    else Detail(user.value)
  }

  /** `enabled: !!id`: the fetch runs only for a present, non-empty route id. */
  function FetchEnabled(id: Option<string>): (r: bool)
    ensures r <==> id.Some? && |id.value| > 0
  {
    match id
    case None => false
    case Some(s) => s != ""
  }
}
