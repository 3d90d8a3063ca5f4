/**
 * The record enhancer: status, join day and last-active day derived from the
 * numeric id alone, the element-wise enhancement of a list, and the
 * five-entry synthetic activity log of a user.
 */
module UserEnhancer {
  import opened UserTypes
  import opened Text

  /** JavaScript's `a % b` for `b > 0`: truncating, so the remainder takes the sign of `a`. */
  function JsRem(a: int, b: int): (r: int)
    requires b > 0
    ensures (a - r) % b == 0
    ensures a >= 0 ==> 0 <= r < b
    ensures a < 0 ==> -b < r <= 0
    ensures a >= 0 ==> r == a % b
  {
    if a >= 0 then
      var q, m := a / b, a % b;
      assert a == q * b + m;
      MultipleMod(q, b);
      assert a - m == q * b;
      m
    else
      var n := -a;
      var q, m := n / b, n % b;
      assert n == q * b + m;
      MultipleMod(-q, b);
      assert a - -m == (-q) * b;
      -m
  }

  lemma MultipleMod(k: int, b: int)
    requires b > 0
    ensures (k * b) % b == 0
  {
    var x := k * b;
    assert x == (x / b) * b + x % b;
    assert (k - x / b) * b == x % b;
    if k - x / b > 0 {
      MulAtLeast(k - x / b, b);
    } else if k - x / b < 0 {
      MulAtLeast(x / b - k, b);
    }
  }

  lemma MulAtLeast(m: int, b: int)
    requires m >= 1 && b > 0
    ensures m * b >= b
  {
  }

  /** `getStatus`: every third id is inactive. */
  function GetStatus(id: int): (s: Status)
    ensures s == Inactive <==> id % 3 == 0
  {
    if JsRem(id, 3) == 0 then Inactive else Active
  }

  /** `getCreatedDate` as a day offset: `(id * 7) % 365` days ago. */
  function CreatedDaysAgo(id: int): (d: int)
    ensures id >= 0 ==> 0 <= d < 365 && d == (id * 7) % 365
  {
    JsRem(id * 7, 365)
  }

  /** `getLastActiveDate` as a day offset: `(id * 3) % 30` days ago. */
  function LastActiveDaysAgo(id: int): (d: int)
    ensures id >= 0 ==> 0 <= d < 30 && d == (id * 3) % 30
  {
    JsRem(id * 3, 30)
  }

  /** A decorated user whose derived fields are the ones its id determines. */
  predicate IsEnhanced(u: UserWithStatus) {
    && u.status == GetStatus(u.id)
    && u.createdDaysAgo == CreatedDaysAgo(u.id)
    && u.lastActiveDaysAgo == LastActiveDaysAgo(u.id)
  }

  /** The raw fields of a decorated user (the `User` it extends). */
  function BaseUser(u: UserWithStatus): User {
    User(u.id, u.email, u.firstName, u.lastName, u.avatar)
  }

  /** `enhanceUser`: the raw record spread, plus the three derived fields. */
  function EnhanceUser(u: User): (r: UserWithStatus)
    ensures BaseUser(r) == u
    ensures IsEnhanced(r)
  {
    UserWithStatus(u.id, u.email, u.firstName, u.lastName, u.avatar,
      GetStatus(u.id), CreatedDaysAgo(u.id), LastActiveDaysAgo(u.id))
  }

  /** A decorated record is an enhanced raw record exactly when its derived fields match its id. */
  lemma EnhanceUserInverse(w: UserWithStatus)
    ensures EnhanceUser(BaseUser(w)) == w <==> IsEnhanced(w)
  {
  }

  /** `enhanceUsers`: `users.map(enhanceUser)`. */
  function EnhanceUsers(users: seq<User>): (r: seq<UserWithStatus>)
    ensures |r| == |users|
    ensures forall i :: 0 <= i < |users| ==> r[i] == EnhanceUser(users[i])
  {
    seq(|users|, i requires 0 <= i < |users| => EnhanceUser(users[i]))
  }

  /** Enhancing a list keeps every raw record, in order, and decorates each consistently. */
  lemma EnhanceUsersFaithful(users: seq<User>)
    ensures forall i :: 0 <= i < |users| ==> BaseUser(EnhanceUsers(users)[i]) == users[i]
    ensures forall w :: w in EnhanceUsers(users) ==> IsEnhanced(w)
  {
  }

  /** Enhancing commutes with slicing: the enhanced window is the window of the enhanced list. */
  lemma EnhanceUsersSlice(users: seq<User>, lo: nat, hi: nat)
    requires lo <= hi <= |users|
    ensures EnhanceUsers(users[lo..hi]) == EnhanceUsers(users)[lo..hi]
  {
  }

  /** The eight action labels of the activity log, in order. */
  const ActionLabels: seq<string> := [
    "Logged in",
    "Updated profile",
    "Changed password",
    "Uploaded document",
    "Shared file",
    "Commented on post",
    "Created report",
    "Downloaded data"
  ]

  const ActivityCount := 5

  /** The id of entry `index` of user `userId`: `activity-{userId}-{index}`. */
  function ActivityId(userId: nat, index: nat): string {
    "activity-" + NatToString(userId) + "-" + NatToString(index)
  }

  function ActivityDescription(action: string): string {
    "User performed " + Lower(action) + " action"
  }

  /**
   * `generateUserActivities` without the random hour of day: entry `index`
   * is `2 * index` days ago and takes label `(userId + index) % 8`.
   */
  function GenerateUserActivities(userId: int): (r: seq<UserActivity>)
    requires userId >= 0
    ensures |r| == ActivityCount
    ensures forall i :: 0 <= i < |r| ==>
      && r[i].action in ActionLabels
      && r[i].action == ActionLabels[(userId + i) % |ActionLabels|]
      && r[i].id == ActivityId(userId, i)
      && r[i].daysAgo == 2 * i
      && r[i].description == ActivityDescription(r[i].action)
  {
    seq(ActivityCount, index requires 0 <= index < ActivityCount => Activity(userId, index))
  }

  /** Entry `index` of the log of user `userId`. */
  function Activity(userId: int, index: nat): (a: UserActivity)
    requires userId >= 0
    ensures a.action == ActionLabels[(userId + index) % |ActionLabels|]
    ensures a.id == ActivityId(userId, index) && a.daysAgo == 2 * index
    ensures a.description == ActivityDescription(a.action)
  {
    var action := ActionLabels[JsRem(userId + index, |ActionLabels|)];
    UserActivity(ActivityId(userId, index), action, 2 * index, ActivityDescription(action))
  }

  /** Within one log the entry ids are pairwise distinct. */
  lemma ActivityIdsDistinct(userId: nat, i: nat, j: nat)
    requires i < ActivityCount && j < ActivityCount
    requires GenerateUserActivities(userId)[i].id == GenerateUserActivities(userId)[j].id
    ensures i == j
  {
    var prefix := "activity-" + NatToString(userId) + "-";
    assert ActivityId(userId, i) == prefix + NatToString(i);
    assert ActivityId(userId, j) == prefix + NatToString(j);
    assert NatToString(i) == ActivityId(userId, i)[|prefix|..];
    assert NatToString(j) == ActivityId(userId, j)[|prefix|..];
    NatToStringInjective(i, j);
  }

  /** The eight labels are pairwise different. */
  lemma ActionLabelsDistinct()
    ensures forall p, q :: 0 <= p < q < |ActionLabels| ==> ActionLabels[p] != ActionLabels[q]
  {
  }

  /** Within one log no action repeats: five consecutive positions modulo eight are distinct. */
  lemma ActivityActionsDistinct(userId: nat, i: nat, j: nat)
    requires i < j < ActivityCount
    ensures GenerateUserActivities(userId)[i].action != GenerateUserActivities(userId)[j].action
  {
    var r := GenerateUserActivities(userId);
    var p, q := (userId + i) % 8, (userId + j) % 8;
    assert p != q by {
      assert (userId + j) - (userId + i) == j - i;
      assert 0 < j - i < 8;
    }
    assert r[i].action == ActionLabels[p] && r[j].action == ActionLabels[q];
    ActionLabelsDistinct();
  }

  /** The log runs from most recent to oldest, two days apart. */
  lemma ActivitiesNewestFirst(userId: nat, i: nat, j: nat)
    requires i < j < ActivityCount
    ensures GenerateUserActivities(userId)[j].daysAgo - GenerateUserActivities(userId)[i].daysAgo == 2 * (j - i)
  {
  }

  /** Each description names its action in lower case. */
  lemma DescriptionMentionsAction(userId: nat, i: nat)
    requires i < ActivityCount
    ensures Contains(GenerateUserActivities(userId)[i].description, Lower(GenerateUserActivities(userId)[i].action))
  {
    var a := GenerateUserActivities(userId)[i];
    var prefix := "User performed ";
    assert a.description[|prefix|..|prefix| + |Lower(a.action)|] == Lower(a.action);
    assert OccursAt(a.description, Lower(a.action), |prefix|);
  }

  /** Status and day offsets of ids 0, 3 and 4. */
  lemma StatusExamples()
    ensures GetStatus(3) == Inactive && GetStatus(4) == Active && GetStatus(0) == Inactive
    ensures CreatedDaysAgo(0) == 0 && LastActiveDaysAgo(0) == 0
  {
  }
}
