/**
 * The analytics page: status counts over the full user list, the two-slice
 * status chart, the three headline stats, and the seven days of the signup
 * trend.
 */
module AnalyticsPage {
  import opened UserTypes
  import opened UserApi

  /** `users.filter(u => u.status === 'active').length`. */
  function ActiveCount(users: seq<UserWithStatus>): (n: nat)
    ensures n == |WithStatus(users, Active)|
    ensures n <= |users|
  {
    |WithStatus(users, Active)|
  }

  /** `users.filter(u => u.status === 'inactive').length`. */
  function InactiveCount(users: seq<UserWithStatus>): (n: nat)
    ensures n == |WithStatus(users, Inactive)|
    ensures n <= |users|
  {
    |WithStatus(users, Inactive)|
  }

  /** Status has two values, so the two counts add up to the list's length. */
  lemma CountsAddUp(users: seq<UserWithStatus>)
    ensures ActiveCount(users) + InactiveCount(users) == |users|
  {
    StatusPartition(users);
  }

  /** A slice of the status chart. */
  datatype Slice = Slice(name: string, value: nat)

  /** `statusData`: Active first, then Inactive, with their counts. */
  function StatusData(users: seq<UserWithStatus>): (r: seq<Slice>)
    ensures |r| == 2
    ensures r[0] == Slice("Active", ActiveCount(users))
    ensures r[1] == Slice("Inactive", InactiveCount(users))
  {
    [Slice("Active", ActiveCount(users)), Slice("Inactive", InactiveCount(users))]
  }

  /** The two slices cover the whole list. */
  lemma StatusDataCoversAll(users: seq<UserWithStatus>)
    ensures StatusData(users)[0].value + StatusData(users)[1].value == |users|
  {
    CountsAddUp(users);
  }

  datatype StatValue = Count(n: nat) | Fixed(text: string)

  datatype Stat = Stat(title: string, value: StatValue)

  /** `stats`: total users, active users and the fixed growth rate. */
  function Stats(users: seq<UserWithStatus>): (r: seq<Stat>)
    ensures |r| == 3
    ensures r[0] == Stat("Total Users", Count(|users|))
    ensures r[1] == Stat("Active Users", Count(ActiveCount(users)))
    ensures r[2] == Stat("Growth Rate", Fixed("+12.5%"))
  {
    [
      Stat("Total Users", Count(|users|)),
      Stat("Active Users", Count(ActiveCount(users))),
      Stat("Growth Rate", Fixed("+12.5%"))
    ]
  }

  /** The active-users figure never exceeds the total. */
  lemma ActiveWithinTotal(users: seq<UserWithStatus>)
    ensures Stats(users)[1].value.n <= Stats(users)[0].value.n
  {
  }

  /** How many days before today each point of the signup trend stands. */
  function SignupTrendDaysAgo(): (r: seq<int>)
    ensures |r| == 7
    ensures forall i :: 0 <= i < 7 ==> r[i] == 6 - i
  {
    seq(7, i => 6 - i)
  }

  /** The trend runs oldest first, one day apart, and ends today. */
  lemma SignupTrendChronological()
    ensures forall i, j :: 0 <= i < j < 7 ==> SignupTrendDaysAgo()[i] > SignupTrendDaysAgo()[j]
    ensures SignupTrendDaysAgo()[0] == 6 && SignupTrendDaysAgo()[6] == 0
  {
  }

  /** With the directory unreachable, the page shows 50 users: 34 active and 16 inactive. */
  lemma FallbackFigures()
    ensures Stats(GetAllUsers(Failure))[0].value == Count(50)
    ensures StatusData(GetAllUsers(Failure)) == [Slice("Active", 34), Slice("Inactive", 16)]
  {
    AllUsersFallbackStatusCounts();
  }
}
