/**
 * `Array.prototype.sort` with a comparator, modelled as an in-place
 * insertion sort over any total preorder `le`.
 */
module Sorting {

  /** `le` is total and transitive: a total preorder. */
  ghost predicate TotalPreorder<T(!new)>(le: (T, T) -> bool) {
    && (forall x, y :: le(x, y) || le(y, x))
    && (forall x, y, z :: le(x, y) && le(y, z) ==> le(x, z))
  }

  /** Every earlier element may stand before every later one. */
  predicate SortedBy<T>(s: seq<T>, le: (T, T) -> bool) {
    forall i, j :: 0 <= i < j < |s| ==> le(s[i], s[j])
  }

  /** While the element at `j` sinks: the prefix `s[..i+1]` without position `j` is in order. */
  predicate InOrderAround<T>(s: seq<T>, i: nat, j: nat, le: (T, T) -> bool)
    requires i < |s|
  {
    forall p, q :: 0 <= p < q <= i && p != j && q != j ==> le(s[p], s[q])
  }

  /** While the element at `j` sinks: it may stand before everything after it up to `i`. */
  predicate FitsBefore<T>(s: seq<T>, i: nat, j: nat, le: (T, T) -> bool)
    requires j <= i < |s|
  {
    forall q :: j < q <= i ==> le(s[j], s[q])
  }

  /** Before sinking, a sorted prefix `s[..i]` is in order around `i`. */
  lemma SinkStart<T>(s: seq<T>, i: nat, le: (T, T) -> bool)
    requires i < |s| && SortedBy(s[..i], le)
    ensures InOrderAround(s, i, i, le) && FitsBefore(s, i, i, le)
  {
    forall p, q | 0 <= p < q <= i && p != i && q != i
      ensures le(s[p], s[q])
    {
      assert s[p] == s[..i][p] && s[q] == s[..i][q];
    }
  }

  /** One swap moves the sinking element down one place and keeps both invariants. */
  lemma SinkSwap<T(!new)>(s: seq<T>, i: nat, j: nat, le: (T, T) -> bool)
    requires TotalPreorder(le)
    requires 0 < j <= i < |s|
    requires InOrderAround(s, i, j, le) && FitsBefore(s, i, j, le)
    requires !le(s[j - 1], s[j])
    ensures var t := s[j - 1 := s[j]][j := s[j - 1]];
            && InOrderAround(t, i, j - 1, le) && FitsBefore(t, i, j - 1, le)
            && multiset(t) == multiset(s) && t[i + 1..] == s[i + 1..]
  {
    var t := s[j - 1 := s[j]][j := s[j - 1]];
    assert le(s[j], s[j - 1]);
    forall q | j - 1 < q <= i
      ensures le(t[j - 1], t[q])
    {
    }
  }

  /** When the sinking element has stopped, the whole prefix `s[..i+1]` is sorted. */
  lemma SinkStop<T(!new)>(s: seq<T>, i: nat, j: nat, le: (T, T) -> bool)
    requires TotalPreorder(le)
    requires j <= i < |s|
    requires InOrderAround(s, i, j, le) && FitsBefore(s, i, j, le)
    requires j == 0 || le(s[j - 1], s[j])
    ensures SortedBy(s[..i + 1], le)
  {
    forall p, q | 0 <= p < q <= i
      ensures le(s[p], s[q])
    {
      if q == j && p < j - 1 {
        assert le(s[p], s[j - 1]);
      }
    }
  }

  /** Moves `a[i]` left until the prefix `a[..i+1]` is sorted. */
  method SinkLast<T(!new)>(a: array<T>, i: nat, le: (T, T) -> bool)
    requires TotalPreorder(le)
    requires i < a.Length
    requires SortedBy(a[..i], le)
    modifies a
    ensures SortedBy(a[..i + 1], le)
    ensures a[i + 1..] == old(a[i + 1..])
    ensures multiset(a[..]) == old(multiset(a[..]))
  {
    SinkStart(a[..], i, le);
    var j: nat := i;
    while j > 0 && !le(a[j - 1], a[j])
      invariant j <= i
      invariant InOrderAround(a[..], i, j, le) && FitsBefore(a[..], i, j, le)
      invariant a[i + 1..] == old(a[i + 1..])
      invariant multiset(a[..]) == old(multiset(a[..]))
    {
      ghost var s := a[..];
      SinkSwap(s, i, j, le);
      a[j - 1], a[j] := a[j], a[j - 1];
      assert a[..] == s[j - 1 := s[j]][j := s[j - 1]];
      j := j - 1;
    }
    SinkStop(a[..], i, j, le);
  }

  /** Sorts `a` in place: the result is sorted and a permutation of the input. */
  method SortInPlace<T(!new)>(a: array<T>, le: (T, T) -> bool)
    requires TotalPreorder(le)
    modifies a
    ensures SortedBy(a[..], le)
    ensures multiset(a[..]) == old(multiset(a[..]))
  {
    var i := 0;
    while i < a.Length
      invariant 0 <= i <= a.Length
      invariant SortedBy(a[..i], le)
      invariant multiset(a[..]) == old(multiset(a[..]))
    {
      SinkLast(a, i, le);
      i := i + 1;
    }
    assert a[..a.Length] == a[..];
  }
}
