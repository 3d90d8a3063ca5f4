/**
 * The order the listing page sorts by: the comparator on the lower-cased
 * full name or on the creation instant, in either direction, what it means
 * for a list to be sorted by it, and why a sorted permutation is unique
 * when no two different users share a key.
 */
module UserOrder {
  import opened Text
  import opened UserTypes

  /** The name key: `${first_name} ${last_name}`, lower-cased. */
  function NameKey(u: UserWithStatus): string {
    Lower(u.firstName + " " + u.lastName)
  }

  /** The creation instant in days relative to now: more days ago is an earlier instant. */
  function CreatedInstant(u: UserWithStatus): int {
    -u.createdDaysAgo
  }

  /** `a`'s key is strictly smaller than `b`'s. */
  predicate KeyLess(key: SortKey, a: UserWithStatus, b: UserWithStatus) {
    match key
    case Name => LexLess(NameKey(a), NameKey(b))
    case CreatedAt => CreatedInstant(a) < CreatedInstant(b)
  }

  predicate SameKey(key: SortKey, a: UserWithStatus, b: UserWithStatus) {
    match key
    case Name => NameKey(a) == NameKey(b)
    case CreatedAt => CreatedInstant(a) == CreatedInstant(b)
  }

  /** Exactly one of less, same, greater holds between two keys. */
  lemma KeyTrichotomy(key: SortKey, a: UserWithStatus, b: UserWithStatus)
    ensures KeyLess(key, a, b) || SameKey(key, a, b) || KeyLess(key, b, a)
    ensures !(KeyLess(key, a, b) && KeyLess(key, b, a))
    ensures SameKey(key, a, b) ==> !KeyLess(key, a, b)
  {
    if key == Name {
      if NameKey(a) != NameKey(b) {
        LexLessTotal(NameKey(a), NameKey(b));
      } else {
        LexLessIrreflexive(NameKey(a));
      }
      if LexLess(NameKey(a), NameKey(b)) && LexLess(NameKey(b), NameKey(a)) {
        LexLessTransitive(NameKey(a), NameKey(b), NameKey(a));
        LexLessIrreflexive(NameKey(a));
      }
    }
  }

  lemma KeyLessTransitive(key: SortKey, a: UserWithStatus, b: UserWithStatus, c: UserWithStatus)
    requires KeyLess(key, a, b) && KeyLess(key, b, c)
    ensures KeyLess(key, a, c)
  {
    if key == Name {
      LexLessTransitive(NameKey(a), NameKey(b), NameKey(c));
    }
  }

  /**
   * The comparator as the listing page writes it: `1` puts `a` after `b`,
   * anything else puts it before; it never answers `0`.
   */
  function SourceCompare(key: SortKey, order: SortOrder, a: UserWithStatus, b: UserWithStatus): int {
    match order
    case Asc => if KeyLess(key, b, a) then 1 else -1
    case Desc => if KeyLess(key, a, b) then 1 else -1
  }

  /** The same comparator answering `0` for equal keys. */
  function Compare(key: SortKey, order: SortOrder, a: UserWithStatus, b: UserWithStatus): (c: int)
    ensures c == 0 <==> SameKey(key, a, b)
    ensures c == 1 || c == 0 || c == -1
  {
    KeyTrichotomy(key, a, b);
    match order
    case Asc => if KeyLess(key, b, a) then 1 else if KeyLess(key, a, b) then -1 else 0
    case Desc => if KeyLess(key, a, b) then 1 else if KeyLess(key, b, a) then -1 else 0
  }

  /** The corrected comparator is consistent: swapping the arguments flips the answer. */
  lemma CompareAntisymmetric(key: SortKey, order: SortOrder, a: UserWithStatus, b: UserWithStatus)
    ensures Compare(key, order, a, b) == -Compare(key, order, b, a)
  {
    KeyTrichotomy(key, a, b);
    KeyTrichotomy(key, b, a);
  }

  /** The two comparators agree whenever the keys differ. */
  lemma CompareAgreesOffTies(key: SortKey, order: SortOrder, a: UserWithStatus, b: UserWithStatus)
    requires !SameKey(key, a, b)
    ensures SourceCompare(key, order, a, b) == Compare(key, order, a, b)
  {
    KeyTrichotomy(key, a, b);
  }

  /**
   * On a tie the source comparator answers `-1` both ways round, so each of
   * the two users claims to come first: the comparator is not consistent.
   */
  lemma SourceCompareTieInconsistent(key: SortKey, order: SortOrder, a: UserWithStatus, b: UserWithStatus)
    requires SameKey(key, a, b)
    ensures SourceCompare(key, order, a, b) == -1 && SourceCompare(key, order, b, a) == -1
    ensures SourceCompare(key, order, a, b) != -SourceCompare(key, order, b, a)
  {
    KeyTrichotomy(key, a, b);
    KeyTrichotomy(key, b, a);
  }

  /** Two users with the same name, for which the source comparator contradicts itself. */
  lemma SourceCompareTieWitness()
    ensures var a := UserWithStatus(1, "rahul.sharma@example.com", "Rahul", "Sharma", "", Active, 7, 3);
            var b := UserWithStatus(2, "rahul.sharma2@example.com", "Rahul", "Sharma", "", Active, 14, 6);
            SourceCompare(Name, Asc, a, b) == -1 && SourceCompare(Name, Asc, b, a) == -1
  {
    var a := UserWithStatus(1, "rahul.sharma@example.com", "Rahul", "Sharma", "", Active, 7, 3);
    var b := UserWithStatus(2, "rahul.sharma2@example.com", "Rahul", "Sharma", "", Active, 14, 6);
    assert SameKey(Name, a, b);
    SourceCompareTieInconsistent(Name, Asc, a, b);
  }

  /** `a` may stand before `b` in the sorted list. */
  predicate InOrder(key: SortKey, order: SortOrder, a: UserWithStatus, b: UserWithStatus) {
    Compare(key, order, a, b) <= 0
  }

  predicate Sorted(s: seq<UserWithStatus>, key: SortKey, order: SortOrder) {
    forall i, j :: 0 <= i < j < |s| ==> InOrder(key, order, s[i], s[j])
  }

  lemma InOrderTotal(key: SortKey, order: SortOrder, a: UserWithStatus, b: UserWithStatus)
    ensures InOrder(key, order, a, b) || InOrder(key, order, b, a)
  {
    CompareAntisymmetric(key, order, a, b);
  }

  lemma InOrderTransitive(key: SortKey, order: SortOrder, a: UserWithStatus, b: UserWithStatus, c: UserWithStatus)
    requires InOrder(key, order, a, b) && InOrder(key, order, b, c)
    ensures InOrder(key, order, a, c)
  {
    KeyTrichotomy(key, a, b);
    KeyTrichotomy(key, b, c);
    KeyTrichotomy(key, a, c);
    if key == Name {
      if SameKey(key, a, b) && !SameKey(key, b, c) {
        assert NameKey(a) == NameKey(b);
      } else if !SameKey(key, a, b) && SameKey(key, b, c) {
        assert NameKey(b) == NameKey(c);
      } else if !SameKey(key, a, b) && !SameKey(key, b, c) {
        match order
        case Asc => KeyLessTransitive(key, a, b, c);
        case Desc => KeyLessTransitive(key, c, b, a);
      }
    }
  }

  /** Descending is ascending read backwards. */
  lemma InOrderReversed(key: SortKey, a: UserWithStatus, b: UserWithStatus)
    ensures InOrder(key, Desc, a, b) <==> InOrder(key, Asc, b, a)
  {
  }

  /** No two different records of `s` share a key. */
  predicate KeysIdentify(s: seq<UserWithStatus>, key: SortKey) {
    forall a, b :: a in s && b in s && SameKey(key, a, b) ==> a == b
  }

  lemma SortedTail(t: seq<UserWithStatus>, key: SortKey, order: SortOrder)
    requires Sorted(t, key, order) && |t| > 0
    ensures Sorted(t[1..], key, order)
  {
    forall i, j | 0 <= i < j < |t| - 1
      ensures InOrder(key, order, t[1..][i], t[1..][j])
    {
      assert t[1..][i] == t[i + 1] && t[1..][j] == t[j + 1];
    }
  }

  /** The first element of a sorted list may stand before every element of it. */
  lemma SortedHeadFirst(t: seq<UserWithStatus>, key: SortKey, order: SortOrder, u: UserWithStatus)
    requires Sorted(t, key, order) && u in t
    ensures InOrder(key, order, t[0], u)
  {
    var k :| 0 <= k < |t| && t[k] == u;
    if k == 0 {
      KeyTrichotomy(key, u, u);
    }
  }

  lemma SameHeadSameTails(t1: seq<UserWithStatus>, t2: seq<UserWithStatus>)
    requires multiset(t1) == multiset(t2) && |t1| > 0 && |t2| > 0 && t1[0] == t2[0]
    ensures multiset(t1[1..]) == multiset(t2[1..])
  {
    assert t1 == [t1[0]] + t1[1..] && t2 == [t2[0]] + t2[1..];
    assert multiset(t1) == multiset{t1[0]} + multiset(t1[1..]);
    assert multiset(t2) == multiset{t1[0]} + multiset(t2[1..]);
    assert multiset(t1[1..]) == multiset(t1) - multiset{t1[0]};
    assert multiset(t2[1..]) == multiset(t2) - multiset{t1[0]};
  }

  lemma KeysIdentifyTail(t: seq<UserWithStatus>, key: SortKey)
    requires KeysIdentify(t, key) && |t| > 0
    ensures KeysIdentify(t[1..], key)
  {
    forall u | u in t[1..]
      ensures u in t
    {
    }
  }

  /** Two sorted lists with the same elements start with the same element when keys identify records. */
  lemma SortedSameHead(t1: seq<UserWithStatus>, t2: seq<UserWithStatus>, key: SortKey, order: SortOrder)
    requires Sorted(t1, key, order) && Sorted(t2, key, order)
    requires multiset(t1) == multiset(t2) && |t1| > 0
    requires KeysIdentify(t1, key)
    ensures |t2| > 0 && t1[0] == t2[0]
  {
    assert |t2| == |multiset(t2)| == |t1|;
    var x, y := t1[0], t2[0];
    assert x in multiset(t2) && y in multiset(t1);
    SortedHeadFirst(t2, key, order, x);
    SortedHeadFirst(t1, key, order, y);
    CompareAntisymmetric(key, order, x, y);
    assert SameKey(key, x, y);
    assert x in t1 && y in t1;
  }

  /** A list has exactly one sorted arrangement when no two different records share a key. */
  lemma {:induction false} SortedUnique(t1: seq<UserWithStatus>, t2: seq<UserWithStatus>, key: SortKey, order: SortOrder)
    requires Sorted(t1, key, order) && Sorted(t2, key, order)
    requires multiset(t1) == multiset(t2)
    requires KeysIdentify(t1, key)
    ensures t1 == t2
    decreases |t1|
  {
    if |t1| == 0 {
      assert |t2| == |multiset(t2)| == 0;
    } else {
      SortedSameHead(t1, t2, key, order);
      SameHeadSameTails(t1, t2);
      SortedTail(t1, key, order);
      SortedTail(t2, key, order);
      KeysIdentifyTail(t1, key);
      SortedUnique(t1[1..], t2[1..], key, order);
      assert t1 == [t1[0]] + t1[1..] && t2 == [t2[0]] + t2[1..];
    }
  }

  function Reverse(s: seq<UserWithStatus>): (r: seq<UserWithStatus>)
    ensures |r| == |s|
    ensures forall i :: 0 <= i < |s| ==> r[i] == s[|s| - 1 - i]
    ensures multiset(r) == multiset(s)
  {
    if |s| == 0 then []
    else
      assert s == [s[0]] + s[1..];
      Reverse(s[1..]) + [s[0]]
  }

  /**
   * With no two different records sharing a key, sorting descending gives
   * exactly the ascending result read backwards.
   */
  lemma SortDirectionsMirror(s: seq<UserWithStatus>, up: seq<UserWithStatus>, down: seq<UserWithStatus>, key: SortKey)
    requires Sorted(up, key, Asc) && multiset(up) == multiset(s)
    requires Sorted(down, key, Desc) && multiset(down) == multiset(s)
    requires KeysIdentify(s, key)
    ensures down == Reverse(up)
  {
    var back := Reverse(up);
    forall i, j | 0 <= i < j < |back|
      ensures InOrder(key, Desc, back[i], back[j])
    {
      InOrderReversed(key, back[i], back[j]);
    }
    forall u | u in back
      ensures u in s
    {
      assert u in multiset(back);
    }
    SortedUnique(back, down, key, Desc);
  }
}
