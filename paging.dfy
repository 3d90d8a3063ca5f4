/**
 * Page arithmetic shared by the listing page and the fallback gateway:
 * `Array.prototype.slice` with its index resolution, `Math.ceil(n / size)`,
 * and the 1-based page window `slice((page - 1) * size, page * size)`.
 */
module Paging {

  function Min(a: int, b: int): int {
    if a < b then a else b
  }

  /** How `slice` resolves an index against a length `n`: negative indices count from the end. */
  function ResolveIndex(i: int, n: nat): (r: nat)
    ensures r <= n
    ensures 0 <= i ==> r == Min(i, n)
    ensures i < 0 ==> r == if n + i < 0 then 0 else n + i
  {
    if i < 0 then (if n + i < 0 then 0 else n + i)
    else if i < n then i else n
  }

  /** `s.slice(start, end)`. */
  function JsSlice<T>(s: seq<T>, start: int, end: int): (r: seq<T>)
    ensures |r| <= |s|
    ensures 0 <= start <= end ==> r == s[Min(start, |s|)..Min(end, |s|)]
  {
    var lo := ResolveIndex(start, |s|);
    var hi := ResolveIndex(end, |s|);
    if lo < hi then s[lo..hi] else []
  }

  /** `Math.ceil(n / size)`. */
  function PageCount(n: nat, size: nat): (r: nat)
    requires size >= 1
    ensures n <= r * size
    ensures (r - 1) * size < n
  {
    (n + size - 1) / size
  }

  /** Where page `page` starts in a list of `n` items: `(page - 1) * size`, clamped to `n`. */
  function PageStart(page: int, size: nat, n: nat): (r: nat)
    requires page >= 1
    ensures r <= n
  {
    Min((page - 1) * size, n)
  }

  /** Where page `page` ends (exclusive): `page * size`, clamped to `n`. */
  function PageEnd(page: int, size: nat, n: nat): (r: nat)
    requires page >= 1
    ensures PageStart(page, size, n) <= r <= n
    ensures r - PageStart(page, size, n) <= size
  {
    assert page * size == (page - 1) * size + size;
    Min(page * size, n)
  }

  /** The `page`-th window of `size` items (1-based). */
  function PageOf<T>(s: seq<T>, page: int, size: nat): (r: seq<T>)
    requires size >= 1
    ensures page >= 1 ==> r == s[PageStart(page, size, |s|)..PageEnd(page, size, |s|)]
    ensures page >= 1 ==> |r| <= size
    ensures page >= 1 && (page - 1) * size >= |s| ==> r == []
  {
    var start := (page - 1) * size;
    assert page >= 1 ==> page * size == start + size;
    JsSlice(s, start, start + size)
  }

  /** Pages 1..k laid end to end. */
  function ConcatPages<T>(s: seq<T>, k: nat, size: nat): seq<T>
    requires size >= 1
  {
    if k == 0 then [] else ConcatPages(s, k - 1, size) + PageOf(s, k, size)
  }

  /** The first k pages are exactly the first k * size items (fewer at the end). */
  lemma {:induction false} ConcatPagesPrefix<T>(s: seq<T>, k: nat, size: nat)
    requires size >= 1
    ensures ConcatPages(s, k, size) == s[..Min(k * size, |s|)]
  {
    if k > 0 {
      ConcatPagesPrefix(s, k - 1, size);
      var lo, hi := PageStart(k, size, |s|), PageEnd(k, size, |s|);
      assert (k - 1) * size + size == k * size;
      assert lo == Min((k - 1) * size, |s|) && hi == Min(k * size, |s|);
      assert ConcatPages(s, k, size) == s[..lo] + s[lo..hi];
      assert s[..lo] + s[lo..hi] == s[..hi];
    }
  }

  /** Pages 1..PageCount rebuild the whole list, with no gap and no overlap. */
  lemma PagesRebuild<T>(s: seq<T>, size: nat)
    requires size >= 1
    ensures ConcatPages(s, PageCount(|s|, size), size) == s
  {
    ConcatPagesPrefix(s, PageCount(|s|, size), size);
  }

  lemma MulMonotone(a: int, b: int, c: nat)
    requires a <= b
    ensures a * c <= b * c
  {
  }

  /** Every page up to the count is non-empty and the one after it is empty. */
  lemma PagesNonEmptyUpToCount<T>(s: seq<T>, size: nat, page: int)
    requires size >= 1 && page >= 1
    ensures PageOf(s, page, size) != [] <==> page <= PageCount(|s|, size)
  {
    var n := PageCount(|s|, size);
    var lo := (page - 1) * size;
    assert page * size == lo + size;
    if page <= n {
      MulMonotone(page - 1, n - 1, size);
      assert lo < |s|;
    } else {
      MulMonotone(n, page - 1, size);
      assert lo >= |s|;
    }
  }
}
