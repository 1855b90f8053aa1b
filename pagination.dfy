/** Paging of the sorted product list: the slice for the current page, taken with
    JavaScript's `Array.prototype.slice`, and the conditions that disable the
    Previous and Next buttons. */
module Pagination {

  /** The page size. */
  const ProductsPerPage: nat := 20

  function Min(a: int, b: int): int { if a <= b then a else b }

  /** How `slice` reads a position: a negative one counts back from the end, and
      every position is clamped to `0..len`. */
  function SliceIndex(i: int, len: nat): (r: nat)
    ensures r <= len
    ensures 0 <= i ==> r == Min(i, len)
  {
    if i < 0 then (if len + i < 0 then 0 else len + i)
    else if i < len then i else len
  }

  /** Reading two positions of the same sign keeps their order and does not move them
      further apart. (A negative position may be read after a non-negative one.) */
  lemma SliceIndexMonotone(i: int, j: int, len: nat)
    ensures i <= j && (j < 0 || 0 <= i) ==> SliceIndex(i, len) <= SliceIndex(j, len) <= SliceIndex(i, len) + (j - i)
  {
  }

  /** `s.slice(start, end)`: the elements from the read start up to the read end,
      nothing when the end is not after the start. */
  function JsSlice<T>(s: seq<T>, start: int, end: int): (r: seq<T>)
    ensures 0 <= start <= end ==> r == s[Min(start, |s|)..Min(end, |s|)]
    ensures start <= end < 0 ==> |r| <= end - start
    ensures end == 0 ==> r == []
  {
    var from, to := SliceIndex(start, |s|), SliceIndex(end, |s|);
    SliceIndexMonotone(start, end, |s|);
    if from < to then s[from..to] else []
  }

  /** The products shown on `page` (1-based): `products.slice((page - 1) * 20, page * 20)`.
      The page is not checked against the list, so any integer is accepted. */
  function PageSlice<T>(s: seq<T>, page: int): (r: seq<T>)
    ensures |r| <= ProductsPerPage
    ensures page >= 1 ==> r == s[Min((page - 1) * ProductsPerPage, |s|)..Min(page * ProductsPerPage, |s|)]
    ensures page >= 1 && page * ProductsPerPage <= |s| ==> |r| == ProductsPerPage
    ensures page >= 1 && (page - 1) * ProductsPerPage >= |s| ==> r == []
    ensures page == 0 ==> r == []
  {
    var last := page * ProductsPerPage;
    JsSlice(s, last - ProductsPerPage, last)
  }

  /** The Previous button is disabled on page 1 only. */
  predicate PrevDisabled(page: int)
  {
    page == 1
  }

  /** The Next button is disabled once the current page reaches the end of the list. */
  predicate NextDisabled(page: int, count: nat)
  {
    page * ProductsPerPage >= count
  }

  /** From any page from 0 on, Next is disabled exactly when the following page is empty. */
  lemma NextDisabledIffNextPageEmpty<T>(s: seq<T>, page: int)
    requires page >= 0
    ensures NextDisabled(page, |s|) <==> PageSlice(s, page + 1) == []
  {
  }

  /** The page is not clamped: on page -1 of forty products the first twenty are shown
      and Next is enabled, yet it leads to page 0, which is empty. */
  lemma NegativePageShowsFromTheEnd<T>(s: seq<T>)
    requires |s| == 40
    ensures PageSlice(s, -1) == s[..20]
    ensures !NextDisabled(-1, |s|) && PageSlice(s, 0) == []
  {
  }

  /** Product `i` is on page `i / 20 + 1`, at position `i % 20`. */
  lemma ProductOnItsPage<T>(s: seq<T>, i: int)
    requires 0 <= i < |s|
    ensures i % ProductsPerPage < |PageSlice(s, i / ProductsPerPage + 1)|
    ensures PageSlice(s, i / ProductsPerPage + 1)[i % ProductsPerPage] == s[i]
  {
  }

  /** Pages 1 to `n` shown one after another. */
  function Pages<T>(s: seq<T>, n: nat): (r: seq<T>)
  {
    if n == 0 then [] else Pages(s, n - 1) + PageSlice(s, n)
  }

  /** Pages 1 to `n` together are the first `n * 20` products, each once and in order. */
  lemma {:induction false} PagesCoverPrefix<T>(s: seq<T>, n: nat)
    ensures Pages(s, n) == s[..Min(n * ProductsPerPage, |s|)]
  {
    if n > 0 {
      PagesCoverPrefix(s, n - 1);
      var a, b := Min((n - 1) * ProductsPerPage, |s|), Min(n * ProductsPerPage, |s|);
      assert s[..b] == s[..a] + s[a..b];
    }
  }

  /** Stepping with Next from page 1 until it is disabled at page `n` shows every product. */
  lemma PagesUntilNextDisabled<T>(s: seq<T>, n: nat)
    requires NextDisabled(n, |s|)
    ensures Pages(s, n) == s
  {
    PagesCoverPrefix(s, n);
  }
}
