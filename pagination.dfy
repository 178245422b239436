/**
 * Incremental pagination shared by both gallery components: every time the
 * sentinel below the grid scrolls into view, the next `pageSize` photos are
 * appended to the visible list and the page counter advances.
 */
module Pagination {

  function Min(a: int, b: int): (r: int)
    ensures r <= a && r <= b
    ensures r == a || r == b
  {
    if a <= b then a else b
  }

  /**
   * JavaScript's `Array.prototype.slice(start, end)` for non-negative
   * arguments: both ends are clamped to the length, and an empty range
   * gives the empty array.
   */
  function Slice<T>(s: seq<T>, start: nat, end: nat): (r: seq<T>)
    ensures |r| == if start < end && start < |s| then Min(end, |s|) - start else 0
    ensures forall i :: 0 <= i < |r| ==> r[i] == s[start + i]
  {
    if start < end && start < |s| then s[start..Min(end, |s|)] else []
  }

  /** The pagination state of a gallery: the photos shown so far and the number of pages appended. */
  datatype Cursor<T> = Cursor(visible: seq<T>, page: nat)

  /** The state right after construction. */
  function Start<T>(): (r: Cursor<T>) {
    Cursor([], 0)
  }

  /**
   * `#appendPage`: take the slice of `photos` that starts at `page * pageSize`
   * and is `pageSize` long; when it is non-empty, append it and count the page,
   * otherwise leave everything as it was.
   */
  function AppendPage<T>(photos: seq<T>, pageSize: nat, c: Cursor<T>): (r: Cursor<T>)
    ensures c.visible <= r.visible
    ensures r != c <==> pageSize > 0 && c.page * pageSize < |photos|
    ensures r != c ==> r.page == c.page + 1 && |c.visible| < |r.visible|
  {
    var start := c.page * pageSize;
    var next := Slice(photos, start, start + pageSize);
    if |next| > 0 then Cursor(c.visible + next, c.page + 1) else c
  }

  /** `k` successive firings of the intersection callback, each appending one page. */
  function AppendPages<T>(photos: seq<T>, pageSize: nat, c: Cursor<T>, k: nat): (r: Cursor<T>)
    ensures c.page <= r.page <= c.page + k
    decreases k
  {
    if k == 0 then c else AppendPages(photos, pageSize, AppendPage(photos, pageSize, c), k - 1)
  }

  /**
   * The pagination invariant: the visible photos are exactly the prefix of
   * `photos` covering the pages appended so far, and no page was counted
   * past the end of `photos`.
   */
  ghost predicate Consistent<T>(photos: seq<T>, pageSize: nat, c: Cursor<T>)
    ensures Consistent(photos, pageSize, c) ==>
      c.visible <= photos && |c.visible| == Min(|photos|, c.page * pageSize)
  {
    && pageSize > 0
    && c.visible == photos[..Min(|photos|, c.page * pageSize)]
    && (c.page == 0 || (c.page - 1) * pageSize < |photos|)
  }

  lemma MulMonotone(a: nat, b: nat, n: nat)
    requires a <= b
    ensures a * n <= b * n
  {
  }

  /** The initial state is consistent for every positive page size. */
  lemma StartConsistent<T>(photos: seq<T>, pageSize: nat)
    requires pageSize > 0
    ensures Consistent(photos, pageSize, Start())
  {
  }

  /**
   * One append keeps the invariant; it appends exactly the next slice and
   * counts one page when that slice is non-empty, and changes nothing otherwise.
   */
  lemma AppendPageConsistent<T>(photos: seq<T>, pageSize: nat, c: Cursor<T>)
    requires Consistent(photos, pageSize, c)
    ensures Consistent(photos, pageSize, AppendPage(photos, pageSize, c))
    ensures c.page * pageSize < |photos| ==>
      AppendPage(photos, pageSize, c) ==
        Cursor(c.visible + photos[c.page * pageSize..Min(|photos|, c.page * pageSize + pageSize)], c.page + 1)
    ensures |photos| <= c.page * pageSize ==> AppendPage(photos, pageSize, c) == c
  {
    // Dafny unfolds AppendPage and Slice and closes the sequence algebra
    // (the old prefix followed by the slice is the longer prefix) unaided.
  }

  /**
   * Appending is a no-op exactly when the visible list already holds every
   * photo; so repeated appends at the end are idempotent.
   */
  lemma AppendPageNoOpIffComplete<T>(photos: seq<T>, pageSize: nat, c: Cursor<T>)
    requires Consistent(photos, pageSize, c)
    ensures AppendPage(photos, pageSize, c) == c <==> |c.visible| == |photos|
  {
    AppendPageConsistent(photos, pageSize, c);
  }

  /**
   * Any number of appends from a consistent state keeps the invariant, and
   * every append counted a page unless the end of `photos` was reached.
   */
  lemma {:induction false} AppendPagesConsistent<T>(photos: seq<T>, pageSize: nat, c: Cursor<T>, k: nat)
    requires Consistent(photos, pageSize, c)
    ensures var r := AppendPages(photos, pageSize, c, k);
      && Consistent(photos, pageSize, r)
      && c.page <= r.page <= c.page + k
      && (r.page == c.page + k || |photos| <= r.page * pageSize)
    decreases k
  {
    if k > 0 {
      var c1 := AppendPage(photos, pageSize, c);
      AppendPageConsistent(photos, pageSize, c);
      AppendPagesConsistent(photos, pageSize, c1, k - 1);
      var r := AppendPages(photos, pageSize, c1, k - 1);
      if c1.page == c.page {
        MulMonotone(c.page, r.page, pageSize);
      }
    }
  }

  /**
   * After `k` appends from the initial state the visible list is the prefix
   * of `photos` of length `min(|photos|, k * pageSize)`.
   */
  lemma AppendPagesFromStart<T>(photos: seq<T>, pageSize: nat, k: nat)
    requires pageSize > 0
    ensures var r := AppendPages(photos, pageSize, Start(), k);
      && r.visible == photos[..Min(|photos|, k * pageSize)]
      && |r.visible| == Min(|photos|, k * pageSize)
  {
    StartConsistent(photos, pageSize);
    AppendPagesConsistent(photos, pageSize, Start(), k);
    var r := AppendPages(photos, pageSize, Start(), k);
    if r.page < k {
      MulMonotone(r.page, k, pageSize);
    }
  }

  /** The visible list never shrinks: every append keeps what was shown as a prefix. */
  lemma {:induction false} AppendPagesExtends<T>(photos: seq<T>, pageSize: nat, c: Cursor<T>, k: nat)
    ensures var r := AppendPages(photos, pageSize, c, k);
      && c.visible <= r.visible
      && c.page <= r.page
    decreases k
  {
    if k > 0 {
      var c1 := AppendPage(photos, pageSize, c);
      AppendPagesExtends(photos, pageSize, c1, k - 1);
    }
  }

  /** One more append after `k` is the same as `k + 1` appends. */
  lemma {:induction false} AppendPagesStep<T>(photos: seq<T>, pageSize: nat, c: Cursor<T>, k: nat)
    ensures AppendPages(photos, pageSize, c, k + 1)
      == AppendPage(photos, pageSize, AppendPages(photos, pageSize, c, k))
    decreases k
  {
    if k > 0 {
      AppendPagesStep(photos, pageSize, AppendPage(photos, pageSize, c), k - 1);
    }
  }

  /** Three photos, two per page: `[1, 2]`, then `[1, 2, 3]`, then nothing more. */
  lemma ThreePhotosTwoPerPage()
    ensures AppendPages([1, 2, 3], 2, Start(), 1) == Cursor([1, 2], 1)
    ensures AppendPages([1, 2, 3], 2, Start(), 2) == Cursor([1, 2, 3], 2)
    ensures AppendPages([1, 2, 3], 2, Start(), 3) == Cursor([1, 2, 3], 2)
  {
  }
}
