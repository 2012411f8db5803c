/**
 * The 1-based pagination both repositories implement in findAll(page, pageSize):
 * from = (page - 1) * pageSize, to = min(from + pageSize, size), then subList(from, to).
 */
module Paging {
  import opened Wrappers

  /**
   * Why subList throws: IndexOutOfBoundsException for a negative first index,
   * IllegalArgumentException for a first index beyond the last.
   */
  datatype PageError =
    | IndexOutOfBounds(fromIndex: int, toIndex: int)
    | IllegalRange(fromIndex: int, toIndex: int)

  function Min(a: int, b: int): int
  {
    if a <= b then a else b
  }

  /** Index of the first element of 1-based page `page`. */
  function FromIndex(page: int, pageSize: int): int
  {
    (page - 1) * pageSize
  }

  /** One past the last index of the page, cut off at the end of the list. */
  function ToIndex(page: int, pageSize: int, size: nat): int
  {
    Min(FromIndex(page, pageSize) + pageSize, size)
  }

  /**
   * The page as subList(from, to) returns it. Since `to` never exceeds the size,
   * subList fails exactly when `from` is negative (checked first) or lies beyond `to`.
   */
  function Page<T>(s: seq<T>, page: int, pageSize: int): (r: Result<seq<T>, PageError>)
    ensures r.Failure? ==> r.error.fromIndex == FromIndex(page, pageSize) && r.error.toIndex == ToIndex(page, pageSize, |s|)
    ensures r.Failure? ==> (r.error.IndexOutOfBounds? <==> r.error.fromIndex < 0)
    ensures r.Failure? && r.error.IllegalRange? ==> r.error.fromIndex > r.error.toIndex
    ensures r.Success? ==> 0 <= FromIndex(page, pageSize) <= ToIndex(page, pageSize, |s|) <= |s|
    ensures r.Success? ==> |r.value| == ToIndex(page, pageSize, |s|) - FromIndex(page, pageSize)
    ensures r.Success? ==> forall k :: 0 <= k < |r.value| ==> r.value[k] == s[FromIndex(page, pageSize) + k]
  {
    var from := FromIndex(page, pageSize);
    var to := ToIndex(page, pageSize, |s|);
    if from < 0 then Failure(IndexOutOfBounds(from, to))
    else if from > to then Failure(IllegalRange(from, to))
    else Success(s[from..to])
  }

  /**
   * When a page exists: a positive page size needs page >= 1 and a first index
   * no further than the end of the list; a page size of zero always yields a page
   * (the empty one); a negative page size never does.
   */
  lemma PageDefined<T>(s: seq<T>, page: int, pageSize: int)
    ensures Page(s, page, pageSize).Success? <==>
      pageSize == 0 || (pageSize > 0 && page >= 1 && FromIndex(page, pageSize) <= |s|)
  {
    var from := FromIndex(page, pageSize);
    if pageSize > 0 {
      if page >= 1 {
        assert from >= 0;
      } else {
        assert from < 0;
      }
    } else if pageSize < 0 {
      if page >= 2 {
        assert from < 0;
      } else {
        assert from >= 0;
        assert ToIndex(page, pageSize, |s|) < from;
      }
    }
  }

  /**
   * What a caller of findAll(page, pageSize) can rely on: with a positive page
   * size, failure exactly when page <= 0 or the page starts past the end; a
   * page of Min(pageSize, |s| - from) elements; each the list's element at
   * the matching position from `from` on.
   */
  lemma PageSpec<T>(s: seq<T>, page: int, pageSize: int)
    ensures pageSize > 0 ==>
      (Page(s, page, pageSize).Failure? <==> page <= 0 || FromIndex(page, pageSize) > |s|)
    ensures Page(s, page, pageSize).Success? && pageSize > 0 ==>
      |Page(s, page, pageSize).value| == Min(pageSize, |s| - FromIndex(page, pageSize))
    ensures Page(s, page, pageSize).Success? ==>
      0 <= FromIndex(page, pageSize) && FromIndex(page, pageSize) + |Page(s, page, pageSize).value| <= |s|
    ensures Page(s, page, pageSize).Success? ==>
      forall k :: 0 <= k < |Page(s, page, pageSize).value| ==>
        Page(s, page, pageSize).value[k] == s[FromIndex(page, pageSize) + k]
  {
    PageDefined(s, page, pageSize);
  }

  /** The first page of a page size at least the list's length is the whole list. */
  lemma FirstPageIsAll<T>(s: seq<T>, pageSize: int)
    requires pageSize >= 1 && pageSize >= |s|
    ensures Page(s, 1, pageSize) == Success(s)
  {
    assert s[0..|s|] == s;
  }

  /** Pages 1 to n of size `pageSize`, read one after the other. */
  ghost function Pages<T>(s: seq<T>, pageSize: int, n: nat): seq<T>
    requires pageSize >= 1 && FromIndex(n, pageSize) <= |s|
    decreases n
  {
    if n == 0 then []
    else
      assert FromIndex(n - 1, pageSize) <= FromIndex(n, pageSize);
      PageDefined(s, n, pageSize);
      Pages(s, pageSize, n - 1) + Page(s, n, pageSize).value
  }

  /**
   * Reading pages 1 to n back to back gives the first min(n * pageSize, |s|)
   * elements of the list: the pages neither overlap nor leave gaps.
   */
  lemma {:induction false} PagesTile<T>(s: seq<T>, pageSize: int, n: nat)
    requires pageSize >= 1 && FromIndex(n, pageSize) <= |s|
    ensures Pages(s, pageSize, n) == s[..Min(n * pageSize, |s|)]
  {
    if n > 0 {
      var from := FromIndex(n, pageSize);
      assert from == (n - 1) * pageSize;
      assert FromIndex(n - 1, pageSize) <= from;
      PagesTile(s, pageSize, n - 1);
      assert (n - 1) * pageSize <= |s|;
      assert Min((n - 1) * pageSize, |s|) == from;
      assert n * pageSize == from + pageSize;
      PageDefined(s, n, pageSize);
      assert s[..from] + s[from..ToIndex(n, pageSize, |s|)] == s[..ToIndex(n, pageSize, |s|)];
    }
  }
}
