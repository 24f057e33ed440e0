/**
  The fixed-size page window shared by the report dashboard (src/App.js) and
  the patient list (src/PatientList.js): both show six items per page, take
  page `p` as `items.slice(p * 6 - 6, p * 6)` and count `Math.ceil(n / 6)` pages.
 */
module Paging {
  import opened JsArray

  /** `reportsPerPage` in the dashboard, `patientsPerPage` in the patient list. */
  const PageSize: nat := 6

  /** `Math.ceil(count / 6)`: the fewest pages of six that hold `count` items. */
  function PageCount(count: nat): (pages: nat)
    ensures pages * PageSize >= count
    ensures pages > 0 ==> (pages - 1) * PageSize < count
    ensures pages == 0 <==> count == 0
  {
    (count + PageSize - 1) / PageSize
  }

  /**
    The items on page `page`: `indexOfLast = page * 6`, `indexOfFirst =
    indexOfLast - 6`, `items.slice(indexOfFirst, indexOfLast)`. Page 0 is
    empty; from page 1 on it is the run of (at most) six items starting at
    index `(page - 1) * 6`.
   */
  function PageWindow<T>(items: seq<T>, page: int): (window: seq<T>)
    ensures |window| <= PageSize
    ensures page >= 1 ==> window == items[Min((page - 1) * PageSize, |items|)..Min(page * PageSize, |items|)]
    ensures page == 0 ==> window == []
  {
    var last := page * PageSize;
    var first := last - PageSize;
    Slice(items, first, last)
  }

  /** A page past the last one shows nothing (slice clamps instead of failing). */
  lemma PageBeyondLastIsEmpty<T>(items: seq<T>, page: int)
    requires page > PageCount(|items|)
    ensures PageWindow(items, page) == []
  {
    var n := PageCount(|items|);
    assert (page - 1) * PageSize >= n * PageSize;
  }

  /** Every page before the last is full; the last one holds the remaining one to six items. */
  lemma PageSizes<T>(items: seq<T>, page: int)
    requires 1 <= page <= PageCount(|items|)
    ensures page < PageCount(|items|) ==> |PageWindow(items, page)| == PageSize
    ensures page == PageCount(|items|) ==> |PageWindow(items, page)| == |items| - (page - 1) * PageSize
    ensures 1 <= |PageWindow(items, page)|
  {
    var n := PageCount(|items|);
    if page < n {
      assert page * PageSize <= (n - 1) * PageSize;
    }
  }

  /** Item `i` is shown on page `i / 6 + 1`, at position `i % 6`, and that page exists. */
  lemma ItemOnItsPage<T>(items: seq<T>, i: int)
    requires 0 <= i < |items|
    ensures 1 <= i / PageSize + 1 <= PageCount(|items|)
    ensures |PageWindow(items, i / PageSize + 1)| > i % PageSize
    ensures PageWindow(items, i / PageSize + 1)[i % PageSize] == items[i]
  {
    var page := i / PageSize + 1;
    assert (page - 1) * PageSize + i % PageSize == i;
  }

  /** Pages 1 to `k`, shown one after another. */
  function FirstPages<T>(items: seq<T>, k: nat): seq<T>
  {
    if k == 0 then [] else FirstPages(items, k - 1) + PageWindow(items, k)
  }

  /** Reading pages 1 to `k` in order gives exactly the first `6 * k` items, without gaps or repeats. */
  lemma {:induction false} FirstPagesArePrefix<T>(items: seq<T>, k: nat)
    ensures FirstPages(items, k) == items[..Min(k * PageSize, |items|)]
  {
    if k > 0 {
      FirstPagesArePrefix(items, k - 1);
      var a := Min((k - 1) * PageSize, |items|);
      var b := Min(k * PageSize, |items|);
      assert items[..a] + items[a..b] == items[..b];
    }
  }

  /** All pages together show the whole list, in order. */
  lemma AllPagesShowEverything<T>(items: seq<T>)
    ensures FirstPages(items, PageCount(|items|)) == items
  {
    FirstPagesArePrefix(items, PageCount(|items|));
    assert items[..|items|] == items;
  }
}
