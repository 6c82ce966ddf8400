/** The paginate stage of displayUsers: the page count, the clamp of the
    current page and the slice of the sorted records that is shown. */
module Paging {

  /** usersPerPage */
  const PageSize: nat := 12

  function Min(a: int, b: int): int
  {
    if a <= b then a else b
  }

  /** Math.ceil(n / usersPerPage), the number of pages `n` records fill. */
  function TotalPages(n: nat): (r: nat)
    ensures r * PageSize >= n
    ensures r > 0 ==> (r - 1) * PageSize < n
    ensures r == 0 <==> n == 0
  {
    (n + PageSize - 1) / PageSize
  }

  /** `currentPage = Math.min(currentPage, totalPages)`: pages past the end
      are pulled back, and nothing is raised to 1. */
  function ClampPage(current: nat, total: nat): (r: nat)
    ensures r <= current && r <= total
    ensures r == current || r == total
    ensures total == 0 ==> r == 0
  {
    Min(current, total)
  }

  /** How Array.prototype.slice reads one bound: a negative bound counts
      from the end, and every bound is cut to [0, len]. */
  function SliceBound(k: int, len: nat): (r: nat)
    ensures r <= len
    ensures 0 <= k <= len ==> r == k
    ensures k < 0 && 0 <= len + k ==> r == len + k
    ensures len + k < 0 ==> r == 0
    ensures k > len ==> r == len
  {
    if k < 0 then (if len + k < 0 then 0 else len + k)
    else if k > len then len
    else k
  }

  /** Array.prototype.slice(start, end). */
  function JsSlice<T>(s: seq<T>, start: int, end: int): (r: seq<T>)
    ensures 0 <= start <= end ==> r == s[Min(start, |s|)..Min(end, |s|)]
    ensures -|s| <= start <= end < 0 ==> r == s[|s| + start..|s| + end]
    ensures end == 0 ==> r == []
    ensures 0 <= end <= start || end <= start < 0 ==> r == []
    ensures |r| <= |s| && forall i :: 0 <= i < |r| ==> r[i] in s
  {
    var from := SliceBound(start, |s|);
    var to := SliceBound(end, |s|);
    if from < to then s[from..to] else []
  }

  /** `sortedUsers.slice((page - 1) * 12, (page - 1) * 12 + 12)`. Page 0,
      which the clamp produces when nothing matches, reads as slice(-12, 0)
      and is always empty. */
  function PageSlice<T>(s: seq<T>, page: nat): (r: seq<T>)
    ensures |r| <= PageSize
    ensures page == 0 ==> r == []
    ensures page >= 1 ==> r == s[Min((page - 1) * PageSize, |s|)..Min(page * PageSize, |s|)]
    ensures 1 <= page <= TotalPages(|s|) ==> (page - 1) * PageSize < |s| && r != []
  {
    var start := (page - 1) * PageSize;
    JsSlice(s, start, start + PageSize)
  }

  /** A page between 1 and the page count is the non-empty run of records
      that starts at (page - 1) * 12. */
  lemma PageWithinCount<T>(s: seq<T>, page: nat)
    requires 1 <= page <= TotalPages(|s|)
    ensures (page - 1) * PageSize < |s|
    ensures PageSlice(s, page) != []
    ensures PageSlice(s, page) == s[(page - 1) * PageSize..Min(page * PageSize, |s|)]
  {
    assert Min((page - 1) * PageSize, |s|) == (page - 1) * PageSize;
  }

  /** Pages 1 to k, one after another. */
  function Pages<T>(s: seq<T>, k: nat): seq<T>
  {
    if k == 0 then [] else Pages(s, k - 1) + PageSlice(s, k)
  }

  /** The first k pages are the first k * 12 records. */
  lemma {:induction false} PagesArePrefix<T>(s: seq<T>, k: nat)
    ensures Pages(s, k) == s[..Min(k * PageSize, |s|)]
  {
    if k > 0 {
      PagesArePrefix(s, k - 1);
      var a := Min((k - 1) * PageSize, |s|);
      var b := Min(k * PageSize, |s|);
      assert s[..a] + s[a..b] == s[..b];
    }
  }

  /** Pages 1 to totalPages hold every record exactly once, in order. */
  lemma PagesCoverAll<T>(s: seq<T>)
    ensures Pages(s, TotalPages(|s|)) == s
  {
    PagesArePrefix(s, TotalPages(|s|));
  }

  /** 100 matching records fill 9 pages, and the ninth holds 4. */
  lemma HundredRecordsExample<T>(s: seq<T>)
    requires |s| == 100
    ensures TotalPages(|s|) == 9
    ensures |PageSlice(s, 9)| == 4
  {
  }
}
