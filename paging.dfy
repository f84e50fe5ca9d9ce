/** Pagination of the sorted rows: `totalPages`, `currentPage`, `pageSlice`
    and the frontend component's numbered page window. */
module Paging {
  import opened Basics

  /** `Math.ceil(count / pageSize)` for a positive page size. */
  function CeilDiv(count: nat, pageSize: int): (q: nat)
    requires pageSize >= 1
    ensures (q - 1) * pageSize < count <= q * pageSize || (count == 0 && q == 0)
  {
    (count + pageSize - 1) / pageSize
  }

  /** `Math.max(1, Math.ceil(count / pageSize))`: the fewest pages of
      `pageSize` rows that hold `count` rows, and never fewer than one. */
  function TotalPages(count: nat, pageSize: int): (t: int)
    requires pageSize >= 1
    ensures t >= 1
    ensures count == 0 ==> t == 1
    ensures count > 0 ==> (t - 1) * pageSize < count <= t * pageSize
  {
    Max(1, CeilDiv(count, pageSize))
  }

  /** `clamp(page, 1, totalPages)`: the page shown, whatever `page` holds. */
  function CurrentPage(page: int, totalPages: int): (cp: int)
    requires totalPages >= 1
    ensures 1 <= cp <= totalPages
    ensures 1 <= page <= totalPages ==> cp == page
    ensures page < 1 ==> cp == 1
    ensures page > totalPages ==> cp == totalPages
  {
    Clamp(page, 1, totalPages)
  }

  /** `rows.slice(start, start + pageSize)` with `start = (currentPage - 1) *
      pageSize`; `slice` cuts both ends down to the length of `rows`. */
  function PageSlice<T>(rows: seq<T>, currentPage: int, pageSize: int): (page: seq<T>)
    requires currentPage >= 1 && pageSize >= 1
    ensures |page| == Max(0, Min(pageSize, |rows| - (currentPage - 1) * pageSize))
    ensures forall i :: 0 <= i < |page| ==> page[i] == rows[(currentPage - 1) * pageSize + i]
  {
    var start := (currentPage - 1) * pageSize;
    var from := Min(start, |rows|);
    var to := Min(start + pageSize, |rows|);
    assert 0 <= start by {
      NonNegativeProduct(currentPage - 1, pageSize);
    }
    rows[from..to]
  }

  lemma NonNegativeProduct(a: int, b: int)
    requires a >= 0 && b >= 0
    ensures a * b >= 0
  {
  }

  /** Every row is on exactly one page, at a fixed place: row `k` is row
      `k % pageSize` of page `k / pageSize + 1`, and that page exists. */
  lemma RowOnItsPage<T>(rows: seq<T>, pageSize: int, k: int)
    requires pageSize >= 1 && 0 <= k < |rows|
    ensures 1 <= k / pageSize + 1 <= TotalPages(|rows|, pageSize)
    ensures k % pageSize < |PageSlice(rows, k / pageSize + 1, pageSize)|
    ensures PageSlice(rows, k / pageSize + 1, pageSize)[k % pageSize] == rows[k]
  {
    var p := k / pageSize + 1;
    var t := TotalPages(|rows|, pageSize);
    assert k == (p - 1) * pageSize + k % pageSize;
    if p > t {
      ProductMonotone(t, p - 1, pageSize);
    }
  }

  lemma ProductMonotone(a: int, b: int, c: int)
    requires a <= b && c >= 0
    ensures a * c <= b * c
  {
  }

  /** 23 rows at 10 a page, with `page` left at 99: page 3 of 3 is shown,
      holding the last 3 rows. */
  lemma TwentyThreeRows<T>(rows: seq<T>)
    requires |rows| == 23
    ensures TotalPages(|rows|, 10) == 3
    ensures CurrentPage(99, TotalPages(|rows|, 10)) == 3
    ensures PageSlice(rows, 3, 10) == rows[20..]
  {
    assert CeilDiv(23, 10) == 3;
  }

  /** Where the numbered window begins: three pages before the current one,
      moved right so as not to start before page 1 and left so as to end
      on the last page when that leaves room for seven buttons. */
  function WindowStart(currentPage: int, totalPages: int): int
  {
    Max(1, Min(currentPage - 3, totalPages - 6))
  }

  /** The numbered page buttons: the `nums` loop of the pagination bar. */
  method PageWindow(currentPage: int, totalPages: int) returns (nums: seq<int>)
    requires 1 <= currentPage <= totalPages
    ensures |nums| == Min(7, totalPages)
    ensures nums[0] == WindowStart(currentPage, totalPages)
    ensures forall i :: 0 <= i < |nums| ==> nums[i] == nums[0] + i
    ensures forall i :: 0 <= i < |nums| ==> 1 <= nums[i] <= totalPages
    ensures currentPage in nums
  {
    nums := [];
    var start := Max(1, currentPage - 3);
    var end := Min(totalPages, start + 6);
    if end - start < 6 {
      start := Max(1, end - 6);
    }
    for p := start to end + 1
      invariant |nums| == p - start
      invariant forall i :: 0 <= i < |nums| ==> nums[i] == start + i
    {
      nums := nums + [p];
    }
    assert nums[currentPage - start] == currentPage;
  }
}
