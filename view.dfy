/** One render of either component: records and controls in, every
    derived value of the table and the charts out, computed in the order
    the component's memos depend on each other. */
module View {
  import opened Basics
  import opened Records
  import opened Stats
  import opened Filtering
  import opened Ordering
  import opened Paging
  import opened Summary
  import opened Charts

  /** The derived values of one render. */
  datatype Derived = Derived(
    filtered: seq<Record>,          // filteredRecords
    sorted: seq<Record>,            // sortedRecords
    totalPages: int,
    currentPage: int,
    pageSlice: seq<Record>,
    ratingStats: Option<BoxStats>,
    anomalyCount: nat,
    scatter: seq<ScatterPoint>)

  /** The memo chain `filteredRecords` → `sortedRecords` → `totalPages` →
      `currentPage` → `pageSlice`, with `ratingStats`, `anomalyCount` and
      `scatterData` taken from the filtered (not the sorted) list. */
  method Render(records: seq<Record>, c: Criteria, key: SortKey, dir: SortDir,
                page: int, pageSize: int) returns (v: Derived)
    requires pageSize >= 1
    ensures v.filtered == Filter(records, c)
    ensures multiset(v.sorted) == multiset(v.filtered) && SortedBy(v.sorted, key, dir)
    ensures v.totalPages == TotalPages(|v.filtered|, pageSize)
    ensures v.currentPage == CurrentPage(page, v.totalPages)
    ensures v.pageSlice == PageSlice(v.sorted, v.currentPage, pageSize)
    ensures |v.pageSlice| <= pageSize
    ensures forall r :: r in v.pageSlice ==> r in records && Passes(c, r)
    ensures v.ratingStats == ComputeStats(Ratings(v.filtered))
    ensures v.anomalyCount == AnomalyCount(v.filtered) && v.anomalyCount <= |v.filtered|
    ensures v.scatter == ScatterData(v.filtered)
  {
    var filtered := Filter(records, c);
    var sorted := SortRecords(filtered, key, dir);
    var totalPages := TotalPages(|sorted|, pageSize);
    var currentPage := CurrentPage(page, totalPages);
    var slice := PageSlice(sorted, currentPage, pageSize);
    PageRowsPass(records, c, sorted, currentPage, pageSize);
    v := Derived(filtered, sorted, totalPages, currentPage, slice,
                 ComputeStats(Ratings(filtered)), AnomalyCount(filtered), ScatterData(filtered));
  }

  /** The rows of any page of a rearrangement of the filtered list pass
      the filter. */
  lemma PageRowsPass(records: seq<Record>, c: Criteria, sorted: seq<Record>,
                     currentPage: int, pageSize: int)
    requires currentPage >= 1 && pageSize >= 1
    requires multiset(sorted) == multiset(Filter(records, c))
    ensures forall r :: r in PageSlice(sorted, currentPage, pageSize) ==> r in records && Passes(c, r)
  {
    var slice := PageSlice(sorted, currentPage, pageSize);
    PermutationMembers(sorted, Filter(records, c));
    forall r | r in slice ensures r in records && Passes(c, r) {
      var i :| 0 <= i < |slice| && slice[i] == r;
      assert r == sorted[(currentPage - 1) * pageSize + i];
    }
  }
}
