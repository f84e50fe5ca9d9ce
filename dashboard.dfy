/** The UI state of the imdb-dashboard component and the transitions its
    controls trigger: search box, genre drop-down, anomaly checkbox,
    rows-per-page drop-down, the sortable column headers, and Prev/Next.

    Every control that changes what is listed is a dependency of the reset
    effect, so the stored page never leaves `[1, totalPages]`: that is the
    class invariant, and it is why Prev/Next can work on the stored page. */
module Dashboard {
  import opened Basics
  import opened Records
  import opened Filtering
  import opened Ordering
  import opened Paging
  import opened Stats
  import opened Summary
  import opened Charts
  import opened View

  /** The options of the rows-per-page drop-down. */
  predicate IsRowsOption(n: int)
  {
    n == 10 || n == 25 || n == 50
  }

  /** The direction a header click picks: descending only on a second
      click of the column already sorted ascending. */
  function NextDir(current: SortKey, dir: SortDir, clicked: SortKey): (d: SortDir)
    ensures d == Desc <==> current == clicked && dir == Asc
  {
    if current == clicked && dir == Asc then Desc else Asc
  }

  /** Clicking the same header again and again alternates the direction,
      starting from ascending unless the column was already ascending. */
  lemma HeaderClicksAlternate(current: SortKey, dir: SortDir, clicked: SortKey)
    ensures current != clicked ==> NextDir(current, dir, clicked) == Asc
    ensures NextDir(clicked, NextDir(current, dir, clicked), clicked) != NextDir(current, dir, clicked)
  {
  }

  class DashboardApp {
    const records: seq<Record>
    var query: string
    var genre: string
    var onlyAnomalies: bool
    var page: int
    var pageSize: int
    var sortBy: SortKey
    var sortDir: SortDir

    function Controls(): Criteria
      reads this`query, this`genre, this`onlyAnomalies
    {
      DashboardCriteria(onlyAnomalies, genre, query)
    }

    function Total(): (t: int)
      reads this`query, this`genre, this`onlyAnomalies, this`pageSize
      requires pageSize >= 1
      ensures t >= 1
    {
      TotalPages(|Filter(records, Controls())|, pageSize)
    }

    ghost predicate Valid()
      reads this
    {
      IsRowsOption(pageSize) && 1 <= page <= Total()
    }

    /** `currentPage`; under the invariant it is the stored page. */
    function Current(): (cp: int)
      reads this`query, this`genre, this`onlyAnomalies, this`pageSize, this`page
      requires pageSize >= 1
      ensures 1 <= cp <= Total()
      ensures 1 <= page <= Total() ==> cp == page
    {
      CurrentPage(page, Total())
    }

    /** The state once the data is in and the mount effects have run. */
    constructor (records: seq<Record>)
      ensures Valid() && this.records == records
      ensures query == "" && genre == "all" && !onlyAnomalies && pageSize == 10
      ensures sortBy == Rating && sortDir == Desc && page == 1
    {
      this.records := records;
      query := "";
      genre := "all";
      onlyAnomalies := false;
      page := 1;
      pageSize := 10;
      sortBy := Rating;
      sortDir := Desc;
    }

    /** The search box. */
    method SetQuery(q: string)
      requires Valid()
      modifies this`query, this`page
      ensures Valid()
      ensures query == q
      ensures page == if q != old(query) then 1 else old(page)
    {
      var changed := q != query;
      query := q;
      if changed {
        page := 1;
      }
    }

    /** The genre drop-down. */
    method SetGenre(g: string)
      requires Valid()
      modifies this`genre, this`page
      ensures Valid()
      ensures genre == g
      ensures page == if g != old(genre) then 1 else old(page)
    {
      var changed := g != genre;
      genre := g;
      if changed {
        page := 1;
      }
    }

    /** The "Only anomalies" checkbox. */
    method SetOnlyAnomalies(on: bool)
      requires Valid()
      modifies this`onlyAnomalies, this`page
      ensures Valid()
      ensures onlyAnomalies == on
      ensures page == if on != old(onlyAnomalies) then 1 else old(page)
    {
      var changed := on != onlyAnomalies;
      onlyAnomalies := on;
      if changed {
        page := 1;
      }
    }

    /** The rows-per-page drop-down. */
    method SetPageSize(n: int)
      requires Valid() && IsRowsOption(n)
      modifies this`pageSize, this`page
      ensures Valid()
      ensures pageSize == n
      ensures page == if n != old(pageSize) then 1 else old(page)
    {
      var changed := n != pageSize;
      pageSize := n;
      if changed {
        page := 1;
      }
    }

    /** A column header: sort by that column, ascending unless it was
        already the ascending column. Either the key or the direction
        changes, so the page always goes back to 1. */
    method ClickHeader(key: SortKey)
      requires Valid()
      modifies this`sortBy, this`sortDir, this`page
      ensures Valid()
      ensures sortBy == key
      ensures sortDir == Desc <==> old(sortBy) == key && old(sortDir) == Asc
      ensures sortBy != old(sortBy) || sortDir != old(sortDir)
      ensures page == 1
    {
      var dir := NextDir(sortBy, sortDir, key);
      var changed := key != sortBy || dir != sortDir;
      sortBy := key;
      sortDir := dir;
      if changed {
        page := 1;
      }
    }

    /** Prev: disabled on the first page, else `Math.max(1, p - 1)`. */
    method Prev()
      requires Valid()
      modifies this`page
      ensures Valid()
      ensures old(page) <= 1 ==> page == old(page)
      ensures old(page) > 1 ==> page == old(page) - 1
    {
      if Current() <= 1 {
        return;
      }
      page := Max(1, page - 1);
    }

    /** Next: disabled on the last page, else `Math.min(totalPages, p + 1)`. */
    method Next()
      requires Valid()
      modifies this`page
      ensures Valid()
      ensures old(page) >= Total() ==> page == old(page)
      ensures old(page) < Total() ==> page == old(page) + 1
    {
      if Current() >= Total() {
        return;
      }
      page := Min(Total(), page + 1);
    }

    /** The table and the charts of the current state. */
    method Render() returns (v: Derived)
      requires Valid()
      ensures v.filtered == Filter(records, Controls())
      ensures multiset(v.sorted) == multiset(v.filtered) && SortedBy(v.sorted, sortBy, sortDir)
      ensures v.totalPages == Total() && v.currentPage == page
      ensures v.pageSlice == PageSlice(v.sorted, page, pageSize)
      ensures v.ratingStats == ComputeStats(Ratings(v.filtered))
      ensures v.anomalyCount == AnomalyCount(v.filtered)
      ensures v.scatter == ScatterData(v.filtered)
      ensures MapSeq(v.scatter, Plain) == PlainScatterData(v.filtered)
    {
      v := View.Render(records, Controls(), sortBy, sortDir, page, pageSize);
      PlainIsProjection(v.filtered);
    }
  }
}
