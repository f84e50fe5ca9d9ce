/** The UI state of the frontend component and the transitions its
    controls trigger: the type buttons, the search box, the genre
    drop-down, the page-size drop-down, Prev/Next, the numbered page
    buttons and the jump-to-page box. This component never changes
    `sortBy` ("rating"), `sortDir` ("desc") or `onlyAnomalies` (false).

    Each transition states the state after React has run the effects it
    triggers: the reset effect (page back to 1 when one of its
    dependencies changed value) and the sync effect (the jump box shows
    `String(currentPage)` whenever the page shown changes). */
module Frontend {
  import opened Basics
  import opened Records
  import opened Filtering
  import opened Ordering
  import opened Paging
  import opened Stats
  import opened Summary
  import opened Charts
  import opened View

  /** The options of the "items per page" drop-down. */
  predicate IsPageSizeOption(n: int)
  {
    n == 5 || n == 10 || n == 20 || n == 50
  }

  function Pow2(k: nat): (p: nat)
    ensures p >= 1
  {
    if k == 0 then 1 else 2 * Pow2(k - 1)
  }

  /** The smallest integer `Number` turns into `Infinity`: the midpoint
      between the largest finite double and 2^1024, which rounds up. */
  const InfinityBound: int := Pow2(1024) - Pow2(970)

  /** What `goToInputPage` does with the text of the box: `None` when it
      returns early (empty after `trim`, or not a finite number), else the
      page it jumps to. A digit string below the bound is read exactly and
      its floor is itself. */
  function JumpTarget(input: string, totalPages: int): (t: Option<int>)
    requires AllDigits(input) && totalPages >= 1
    ensures t.None? <==> input == "" || DecimalValue(input) >= InfinityBound
    ensures t.Some? ==> t.value == Clamp(DecimalValue(input), 1, totalPages)
    ensures t.Some? ==> 1 <= t.value <= totalPages
  {
    TrimOfDigits(input);
    var v := Trim(input);
    if v == "" then None
    else
      var n := DecimalValue(v);
      if n >= InfinityBound then None else Some(Clamp(n, 1, totalPages))
  }

  class FrontendApp {
    const records: seq<Record>
    var query: string
    var genre: string
    var selectedType: string
    var page: int
    var pageSize: int
    var pageInput: string

    ghost predicate Valid()
      reads this
    {
      IsPageSizeOption(pageSize) && page >= 1 && AllDigits(pageInput)
    }

    /** The filter controls; the anomaly switch stays off. */
    function Controls(): Criteria
      reads this`query, this`genre, this`selectedType
    {
      Criteria(selectedType, false, genre, query)
    }

    function Total(): (t: int)
      reads this`query, this`genre, this`selectedType, this`pageSize
      requires pageSize >= 1
      ensures t >= 1
    {
      TotalPages(|Filter(records, Controls())|, pageSize)
    }

    /** `currentPage`. */
    function Current(): (cp: int)
      reads this`query, this`genre, this`selectedType, this`pageSize, this`page
      requires pageSize >= 1
      ensures 1 <= cp <= Total()
      ensures 1 <= page <= Total() ==> cp == page
    {
      CurrentPage(page, Total())
    }

    /** The state once the data is in and the mount effects have run. */
    constructor (records: seq<Record>)
      ensures Valid() && this.records == records
      ensures query == "" && genre == "all" && selectedType == "all" && pageSize == 10
      ensures page == 1 && pageInput == "1"
    {
      this.records := records;
      query := "";
      genre := "all";
      selectedType := "all";
      page := 1;
      pageSize := 10;
      pageInput := "1";
    }

    /** The sync effect, given the page shown before the transition. */
    method SyncPageInput(shownBefore: int)
      requires pageSize >= 1
      modifies this`pageInput
      ensures pageInput == if Current() != shownBefore then NatToDecimal(Current()) else old(pageInput)
    {
      if Current() != shownBefore {
        pageInput := NatToDecimal(Current());
      }
    }

    /** A type button. `selectedType` is not among the reset effect's
        dependencies: the page is kept, and only the clamp brings it back
        into range when the new list has fewer pages. */
    method SetSelectedType(t: string)
      requires Valid()
      modifies this
      ensures Valid()
      ensures selectedType == t && query == old(query) && genre == old(genre)
      ensures pageSize == old(pageSize) && page == old(page)
      ensures Current() == CurrentPage(old(page), Total())
      ensures pageInput == if Current() != old(Current()) then NatToDecimal(Current()) else old(pageInput)
    {
      var before := Current();
      selectedType := t;
      SyncPageInput(before);
    }

    /** The search box. A new query renders once with the old page, whose
        clamped value the sync effect copies into the box, and once more
        after the reset, when the box shows the first page if the shown
        page moved at either render. */
    method SetQuery(q: string)
      requires Valid()
      modifies this
      ensures Valid()
      ensures query == q && genre == old(genre) && selectedType == old(selectedType)
      ensures pageSize == old(pageSize)
      ensures page == if q != old(query) then 1 else old(page)
      ensures q != old(query) ==> Current() == 1
      ensures pageInput == if q != old(query) && (old(Current()) != 1 || CurrentPage(old(page), Total()) != 1)
                           then "1" else old(pageInput)
    {
      var before := Current();
      var changed := q != query;
      query := q;
      SyncPageInput(before);
      if changed {
        var mid := Current();
        page := 1;
        SyncPageInput(mid);
      }
      assert NatToDecimal(1) == "1";
    }

    /** The genre drop-down. */
    method SetGenre(g: string)
      requires Valid()
      modifies this
      ensures Valid()
      ensures genre == g && query == old(query) && selectedType == old(selectedType)
      ensures pageSize == old(pageSize)
      ensures page == if g != old(genre) then 1 else old(page)
      ensures g != old(genre) ==> Current() == 1
      ensures pageInput == if g != old(genre) && (old(Current()) != 1 || CurrentPage(old(page), Total()) != 1)
                           then "1" else old(pageInput)
    {
      var before := Current();
      var changed := g != genre;
      genre := g;
      SyncPageInput(before);
      if changed {
        var mid := Current();
        page := 1;
        SyncPageInput(mid);
      }
      assert NatToDecimal(1) == "1";
    }

    /** The "items per page" drop-down. */
    method SetPageSize(n: int)
      requires Valid() && IsPageSizeOption(n)
      modifies this
      ensures Valid()
      ensures pageSize == n && query == old(query) && genre == old(genre)
      ensures selectedType == old(selectedType)
      ensures page == if n != old(pageSize) then 1 else old(page)
      ensures n != old(pageSize) ==> Current() == 1
      ensures pageInput == if n != old(pageSize) && (old(Current()) != 1 || CurrentPage(old(page), Total()) != 1)
                           then "1" else old(pageInput)
    {
      var before := Current();
      var changed := n != pageSize;
      pageSize := n;
      SyncPageInput(before);
      if changed {
        var mid := Current();
        page := 1;
        SyncPageInput(mid);
      }
      assert NatToDecimal(1) == "1";
    }

    /** Prev: `setPage(clamp(currentPage - 1, 1, totalPages))`. */
    method Prev()
      requires Valid()
      modifies this`page, this`pageInput
      ensures Valid()
      ensures page == Clamp(old(Current()) - 1, 1, Total())
      ensures 1 <= page <= Total() && Current() == page
      ensures old(Current()) > 1 ==> page == old(Current()) - 1
      ensures old(Current()) == 1 ==> page == 1
      ensures pageInput == if page != old(Current()) then NatToDecimal(page) else old(pageInput)
    {
      var before := Current();
      page := Clamp(before - 1, 1, Total());
      SyncPageInput(before);
    }

    /** Next: `setPage(clamp(currentPage + 1, 1, totalPages))`. */
    method Next()
      requires Valid()
      modifies this`page, this`pageInput
      ensures Valid()
      ensures page == Clamp(old(Current()) + 1, 1, Total())
      ensures 1 <= page <= Total() && Current() == page
      ensures old(Current()) < Total() ==> page == old(Current()) + 1
      ensures old(Current()) == Total() ==> page == Total()
      ensures pageInput == if page != old(Current()) then NatToDecimal(page) else old(pageInput)
    {
      var before := Current();
      page := Clamp(before + 1, 1, Total());
      SyncPageInput(before);
    }

    /** A numbered page button; every button carries a page in range. */
    method ClickPageNumber(p: int)
      requires Valid() && 1 <= p <= Total()
      modifies this`page, this`pageInput
      ensures Valid()
      ensures page == p && Current() == p
      ensures pageInput == if p != old(Current()) then NatToDecimal(p) else old(pageInput)
    {
      var before := Current();
      page := p;
      SyncPageInput(before);
    }

    /** Typing in the jump box keeps only its digits. */
    method EditPageInput(typed: string)
      requires Valid()
      modifies this`pageInput
      ensures Valid()
      ensures pageInput == DigitsOnly(typed)
      ensures forall c :: c in pageInput <==> c in typed && IsDigit(c)
    {
      pageInput := DigitsOnly(typed);
    }

    /** `goToInputPage` (Enter or Go): an empty box, or a number too large
        to be finite, changes nothing; otherwise the page and the box both
        become the typed page clamped into range. */
    method GoToInputPage()
      requires Valid()
      modifies this`page, this`pageInput
      ensures Valid()
      ensures JumpTarget(old(pageInput), Total()).None? ==>
                page == old(page) && pageInput == old(pageInput)
      ensures JumpTarget(old(pageInput), Total()).Some? ==>
                page == JumpTarget(old(pageInput), Total()).value
                && Current() == page && pageInput == NatToDecimal(page)
    {
      var target := JumpTarget(pageInput, Total());
      if target.None? {
        return;
      }
      var before := Current();
      page := target.value;
      pageInput := NatToDecimal(page);
      SyncPageInput(before);
    }

    /** The numbered buttons around the page shown. */
    method PageButtons() returns (nums: seq<int>)
      requires Valid()
      ensures |nums| == Min(7, Total())
      ensures forall i :: 0 <= i < |nums| ==> nums[i] == nums[0] + i && 1 <= nums[i] <= Total()
      ensures Current() in nums
    {
      nums := PageWindow(Current(), Total());
    }

    /** The table and the charts of the current state. */
    method Render() returns (v: Derived)
      requires Valid()
      ensures v.filtered == Filter(records, Controls())
      ensures multiset(v.sorted) == multiset(v.filtered) && SortedBy(v.sorted, Rating, Desc)
      ensures v.totalPages == Total() && v.currentPage == Current()
      ensures v.pageSlice == PageSlice(v.sorted, Current(), pageSize)
      ensures v.ratingStats == ComputeStats(Ratings(v.filtered))
      ensures v.anomalyCount == AnomalyCount(v.filtered)
      ensures v.scatter == ScatterData(v.filtered)
    {
      v := View.Render(records, Controls(), Rating, Desc, page, pageSize);
    }
  }

  /** After a jump the box reads back as the page shown. */
  lemma JumpReadsBack(app: FrontendApp)
    requires app.Valid() && app.pageInput == NatToDecimal(app.Current())
    ensures AllDigits(app.pageInput) && DecimalValue(app.pageInput) == app.Current()
  {
    DecimalRoundTrip(app.Current());
  }

  /** Jumping to the page shown changes nothing. */
  lemma JumpToShownPage(input: string, totalPages: int, current: int)
    requires 1 <= current <= totalPages && input == NatToDecimal(current)
    requires current < InfinityBound
    ensures JumpTarget(input, totalPages) == Some(current)
  {
    DecimalRoundTrip(current);
  }
}
