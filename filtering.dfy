/** The `filteredRecords` step: which records the current controls let
    through. Both components run the same test; the imdb-dashboard
    component has no type control, which is the test with `selectedType`
    fixed at "all". */
module Filtering {
  import opened Basics
  import opened Records

  /** The controls the filter reads. */
  datatype Criteria = Criteria(
    selectedType: string,   // "all", "movie" or "tv"
    onlyAnomalies: bool,
    genre: string,          // "all" or one vocabulary entry
    query: string)          // the raw search box text

  /** What the imdb-dashboard component filters with. */
  function DashboardCriteria(onlyAnomalies: bool, genre: string, query: string): (c: Criteria)
    ensures c.selectedType == "all"
  {
    Criteria("all", onlyAnomalies, genre, query)
  }

  /** The imdb-dashboard callback: the anomaly, genre and query tests on
      the component's own controls, and no type test. */
  lemma DashboardPasses(onlyAnomalies: bool, genre: string, query: string, r: Record)
    ensures Passes(DashboardCriteria(onlyAnomalies, genre, query), r)
            <==> (!onlyAnomalies || IsRecordAnomaly(r))
                 && (genre == "all" || genre in r.genres)
                 && (SearchTerm(query) == "" || Contains(ToLower(Haystack(r)), SearchTerm(query)))
  {
  }

  /** The controls before the user touches anything. */
  const NoCriteria := Criteria("all", false, "all", "")

  /** `${r.title ?? ""} ${r.year ?? ""} ${genres.join(" ")}`. */
  function Haystack(r: Record): (h: string)
    ensures r.title.Some? ==> Contains(h, r.title.value)
    ensures r.year.Some? ==> Contains(h, IntToDecimal(r.year.value))
    ensures forall k :: 0 <= k < |r.genres| ==> Contains(h, r.genres[k])
  {
    var t := if r.title.Some? then r.title.value else "";
    var y := if r.year.Some? then IntToDecimal(r.year.value) else "";
    HaystackParts(t, y, r.genres);
    t + " " + y + " " + JoinWithSpace(r.genres)
  }

  /** Each part of `${t} ${y} ${genres}` occurs in it. */
  lemma HaystackParts(t: string, y: string, gs: seq<string>)
    ensures var h := t + " " + y + " " + JoinWithSpace(gs);
            && Contains(h, t) && Contains(h, y)
            && forall k :: 0 <= k < |gs| ==> Contains(h, gs[k])
  {
    var g := JoinWithSpace(gs);
    ContainsSelf(t);
    ContainsExtend(t, t, " ");
    ContainsExtend(t + " ", t, y);
    ContainsExtend(t + " " + y, t, " ");
    ContainsExtend(t + " " + y + " ", t, g);
    ContainsSelf(y);
    ContainsShift(t + " ", y, y);
    ContainsExtend(t + " " + y, y, " ");
    ContainsExtend(t + " " + y + " ", y, g);
    forall k | 0 <= k < |gs| ensures Contains(t + " " + y + " " + g, gs[k]) {
      ContainsShift(t + " " + y + " ", g, gs[k]);
    }
  }

  /** `query.trim().toLowerCase()`. */
  function SearchTerm(query: string): string
  {
    ToLower(Trim(query))
  }

  /** The four tests of the filter callback, in the order it runs them. */
  predicate TypeTest(c: Criteria, r: Record)
  {
    c.selectedType == "all" || TypeOf(r) == c.selectedType
  }

  predicate AnomalyTest(c: Criteria, r: Record)
  {
    !c.onlyAnomalies || IsRecordAnomaly(r)
  }

  /** `gs.includes(genre)`: exact, case-sensitive, untrimmed membership. */
  predicate GenreTest(c: Criteria, r: Record)
  {
    c.genre == "all" || c.genre in r.genres
  }

  predicate QueryTest(c: Criteria, r: Record)
  {
    var q := SearchTerm(c.query);
    q == "" || Contains(SafeLower(Some(Haystack(r))), q)
  }

  /** The filter callback: a control left at "all", off or blank lets
      every record through, and a record that passes meets every control
      that is set. */
  function Passes(c: Criteria, r: Record): (b: bool)
    ensures (c.selectedType == "all" && !c.onlyAnomalies && c.genre == "all"
             && SearchTerm(c.query) == "") ==> b
    ensures b && c.selectedType != "all" ==> TypeOf(r) == c.selectedType
    ensures b && c.onlyAnomalies ==> IsRecordAnomaly(r)
    ensures b && c.genre != "all" ==> c.genre in r.genres
    ensures b && SearchTerm(c.query) != "" ==> Contains(ToLower(Haystack(r)), SearchTerm(c.query))
    ensures (c.selectedType == "all" || TypeOf(r) == c.selectedType)
            && (!c.onlyAnomalies || IsRecordAnomaly(r))
            && (c.genre == "all" || c.genre in r.genres)
            && (SearchTerm(c.query) == "" || Contains(ToLower(Haystack(r)), SearchTerm(c.query)))
            ==> b
  {
    TypeTest(c, r) && AnomalyTest(c, r) && GenreTest(c, r) && QueryTest(c, r)
  }

  /** The filter callback as a value. */
  function Test(c: Criteria): Record -> bool
  {
    r => Passes(c, r)
  }

  /** `records.filter(...)`: the records that pass, in their order. */
  function Filter(records: seq<Record>, c: Criteria): (out: seq<Record>)
    ensures |out| <= |records|
    ensures forall r :: r in out <==> r in records && Passes(c, r)
  {
    KeepIf(records, Test(c))
  }

  /** No record is reordered or invented: the result is a subsequence. */
  lemma FilterIsSubsequence(records: seq<Record>, c: Criteria)
    ensures IsSubsequence(Filter(records, c), records)
  {
    KeepIfIsSubsequence(records, Test(c));
  }

  /** Filtering the filtered list again changes nothing. */
  lemma FilterIdempotent(records: seq<Record>, c: Criteria)
    ensures Filter(Filter(records, c), c) == Filter(records, c)
  {
    KeepIfIdempotent(records, Test(c));
  }

  /** What a kept record satisfies, test by test: its type (a missing or
      empty type reads as "movie"), its anomaly flags, exact membership of
      the chosen genre, and the trimmed lower-case query inside its
      lower-case haystack. */
  lemma KeptRecord(records: seq<Record>, c: Criteria, r: Record)
    requires r in Filter(records, c)
    ensures c.selectedType != "all" ==>
              (if r.kind.Some? && r.kind.value != "" then r.kind.value else "movie") == c.selectedType
    ensures c.onlyAnomalies ==> IsRecordAnomaly(r)
    ensures c.genre != "all" ==> c.genre in r.genres
    ensures SearchTerm(c.query) != "" ==>
              exists i :: OccursAt(ToLower(Haystack(r)), SearchTerm(c.query), i)
  {
  }

  /** With every control at its default the list comes back unchanged. */
  lemma FilterDefaults(records: seq<Record>)
    ensures Filter(records, NoCriteria) == records
  {
    assert Trim("") == "";
    KeepIfAll(records, Test(NoCriteria));
  }

  /** Surrounding spaces in the search box do not change the result. */
  lemma QueryIsTrimmed(records: seq<Record>, c: Criteria, pad: string)
    requires AllWhitespace(pad)
    ensures Filter(records, c.(query := pad + c.query + pad))
            == Filter(records, c)
  {
    TrimPadded(c.query, pad);
    var c' := c.(query := pad + c.query + pad);
    forall x ensures Test(c')(x) == Test(c)(x) {
      SameSearchPasses(c', c, x);
    }
    KeepIfSameTest(records, Test(c'), Test(c));
  }

  /** Controls that differ only in the raw query, with the same search
      term, let the same records through. */
  lemma SameSearchPasses(c: Criteria, c': Criteria, r: Record)
    requires c.selectedType == c'.selectedType && c.onlyAnomalies == c'.onlyAnomalies
    requires c.genre == c'.genre && SearchTerm(c.query) == SearchTerm(c'.query)
    ensures Passes(c, r) == Passes(c', r)
  {
    assert QueryTest(c, r) == QueryTest(c', r);
  }

  /** The genre test does not trim: a record tagged " Drama " is not shown
      for the vocabulary entry "Drama", though the vocabulary lists it as
      "Drama". */
  lemma UntrimmedGenreMisses(r: Record)
    requires r.genres == [" Drama "]
    ensures !Passes(Criteria("all", false, "Drama", ""), r)
  {
    assert r.genres[0] != "Drama";
  }
}
