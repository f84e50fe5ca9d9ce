/** The summary figures: `typeCounts` (the Movies / TV Shows cards), the
    `ratings` list behind the box plot, `anomalyCount` and
    `overallAnomalyCount`, and `overallMeanRating` (the Avg Rating card). */
module Summary {
  import opened Basics
  import opened Records
  import opened Stats
  import opened Filtering

  /** The number of records whose type reads as `t`. */
  function CountType(records: seq<Record>, t: string): (n: nat)
    ensures n <= |records|
  {
    if records == [] then 0
    else CountType(records[..|records| - 1], t)
         + (if TypeOf(records[|records| - 1]) == t then 1 else 0)
  }

  /** What the accumulator holds once `prefix` has been counted. */
  ghost predicate CountsOf(prefix: seq<Record>, counts: map<string, nat>)
  {
    && "all" in counts && counts["all"] == |prefix| + CountType(prefix, "all")
    && (forall t :: t != "all" ==> (t in counts <==> CountType(prefix, t) > 0))
    && (forall t :: t != "all" && t in counts ==> counts[t] == CountType(prefix, t))
  }

  /** `typeCounts`: the `reduce` over `records` with the accumulator
      `{ all: 0 }`. Each record adds one under its type, then one under
      `all`; a record whose type is the string "all" therefore adds two
      under `all`. */
  method TypeCounts(records: seq<Record>) returns (counts: map<string, nat>)
    ensures "all" in counts && counts["all"] == |records| + CountType(records, "all")
    ensures forall t :: t != "all" ==> (t in counts <==> CountType(records, t) > 0)
    ensures forall t :: t != "all" && t in counts ==> counts[t] == CountType(records, t)
  {
    counts := map["all" := 0];
    for i := 0 to |records|
      invariant CountsOf(records[..i], counts)
    {
      var t := TypeOf(records[i]);
      var before := counts;
      counts := counts[t := (if t in counts then counts[t] else 0) + 1];
      counts := counts["all" := counts["all"] + 1];
      CountsStep(records, i, before, counts);
    }
    assert records[..|records|] == records;
  }

  /** One record of the `reduce` keeps the accumulator in step. */
  lemma CountsStep(records: seq<Record>, i: int, before: map<string, nat>, after: map<string, nat>)
    requires 0 <= i < |records| && CountsOf(records[..i], before)
    requires var t := TypeOf(records[i]);
             var mid := before[t := (if t in before then before[t] else 0) + 1];
             after == mid["all" := mid["all"] + 1]
    ensures CountsOf(records[..i + 1], after)
  {
    CountTypeStep(records, i);
  }

  /** Extending the counted prefix by one record adds one under its type. */
  lemma CountTypeStep(records: seq<Record>, i: int)
    requires 0 <= i < |records|
    ensures forall t :: CountType(records[..i + 1], t)
                        == CountType(records[..i], t) + (if TypeOf(records[i]) == t then 1 else 0)
  {
    assert records[..i + 1][..i] == records[..i];
  }

  /** When no record is typed "all", `all` is the number of records. */
  lemma {:induction false} NoAllType(records: seq<Record>)
    requires forall i :: 0 <= i < |records| ==> TypeOf(records[i]) != "all"
    ensures CountType(records, "all") == 0
  {
    if records != [] {
      NoAllType(records[..|records| - 1]);
    }
  }

  /** A record with no type (or an empty one) is counted under "movie". */
  lemma UntypedIsMovie(records: seq<Record>, r: Record)
    requires r.kind.None? || r.kind == Some("")
    ensures CountType(records + [r], "movie") == CountType(records, "movie") + 1
  {
    assert (records + [r])[..|records|] == records;
  }

  /** The per-type counts of a list of types. */
  function SumCounts(records: seq<Record>, types: seq<string>): nat
  {
    if types == [] then 0 else CountType(records, types[0]) + SumCounts(records, types[1..])
  }

  /** How often `t` occurs in `types`. */
  function Occurrences(types: seq<string>, t: string): nat
  {
    if types == [] then 0 else (if types[0] == t then 1 else 0) + Occurrences(types[1..], t)
  }

  lemma {:induction false} OccursOnce(types: seq<string>, t: string)
    requires NoDuplicates(types) && t in types
    ensures Occurrences(types, t) == 1
  {
    if types[0] == t {
      NotOccurring(types[1..], t);
    } else {
      assert t in types[1..];
      OccursOnce(types[1..], t);
    }
  }

  lemma {:induction false} NotOccurring(types: seq<string>, t: string)
    requires t !in types
    ensures Occurrences(types, t) == 0
  {
    if types != [] {
      NotOccurring(types[1..], t);
    }
  }

  lemma {:induction false} SumCountsSnoc(records: seq<Record>, r: Record, types: seq<string>)
    ensures SumCounts(records + [r], types) == SumCounts(records, types) + Occurrences(types, TypeOf(r))
  {
    assert (records + [r])[..|records|] == records;
    if types != [] {
      SumCountsSnoc(records, r, types[1..]);
    }
  }

  /** The per-type counts add up to the number of records, for any list
      of distinct types that covers every record's type. */
  lemma {:induction false} CountsAddUp(records: seq<Record>, types: seq<string>)
    requires NoDuplicates(types)
    requires forall i :: 0 <= i < |records| ==> TypeOf(records[i]) in types
    ensures SumCounts(records, types) == |records|
  {
    if records == [] {
      EmptyCounts(types);
    } else {
      var init, last := records[..|records| - 1], records[|records| - 1];
      assert records == init + [last];
      CountsAddUp(init, types);
      SumCountsSnoc(init, last, types);
      OccursOnce(types, TypeOf(last));
    }
  }

  lemma {:induction false} EmptyCounts(types: seq<string>)
    ensures SumCounts([], types) == 0
  {
    if types != [] {
      EmptyCounts(types[1..]);
    }
  }

  /** The dashboard's data holds movies and TV shows only: then the two
      cards add up to `all`. */
  lemma MoviesPlusShows(records: seq<Record>)
    requires forall i :: 0 <= i < |records| ==> TypeOf(records[i]) == "movie" || TypeOf(records[i]) == "tv"
    ensures CountType(records, "movie") + CountType(records, "tv") == |records|
  {
    CountsAddUp(records, ["movie", "tv"]);
    assert SumCounts(records, ["tv"]) == CountType(records, "tv") + SumCounts(records, []);
  }

  /** `rating` as read by `typeof r.rating === "number" ? r.rating : null`. */
  function RatingOf(r: Record): JsNum
  {
    r.rating
  }

  /** The ratings that are numbers (NaN included), in record order: the
      `map(...).filter((x) => x != null)` chain. */
  function Ratings(records: seq<Record>): (vals: seq<JsNum>)
    ensures |vals| <= |records|
    ensures forall i :: 0 <= i < |vals| ==> IsNumberType(vals[i])
  {
    KeepIf(MapSeq(records, RatingOf), IsNumberType)
  }

  /** Peeling off the first record. */
  lemma RatingsCons(records: seq<Record>)
    requires records != []
    ensures Ratings(records)
            == (if IsNumberType(records[0].rating) then [records[0].rating] else [])
               + Ratings(records[1..])
  {
    var all := MapSeq(records, RatingOf);
    assert all == [records[0].rating] + MapSeq(records[1..], RatingOf);
    assert all[1..] == MapSeq(records[1..], RatingOf);
  }

  /** The list holds exactly the ratings of the records that are numbers. */
  lemma {:induction false} RatingsMembers(records: seq<Record>, v: JsNum)
    ensures v in Ratings(records) <==> IsNumberType(v) && exists i :: 0 <= i < |records| && records[i].rating == v
  {
    if records != [] {
      RatingsCons(records);
      RatingsMembers(records[1..], v);
      if exists i :: 0 <= i < |records| && records[i].rating == v {
        var i :| 0 <= i < |records| && records[i].rating == v;
        if i > 0 {
          assert records[1..][i - 1].rating == v;
        }
      }
      if exists i :: 0 <= i < |records[1..]| && records[1..][i].rating == v {
        var i :| 0 <= i < |records[1..]| && records[1..][i].rating == v;
        assert records[i + 1].rating == v;
      }
    }
  }

  /** A record has a rating `computeStats` uses: a number other than NaN. */
  predicate HasNumericRating(r: Record)
  {
    IsNumeric(r.rating)
  }

  /** The box plot counts exactly the records with a numeric rating. */
  lemma {:induction false} RatingsCount(records: seq<Record>)
    ensures |KeepIf(Ratings(records), IsNumeric)| == |KeepIf(records, HasNumericRating)|
  {
    if records != [] {
      RatingsCount(records[1..]);
      RatingsCons(records);
      KeepIfAppend(if IsNumberType(records[0].rating) then [records[0].rating] else [],
                   Ratings(records[1..]), IsNumeric);
    }
  }

  /** `filter((r) => isRecordAnomaly(r)).length`. */
  function AnomalyCount(records: seq<Record>): (n: nat)
    ensures n <= |records|
    ensures n == 0 <==> forall i :: 0 <= i < |records| ==> !IsRecordAnomaly(records[i])
  {
    var flagged := KeepIf(records, IsRecordAnomaly);
    assert flagged == [] <==> forall i :: 0 <= i < |records| ==> !IsRecordAnomaly(records[i]) by {
      if flagged != [] {
        assert flagged[0] in flagged;
      } else {
        forall i | 0 <= i < |records| ensures !IsRecordAnomaly(records[i]) {
          assert records[i] in records;
        }
      }
    }
    |flagged|
  }

  predicate IsNormalRecord(r: Record) { !IsRecordAnomaly(r) }

  /** The anomaly card counts the rows the "Only anomalies" switch keeps,
      and those and the normal rows make up the whole list. */
  lemma AnomalyCountIsSwitchRows(records: seq<Record>)
    ensures AnomalyCount(records) == |Filter(records, NoCriteria.(onlyAnomalies := true))|
    ensures AnomalyCount(records) + |KeepIf(records, IsNormalRecord)| == |records|
  {
    var c := NoCriteria.(onlyAnomalies := true);
    assert SearchTerm(c.query) == "" by {
      assert Trim("") == "";
    }
    forall r ensures Test(c)(r) == IsRecordAnomaly(r) {
      assert TypeTest(c, r) && GenreTest(c, r) && QueryTest(c, r);
    }
    KeepIfSameTest(records, Test(c), IsRecordAnomaly);
    KeepIfPartition(records, IsRecordAnomaly, IsNormalRecord);
  }

  /** `s + v` of JavaScript numbers: NaN absorbs. */
  function AddJs(a: JsNum, b: JsNum): JsNum
    requires IsNumberType(a) && IsNumberType(b)
  {
    if a.NaN? || b.NaN? then NaN else Num(a.value + b.value)
  }

  /** `vals.reduce((s, v) => s + v, 0)` on numbers. */
  function SumJs(vals: seq<JsNum>): (s: JsNum)
    requires forall i :: 0 <= i < |vals| ==> IsNumberType(vals[i])
    ensures s.NaN? <==> exists i :: 0 <= i < |vals| && vals[i].NaN?
    ensures s.Num? ==> s.value == Sum(CleanNumbers(vals))
    ensures IsNumberType(s)
  {
    if vals == [] then Num(0.0)
    else
      var rest := SumJs(vals[1..]);
      SumJsStep(vals, rest);
      AddJs(vals[0], rest)
  }

  /** One step of the reduction keeps both facts about the running sum. */
  lemma SumJsStep(vals: seq<JsNum>, rest: JsNum)
    requires vals != [] && forall i :: 0 <= i < |vals| ==> IsNumberType(vals[i])
    requires IsNumberType(rest)
    requires rest.NaN? <==> exists i :: 0 <= i < |vals[1..]| && vals[1..][i].NaN?
    requires rest.Num? ==> rest.value == Sum(CleanNumbers(vals[1..]))
    ensures AddJs(vals[0], rest).NaN? <==> exists i :: 0 <= i < |vals| && vals[i].NaN?
    ensures AddJs(vals[0], rest).Num? ==> AddJs(vals[0], rest).value == Sum(CleanNumbers(vals))
  {
    NaNCons(vals);
    SumCleanCons(vals);
  }

  lemma NaNCons(vals: seq<JsNum>)
    requires vals != []
    ensures (exists i :: 0 <= i < |vals| && vals[i].NaN?)
            <==> vals[0].NaN? || exists i :: 0 <= i < |vals[1..]| && vals[1..][i].NaN?
  {
    if exists i :: 0 <= i < |vals| && vals[i].NaN? {
      var i :| 0 <= i < |vals| && vals[i].NaN?;
      if i > 0 {
        assert vals[1..][i - 1].NaN?;
      }
    }
    if exists i :: 0 <= i < |vals[1..]| && vals[1..][i].NaN? {
      var i :| 0 <= i < |vals[1..]| && vals[1..][i].NaN?;
      assert vals[i + 1].NaN?;
    }
  }

  lemma SumCleanCons(vals: seq<JsNum>)
    requires vals != []
    ensures Sum(CleanNumbers(vals))
            == (if vals[0].Num? then vals[0].value else 0.0) + Sum(CleanNumbers(vals[1..]))
  {
    var rest := CleanNumbers(vals[1..]);
    CleanNumbersCons(vals);
    if vals[0].Num? {
      var c := [vals[0].value] + rest;
      assert c[0] == vals[0].value && c[1..] == rest;
      assert Sum(c) == c[0] + Sum(c[1..]);
    } else {
      assert [] + rest == rest;
    }
  }

  /** `overallMeanRating`: `null` when no rating is a number, NaN when one
      of them is NaN, otherwise the mean of the ratings. */
  function OverallMeanRating(records: seq<Record>): (m: JsNum)
    ensures m.Missing? <==> forall i :: 0 <= i < |records| ==> !IsNumberType(records[i].rating)
    ensures m.NaN? <==> exists i :: 0 <= i < |records| && records[i].rating.NaN?
  {
    var vals := Ratings(records);
    assert vals == [] <==> forall i :: 0 <= i < |records| ==> !IsNumberType(records[i].rating) by {
      if vals != [] {
        RatingsMembers(records, vals[0]);
      } else {
        forall i | 0 <= i < |records| ensures !IsNumberType(records[i].rating) {
          RatingsMembers(records, records[i].rating);
        }
      }
    }
    assert (exists i :: 0 <= i < |vals| && vals[i].NaN?)
           <==> exists i :: 0 <= i < |records| && records[i].rating.NaN? by {
      RatingsMembers(records, NaN);
      if exists i :: 0 <= i < |vals| && vals[i].NaN? {
        var i :| 0 <= i < |vals| && vals[i].NaN?;
        assert vals[i] in vals;
      }
    }
    if vals == [] then Missing
    else
      var total := SumJs(vals);
      if total.NaN? then NaN else Num(total.value / |vals| as real)
  }

  /** Without NaN ratings the Avg Rating card and the box plot of the
      unfiltered list show the same mean. */
  lemma MeanMatchesBoxPlot(records: seq<Record>)
    requires exists i :: 0 <= i < |records| && IsNumeric(records[i].rating)
    requires forall i :: 0 <= i < |records| ==> !records[i].rating.NaN?
    ensures ComputeStats(Ratings(records)).Some?
    ensures OverallMeanRating(records) == Num(ComputeStats(Ratings(records)).value.mean)
  {
    var vals := Ratings(records);
    var i :| 0 <= i < |records| && IsNumeric(records[i].rating);
    RatingsMembers(records, records[i].rating);
    var k :| 0 <= k < |vals| && vals[k] == records[i].rating;
    assert forall j :: 0 <= j < |vals| ==> vals[j].Num? by {
      forall j | 0 <= j < |vals| ensures vals[j].Num? {
        RatingsMembers(records, vals[j]);
      }
    }
    MeanOfNumbers(vals, k);
  }

  lemma MeanOfNumbers(vals: seq<JsNum>, k: int)
    requires 0 <= k < |vals| && vals[k].Num?
    requires forall j :: 0 <= j < |vals| ==> vals[j].Num?
    ensures ComputeStats(vals).Some?
    ensures SumJs(vals) == Num(Sum(CleanNumbers(vals)))
    ensures ComputeStats(vals).value.mean == Sum(CleanNumbers(vals)) / |vals| as real
  {
    assert IsNumeric(vals[k]);
    ComputeStatsMean(vals);
    AllNumbersClean(vals);
  }

  /** When every value is a number, nothing is cleaned away. */
  lemma {:induction false} AllNumbersClean(vals: seq<JsNum>)
    requires forall j :: 0 <= j < |vals| ==> vals[j].Num?
    ensures |CleanNumbers(vals)| == |vals|
  {
    if vals != [] {
      assert forall j :: 1 <= j < |vals| ==> vals[1..][j - 1] == vals[j];
      AllNumbersClean(vals[1..]);
    }
  }
}
