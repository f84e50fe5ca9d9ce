/** The scatter chart: `scatterData` built from the filtered records and
    its split into the "Normal" and "Anomaly" series. */
module Charts {
  import opened Basics
  import opened Records
  import opened Summary

  /** One point as the frontend component builds it; `votes` is `null`
      unless it is a number. */
  datatype ScatterPoint = ScatterPoint(
    rating: JsNum,
    metascore: JsNum,
    title: Option<string>,
    isAnomaly: bool,
    kind: string,
    votes: JsNum)

  /** One point as the imdb-dashboard component builds it. */
  datatype PlainPoint = PlainPoint(
    rating: JsNum,
    metascore: JsNum,
    title: Option<string>,
    isAnomaly: bool)

  /** `typeof r.rating === "number" && typeof r.metascore === "number"`. */
  predicate IsPlottable(r: Record)
  {
    IsNumberType(r.rating) && IsNumberType(r.metascore)
  }

  /** The frontend component's `map` callback. */
  function ToPoint(r: Record): (p: ScatterPoint)
    ensures p.isAnomaly == IsRecordAnomaly(r)
    ensures p.kind == TypeOf(r)
    ensures p.rating == r.rating && p.metascore == r.metascore && p.title == r.title
    ensures p.votes == r.votes
  {
    ScatterPoint(r.rating, r.metascore, r.title, IsRecordAnomaly(r), TypeOf(r), r.votes)
  }

  /** The imdb-dashboard component's `map` callback. */
  function ToPlainPoint(r: Record): (p: PlainPoint)
    ensures p.isAnomaly == IsRecordAnomaly(r)
    ensures p.rating == r.rating && p.metascore == r.metascore && p.title == r.title
  {
    PlainPoint(r.rating, r.metascore, r.title, IsRecordAnomaly(r))
  }

  function Plain(p: ScatterPoint): PlainPoint
  {
    PlainPoint(p.rating, p.metascore, p.title, p.isAnomaly)
  }

  /** `scatterData` of the frontend component. */
  function ScatterData(records: seq<Record>): (pts: seq<ScatterPoint>)
    ensures |pts| == |KeepIf(records, IsPlottable)|
    ensures forall i :: 0 <= i < |pts| ==> IsNumberType(pts[i].rating) && IsNumberType(pts[i].metascore)
  {
    var kept := KeepIf(records, IsPlottable);
    var pts := MapSeq(kept, ToPoint);
    assert forall i :: 0 <= i < |pts| ==> pts[i] == ToPoint(kept[i]) && IsPlottable(kept[i]);
    pts
  }

  /** `scatterData` of the imdb-dashboard component. */
  function PlainScatterData(records: seq<Record>): (pts: seq<PlainPoint>)
    ensures |pts| == |KeepIf(records, IsPlottable)|
    ensures forall i :: 0 <= i < |pts| ==> IsNumberType(pts[i].rating) && IsNumberType(pts[i].metascore)
  {
    var kept := KeepIf(records, IsPlottable);
    var pts := MapSeq(kept, ToPlainPoint);
    assert forall i :: 0 <= i < |pts| ==> pts[i] == ToPlainPoint(kept[i]) && IsPlottable(kept[i]);
    pts
  }

  /** The imdb-dashboard points are the frontend points without `type`
      and `votes`. */
  lemma {:induction false} PlainIsProjection(records: seq<Record>)
    ensures PlainScatterData(records) == MapSeq(ScatterData(records), Plain)
  {
    var kept := KeepIf(records, IsPlottable);
    assert forall i :: 0 <= i < |kept| ==> Plain(ToPoint(kept[i])) == ToPlainPoint(kept[i]);
  }

  /** A point is drawn exactly for each record with a number as rating and
      as metascore, and carries its `isRecordAnomaly` verdict. */
  lemma ScatterMembers(records: seq<Record>, p: ScatterPoint)
    ensures p in ScatterData(records)
            <==> exists r :: r in records && IsPlottable(r) && p == ToPoint(r)
  {
    if p in ScatterData(records) {
      DrawnFromRecord(records, p);
    }
    if exists r :: r in records && IsPlottable(r) && p == ToPoint(r) {
      var r :| r in records && IsPlottable(r) && p == ToPoint(r);
      RecordIsDrawn(records, r);
    }
  }

  lemma DrawnFromRecord(records: seq<Record>, p: ScatterPoint)
    requires p in ScatterData(records)
    ensures exists r :: r in records && IsPlottable(r) && p == ToPoint(r)
  {
    var kept := KeepIf(records, IsPlottable);
    var pts := ScatterData(records);
    assert pts == MapSeq(kept, ToPoint);
    var i :| 0 <= i < |pts| && pts[i] == p;
    assert p == ToPoint(kept[i]);
    assert kept[i] in kept;
  }

  lemma RecordIsDrawn(records: seq<Record>, r: Record)
    requires r in records && IsPlottable(r)
    ensures ToPoint(r) in ScatterData(records)
  {
    var kept := KeepIf(records, IsPlottable);
    var pts := ScatterData(records);
    assert pts == MapSeq(kept, ToPoint);
    var i :| 0 <= i < |kept| && kept[i] == r;
    assert pts[i] == ToPoint(r);
  }

  /** The points keep the order of the filtered records. */
  lemma ScatterKeepsOrder(records: seq<Record>)
    ensures IsSubsequence(ScatterData(records), MapSeq(records, ToPoint))
  {
    KeepIfIsSubsequence(records, IsPlottable);
    MapSubsequence(KeepIf(records, IsPlottable), records, ToPoint);
  }

  predicate IsAnomalyPoint(p: ScatterPoint) { p.isAnomaly }

  predicate IsNormalPoint(p: ScatterPoint) { !p.isAnomaly }

  /** `scatterData.filter((d) => !d.is_anomaly)`. */
  function NormalSeries(pts: seq<ScatterPoint>): (s: seq<ScatterPoint>)
    ensures forall p :: p in s <==> p in pts && !p.isAnomaly
  {
    KeepIf(pts, IsNormalPoint)
  }

  /** `scatterData.filter((d) => d.is_anomaly)`. */
  function AnomalySeries(pts: seq<ScatterPoint>): (s: seq<ScatterPoint>)
    ensures forall p :: p in s <==> p in pts && p.isAnomaly
  {
    KeepIf(pts, IsAnomalyPoint)
  }

  /** The two series split the points between them: every point is drawn
      in exactly one of them. */
  lemma SeriesPartition(pts: seq<ScatterPoint>)
    ensures multiset(NormalSeries(pts)) + multiset(AnomalySeries(pts)) == multiset(pts)
    ensures |NormalSeries(pts)| + |AnomalySeries(pts)| == |pts|
    ensures forall p :: !(p in NormalSeries(pts) && p in AnomalySeries(pts))
  {
    KeepIfPartition(pts, IsNormalPoint, IsAnomalyPoint);
  }

  /** The red series has no more points than the anomaly card counts. */
  lemma {:induction false} AnomalyPointsCounted(records: seq<Record>)
    ensures |AnomalySeries(ScatterData(records))| <= AnomalyCount(records)
  {
    if records != [] {
      AnomalyPointsCounted(records[1..]);
      var r := records[0];
      var head := if IsPlottable(r) then [ToPoint(r)] else [];
      assert ScatterData(records) == head + ScatterData(records[1..]) by {
        KeepIfUnfold(records, IsPlottable);
        var kept := KeepIf(records, IsPlottable);
        var rest := KeepIf(records[1..], IsPlottable);
        if IsPlottable(r) {
          assert kept == [r] + rest;
          MapSeqCons(kept, ToPoint);
          assert kept[1..] == rest;
        } else {
          assert kept == rest;
        }
      }
      KeepIfAppend(head, ScatterData(records[1..]), IsAnomalyPoint);
      KeepIfUnfold(records, IsRecordAnomaly);
    }
  }
}
