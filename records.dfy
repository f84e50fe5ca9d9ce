/** The dataset record and the precomputed anomaly flags it carries. */
module Records {
  import opened Basics

  /** One media entry of `records`. Fields the dashboards never read
      (such as `url`) are left out. */
  datatype Record = Record(
    title: Option<string>,
    year: Option<int>,
    kind: Option<string>,          // the `type` field: "movie", "tv", ...
    rating: JsNum,
    metascore: JsNum,
    votes: JsNum,
    durationMin: JsNum,
    genres: seq<string>,           // [] when `genres` is not an array
    isAnomaly: bool,               // flags: an absent flag reads as false
    ratingHighMetaLow: bool,
    durationOutlier: bool,
    ratingVotesInconsistent: bool)

  /** `r?.type || "movie"`: the record's own non-empty type, else "movie". */
  function TypeOf(r: Record): (t: string)
    ensures t != ""
    ensures t == "movie" || r.kind == Some(t)
    ensures r.kind.None? || r.kind == Some("") ==> t == "movie"
    ensures r.kind.Some? && r.kind.value != "" ==> t == r.kind.value
  {
    if r.kind.Some? && r.kind.value != "" then r.kind.value else "movie"
  }

  /** `isRecordAnomaly(r)`: the OR of the four anomaly flags. */
  function IsRecordAnomaly(r: Record): (b: bool)
    ensures b <==> r.isAnomaly || FlaggedReasons(r) != []
  {
    r.isAnomaly || r.ratingHighMetaLow || r.durationOutlier || r.ratingVotesInconsistent
  }

  const HighRatingLowMeta := "High rating + low metascore"
  const DurationOutlierIqr := "Duration outlier (IQR)"
  const RatingVotesResidual := "Rating-votes inconsistency (residual)"

  /** The three explained reasons, in the order they are reported. */
  const AllReasons: seq<string> := [HighRatingLowMeta, DurationOutlierIqr, RatingVotesResidual]

  /** The flag behind each entry of `AllReasons`. */
  function ReasonFlags(r: Record): (f: seq<bool>)
    ensures |f| == |AllReasons|
  {
    [r.ratingHighMetaLow, r.durationOutlier, r.ratingVotesInconsistent]
  }

  /** What `getAnomalyReasons` promises: the reasons whose flag is set, in
      the fixed order of `AllReasons`. */
  ghost predicate IsReasonList(r: Record, reasons: seq<string>)
  {
    && IsSubsequence(reasons, AllReasons)
    && forall i :: 0 <= i < |AllReasons| ==> (AllReasons[i] in reasons <==> ReasonFlags(r)[i])
  }

  /** `getAnomalyReasons(r)`: pushes one message per set flag. */
  method GetAnomalyReasons(r: Record) returns (reasons: seq<string>)
    ensures |reasons| <= |AllReasons|
    ensures IsSubsequence(reasons, AllReasons)
    ensures forall i :: 0 <= i < |AllReasons| ==> (AllReasons[i] in reasons <==> ReasonFlags(r)[i])
  {
    reasons := [];
    if r.ratingHighMetaLow {
      reasons := reasons + [HighRatingLowMeta];
    }
    if r.durationOutlier {
      reasons := reasons + [DurationOutlierIqr];
    }
    if r.ratingVotesInconsistent {
      reasons := reasons + [RatingVotesResidual];
    }
    assert reasons == FlaggedReasons(r);
    FlaggedReasonsInOrder(r);
  }

  /** The explicit reason list for each combination of the three flags. */
  function FlaggedReasons(r: Record): seq<string>
  {
    (if r.ratingHighMetaLow then [HighRatingLowMeta] else []) +
    (if r.durationOutlier then [DurationOutlierIqr] else []) +
    (if r.ratingVotesInconsistent then [RatingVotesResidual] else [])
  }

  lemma FlaggedReasonsInOrder(r: Record)
    ensures |FlaggedReasons(r)| <= 3
    ensures IsSubsequence(FlaggedReasons(r), AllReasons)
  {
    var tail := [RatingVotesResidual];
    assert AllReasons[1..] == [DurationOutlierIqr, RatingVotesResidual];
    assert AllReasons[1..][1..] == tail && tail[1..] == [];
    assert IsSubsequence([RatingVotesResidual], tail);
    assert IsSubsequence([], tail);
    var l3: seq<string> := if r.ratingVotesInconsistent then [RatingVotesResidual] else [];
    assert IsSubsequence(l3, tail);
    var l2 := (if r.durationOutlier then [DurationOutlierIqr] else []) + l3;
    if r.durationOutlier {
      assert l2[0] == AllReasons[1..][0] && l2[1..] == l3;
    } else {
      assert l2 == l3;
      assert IsSubsequence(l3, AllReasons[1..]);
    }
    assert IsSubsequence(l2, AllReasons[1..]);
    var l1 := (if r.ratingHighMetaLow then [HighRatingLowMeta] else []) + l2;
    assert l1 == FlaggedReasons(r);
    if r.ratingHighMetaLow {
      assert l1[0] == AllReasons[0] && l1[1..] == l2;
    } else {
      assert l1 == l2;
    }
  }

  /** A record that has a reason to show is anomalous. */
  lemma ReasonsImplyAnomaly(r: Record, reasons: seq<string>)
    requires IsReasonList(r, reasons)
    requires reasons != []
    ensures IsRecordAnomaly(r)
  {
    SubsequenceMembers(reasons, AllReasons, reasons[0]);
    assert reasons[0] in reasons;
  }

  /** A record flagged only by `is_anomaly` is anomalous but has no reason
      to show: the OR and the reason list disagree. */
  lemma AnomalyWithoutReasons(r: Record, reasons: seq<string>)
    requires r.isAnomaly && !r.ratingHighMetaLow && !r.durationOutlier && !r.ratingVotesInconsistent
    requires IsReasonList(r, reasons)
    ensures IsRecordAnomaly(r) && reasons == []
  {
    if reasons != [] {
      assert reasons[0] in reasons;
      SubsequenceMembers(reasons, AllReasons, reasons[0]);
      assert false;
    }
  }

  /** A single flag is enough; no flag at all is a normal record. */
  lemma AnomalyIsOr(r: Record)
    ensures r.durationOutlier ==> IsRecordAnomaly(r)
    ensures (!r.isAnomaly && !r.ratingHighMetaLow && !r.durationOutlier && !r.ratingVotesInconsistent)
            ==> !IsRecordAnomaly(r)
  {
  }
}
