/** The row order of the table: `compareMaybeNumber`, the comparator the
    `sortedRecords` step builds from `sortBy` and `sortDir`, and the in-place
    sort of a copy of the filtered list. */
module Ordering {
  import opened Basics
  import opened Records
  import opened Sorting

  /** The columns the table can be sorted by (`sortBy`). */
  datatype SortKey = Title | Year | Rating | Metascore | DurationMin | Anomaly

  /** `sortDir`; the comparators treat every value other than "asc" as
      descending, so two directions are all there is. */
  datatype SortDir = Asc | Desc

  /** `compareMaybeNumber(a, b, dir)`: numbers compare by difference in the
      direction asked for; a value that is not a number (or is NaN) goes
      after every number in both directions, and two such values tie. */
  function CompareMaybeNumber(a: JsNum, b: JsNum, dir: SortDir): (c: real)
    ensures !IsNumeric(a) && !IsNumeric(b) ==> c == 0.0
    ensures !IsNumeric(a) && IsNumeric(b) ==> c == 1.0
    ensures IsNumeric(a) && !IsNumeric(b) ==> c == -1.0
    ensures IsNumeric(a) && IsNumeric(b) && dir == Asc ==> c == a.value - b.value
    ensures IsNumeric(a) && IsNumeric(b) && dir == Desc ==> c == b.value - a.value
  {
    if !IsNumeric(a) && !IsNumeric(b) then 0.0
    else if !IsNumeric(a) then 1.0
    else if !IsNumeric(b) then -1.0
    else if dir == Asc then a.value - b.value
    else b.value - a.value
  }

  /** Swapping the arguments negates the result. */
  lemma CompareMaybeNumberAntisymmetric(a: JsNum, b: JsNum, dir: SortDir)
    ensures CompareMaybeNumber(a, b, dir) == -CompareMaybeNumber(b, a, dir)
  {
  }

  /** The order of two numbers is decided by their values: ascending puts
      the smaller first, descending the larger. */
  lemma CompareMaybeNumberSign(a: real, b: real)
    ensures CompareMaybeNumber(Num(a), Num(b), Asc) < 0.0 <==> a < b
    ensures CompareMaybeNumber(Num(a), Num(b), Desc) < 0.0 <==> b < a
    ensures CompareMaybeNumber(Num(a), Num(b), Asc) == 0.0 <==> a == b
    ensures CompareMaybeNumber(Num(a), Num(b), Desc) == 0.0 <==> a == b
  {
  }

  /** Missing values go last whatever the direction: the result against a
      number is the same for "asc" and "desc". */
  lemma MissingLastBothWays(a: JsNum, b: JsNum)
    requires IsNumeric(a) != IsNumeric(b)
    ensures CompareMaybeNumber(a, b, Asc) == CompareMaybeNumber(a, b, Desc)
    ensures CompareMaybeNumber(a, b, Asc) < 0.0 <==> IsNumeric(a)
  {
  }

  /** `.toString()` of `r.title ?? ""`. */
  function TitleText(r: Record): string
  {
    if r.title.Some? then r.title.value else ""
  }

  /** A year as the comparator reads it (`a.year`). */
  function YearNum(y: Option<int>): (v: JsNum)
    ensures y.Some? <==> IsNumeric(v)
  {
    if y.Some? then Num(y.value as real) else Missing
  }

  /** `a[sortBy]` for the numeric columns. */
  function NumericField(r: Record, key: SortKey): JsNum
    requires key != Title && key != Anomaly
  {
    match key
    case Year => YearNum(r.year)
    case Rating => r.rating
    case Metascore => r.metascore
    case DurationMin => r.durationMin
  }

  function AnomalyBit(r: Record): real
  {
    if IsRecordAnomaly(r) then 1.0 else 0.0
  }

  /** The comparator passed to `list.sort`: `localeCompare` on titles,
      0/1 anomaly bits for "anomaly", and `compareMaybeNumber` on the
      field otherwise. */
  function CompareRecords(a: Record, b: Record, key: SortKey, dir: SortDir): (c: real)
    ensures key == Title ==>
              (c < 0.0 <==> (if dir == Asc then LexCompare(TitleText(a), TitleText(b)) < 0
                             else LexCompare(TitleText(b), TitleText(a)) < 0))
    ensures key == Title ==> (c == 0.0 <==> TitleText(a) == TitleText(b))
    ensures key == Anomaly ==>
              (c < 0.0 <==> (if dir == Asc then !IsRecordAnomaly(a) && IsRecordAnomaly(b)
                             else IsRecordAnomaly(a) && !IsRecordAnomaly(b)))
    ensures key != Title && key != Anomaly ==>
              c == CompareMaybeNumber(NumericField(a, key), NumericField(b, key), dir)
  {
    match key
    case Title =>
      (if dir == Asc then LexCompare(TitleText(a), TitleText(b))
       else LexCompare(TitleText(b), TitleText(a))) as real
    case Anomaly =>
      if dir == Asc then AnomalyBit(a) - AnomalyBit(b) else AnomalyBit(b) - AnomalyBit(a)
    case _ => CompareMaybeNumber(NumericField(a, key), NumericField(b, key), dir)
  }

  /** The comparator is antisymmetric, which is all that the insertion sort
      below needs to leave adjacent rows ordered. */
  lemma CompareRecordsAntisymmetric(a: Record, b: Record, key: SortKey, dir: SortDir)
    ensures CompareRecords(a, b, key, dir) == -CompareRecords(b, a, key, dir)
  {
    if key == Title {
      LexAntisymmetric(TitleText(a), TitleText(b));
    }
  }

  /** The comparator is transitive, so it is a consistent total preorder. */
  lemma CompareRecordsTransitive(a: Record, b: Record, c: Record, key: SortKey, dir: SortDir)
    requires CompareRecords(a, b, key, dir) <= 0.0 && CompareRecords(b, c, key, dir) <= 0.0
    ensures CompareRecords(a, c, key, dir) <= 0.0
  {
    if key == Title {
      if dir == Asc {
        LexTransitive(TitleText(a), TitleText(b), TitleText(c));
      } else {
        LexTransitive(TitleText(c), TitleText(b), TitleText(a));
      }
    }
  }

  /** Every row is ordered before or level with the next one. */
  ghost predicate SortedBy(s: seq<Record>, key: SortKey, dir: SortDir)
  {
    forall k :: 0 <= k < |s| - 1 ==> CompareRecords(s[k], s[k + 1], key, dir) <= 0.0
  }

  /** `sortedRecords`: `[...filteredRecords]` sorted in place. The copy is
      a fresh array, so the sequence passed in is left as it was. */
  method SortRecords(list: seq<Record>, key: SortKey, dir: SortDir) returns (sorted: seq<Record>)
    ensures multiset(sorted) == multiset(list)
    ensures |sorted| == |list|
    ensures SortedBy(sorted, key, dir)
  {
    var cmp := (x, y) => CompareRecords(x, y, key, dir);
    forall x, y ensures cmp(x, y) == -cmp(y, x) {
      CompareRecordsAntisymmetric(x, y, key, dir);
    }
    var a := new Record[|list|](k requires 0 <= k < |list| => list[k]);
    assert a[..] == list;
    SortInPlace(a, cmp);
    sorted := a[..];
    assert |multiset(sorted)| == |multiset(list)|;
  }

  /** Adjacent order spreads to every pair, by transitivity. */
  lemma {:induction false} SortedPairwise(s: seq<Record>, key: SortKey, dir: SortDir, i: int, j: int)
    requires SortedBy(s, key, dir)
    requires 0 <= i <= j < |s|
    ensures CompareRecords(s[i], s[j], key, dir) <= 0.0
    decreases j - i
  {
    if i == j {
      CompareRecordsAntisymmetric(s[i], s[i], key, dir);
    } else {
      SortedPairwise(s, key, dir, i + 1, j);
      CompareRecordsTransitive(s[i], s[i + 1], s[j], key, dir);
    }
  }

  /** Under a numeric key, every row whose value is missing comes after
      every row whose value is a number, in both directions. */
  lemma MissingValuesLast(s: seq<Record>, key: SortKey, dir: SortDir, i: int, j: int)
    requires key != Title && key != Anomaly
    requires SortedBy(s, key, dir)
    requires 0 <= i < |s| && 0 <= j < |s|
    requires !IsNumeric(NumericField(s[i], key)) && IsNumeric(NumericField(s[j], key))
    ensures j < i
  {
    if i <= j {
      SortedPairwise(s, key, dir, i, j);
    }
  }

  /** Three rows rated 7, unrated and 3, in that order. */
  function RatedRow(rating: JsNum): Record
  {
    Record(None, None, None, rating, Missing, Missing, Missing, [], false, false, false, false)
  }

  lemma ThreeElements(s: seq<Record>, x: Record, y: Record, z: Record)
    requires multiset(s) == multiset([x, y, z])
    ensures |s| == 3 && x in s && y in s && z in s
  {
    assert |multiset(s)| == |s|;
    PermutationMembers(s, [x, y, z]);
  }

  /** Sorting by rating: `[7, null, 3]` becomes `[7, 3, null]` descending and
      `[3, 7, null]` ascending. Every ordered rearrangement is that one. */
  lemma SortSevenMissingThree(s: seq<Record>, dir: SortDir)
    requires multiset(s) == multiset([RatedRow(Num(7.0)), RatedRow(Missing), RatedRow(Num(3.0))])
    requires SortedBy(s, Rating, dir)
    ensures dir == Desc ==> s == [RatedRow(Num(7.0)), RatedRow(Num(3.0)), RatedRow(Missing)]
    ensures dir == Asc ==> s == [RatedRow(Num(3.0)), RatedRow(Num(7.0)), RatedRow(Missing)]
  {
    ThreeElements(s, RatedRow(Num(7.0)), RatedRow(Missing), RatedRow(Num(3.0)));
    OrderOfThree(s, dir);
  }

  lemma OrderOfThree(s: seq<Record>, dir: SortDir)
    requires |s| == 3 && SortedBy(s, Rating, dir)
    requires RatedRow(Num(7.0)) in s && RatedRow(Missing) in s && RatedRow(Num(3.0)) in s
    ensures dir == Desc ==> s == [RatedRow(Num(7.0)), RatedRow(Num(3.0)), RatedRow(Missing)]
    ensures dir == Asc ==> s == [RatedRow(Num(3.0)), RatedRow(Num(7.0)), RatedRow(Missing)]
  {
    var r7, rn, r3 := RatedRow(Num(7.0)), RatedRow(Missing), RatedRow(Num(3.0));
    var i7 :| 0 <= i7 < 3 && s[i7] == r7;
    var i3 :| 0 <= i3 < 3 && s[i3] == r3;
    var i9 :| 0 <= i9 < 3 && s[i9] == rn;
    MissingValuesLast(s, Rating, dir, i9, i7);
    MissingValuesLast(s, Rating, dir, i9, i3);
    assert i9 == 2 && i7 != i3;
    assert CompareRecords(s[0], s[1], Rating, dir) <= 0.0;
    assert s == [s[0], s[1], s[2]];
  }
}
