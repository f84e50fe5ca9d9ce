/** The numeric statistics behind the rating box plot: `quantile` with
    linear interpolation between closest ranks, and `computeStats`
    (quartiles, interquartile range, Tukey fences, mean and count). */
module Stats {
  import opened Basics

  ghost predicate SortedAsc(s: seq<real>)
  {
    forall i, j :: 0 <= i < j < |s| ==> s[i] <= s[j]
  }

  /** Inserts `x` into an ascending sequence. */
  function Insert(x: real, s: seq<real>): (r: seq<real>)
    requires SortedAsc(s)
    ensures |r| == |s| + 1
    ensures SortedAsc(r)
    ensures multiset(r) == multiset(s) + multiset{x}
    ensures forall y :: y in r ==> y == x || y in s
  {
    if s == [] || x <= s[0] then
      [x] + s
    else
      var t := Insert(x, s[1..]);
      InsertStep(x, s, t);
      [s[0]] + t
  }

  /** Putting the head back in front of the insertion into the tail. */
  lemma InsertStep(x: real, s: seq<real>, t: seq<real>)
    requires SortedAsc(s) && s != [] && s[0] < x
    requires SortedAsc(t) && multiset(t) == multiset(s[1..]) + multiset{x}
    requires forall y :: y in t ==> y == x || y in s[1..]
    ensures SortedAsc([s[0]] + t)
    ensures multiset([s[0]] + t) == multiset(s) + multiset{x}
    ensures forall y :: y in [s[0]] + t ==> y == x || y in s
  {
    forall k | 0 <= k < |t| ensures s[0] <= t[k] {
      assert t[k] in t;
      if t[k] != x {
        var m :| 0 <= m < |s[1..]| && s[1..][m] == t[k];
        assert s[1..][m] == s[m + 1];
      }
    }
    assert s == [s[0]] + s[1..];
    var r := [s[0]] + t;
    forall i, j | 0 <= i < j < |r| ensures r[i] <= r[j] {
      if i == 0 {
        assert r[j] == t[j - 1];
      } else {
        assert r[i] == t[i - 1] && r[j] == t[j - 1];
      }
    }
  }

  /** `.sort((a, b) => a - b)` on numbers: the ascending arrangement. */
  function SortAscending(xs: seq<real>): (r: seq<real>)
    ensures SortedAsc(r)
    ensures multiset(r) == multiset(xs)
    ensures |r| == |xs|
  {
    if xs == [] then []
    else
      assert xs == [xs[0]] + xs[1..];
      Insert(xs[0], SortAscending(xs[1..]))
  }

  /** Sorting what is already ascending changes nothing. */
  lemma {:induction false} SortAscendingOfSorted(xs: seq<real>)
    requires SortedAsc(xs)
    ensures SortAscending(xs) == xs
  {
    if xs != [] {
      SortAscendingOfSorted(xs[1..]);
      assert xs[1..] == [] || xs[0] <= xs[1..][0];
    }
  }

  /** `clean.reduce((s, v) => s + v, 0)`. */
  function Sum(s: seq<real>): real
  {
    if s == [] then 0.0 else s[0] + Sum(s[1..])
  }

  lemma {:induction false} SumBounds(s: seq<real>, lo: real, hi: real)
    requires forall k :: 0 <= k < |s| ==> lo <= s[k] <= hi
    ensures |s| as real * lo <= Sum(s) <= |s| as real * hi
  {
    if s != [] {
      SumBounds(s[1..], lo, hi);
    }
  }

  /** The numbers of `arr` that are not NaN, in order (the `filter` step). */
  function CleanNumbers(arr: seq<JsNum>): (r: seq<real>)
    ensures |r| == |KeepIf(arr, IsNumeric)|
    ensures forall i :: 0 <= i < |r| ==> Num(r[i]) == KeepIf(arr, IsNumeric)[i]
    ensures forall x :: x in r <==> Num(x) in arr
  {
    if arr == [] then []
    else
      var rest := CleanNumbers(arr[1..]);
      assert arr == [arr[0]] + arr[1..];
      KeepIfUnfold(arr, IsNumeric);
      (if arr[0].Num? then [arr[0].value] else []) + rest
  }

  lemma CleanNumbersCons(arr: seq<JsNum>)
    requires arr != []
    ensures CleanNumbers(arr) == (if arr[0].Num? then [arr[0].value] else []) + CleanNumbers(arr[1..])
  {
  }

  lemma CleanNumbersEmpty(arr: seq<JsNum>)
    ensures CleanNumbers(arr) == [] <==> forall i :: 0 <= i < |arr| ==> !IsNumeric(arr[i])
  {
    if CleanNumbers(arr) != [] {
      var x := CleanNumbers(arr)[0];
      assert x in CleanNumbers(arr);
      var i :| 0 <= i < |arr| && arr[i] == Num(x);
    }
  }

  lemma NonNegativeProduct(a: real, b: real)
    requires a >= 0.0 && b >= 0.0
    ensures a * b >= 0.0
  {
  }

  lemma ProductBounds(rest: real, d: real)
    requires 0.0 <= rest <= 1.0 && d >= 0.0
    ensures 0.0 <= rest * d <= d
  {
    NonNegativeProduct(rest, d);
    NonNegativeProduct(1.0 - rest, d);
    assert d - rest * d == (1.0 - rest) * d;
  }

  /** For `p` in [0, 1] the interpolation position lies in [0, n - 1]. */
  lemma PositionBounds(n: nat, p: real)
    requires n >= 1 && 0.0 <= p <= 1.0
    ensures 0.0 <= (n - 1) as real * p <= (n - 1) as real
    ensures 0 <= ((n - 1) as real * p).Floor <= n - 1
  {
    var m := (n - 1) as real;
    NonNegativeProduct(m, p);
    NonNegativeProduct(m, 1.0 - p);
    assert m - m * p == m * (1.0 - p);
  }

  /** `quantile(sorted, p)`: position `(n - 1) * p`, interpolated linearly
      between the two neighbouring ranks. `null` on an empty list; where
      `sorted[base + 1]` is `undefined` the value at `base` is returned
      (itself `undefined` when `base` is out of range too), and a negative
      `base` with a defined right neighbour computes NaN. */
  function Quantile(sorted: seq<real>, p: real): (q: JsNum)
    ensures sorted == [] ==> q == Missing
    ensures sorted != [] && 0.0 <= p <= 1.0 ==> q.Num?
  {
    if sorted == [] then Missing
    else
      var pos := (|sorted| - 1) as real * p;
      var base := pos.Floor;
      var rest := pos - base as real;
      assert 0.0 <= p <= 1.0 ==> 0 <= base <= |sorted| - 1 by {
        if 0.0 <= p <= 1.0 { PositionBounds(|sorted|, p); }
      }
      if 0 <= base + 1 < |sorted| then
        if base >= 0 then
          Num(sorted[base] + rest * (sorted[base + 1] - sorted[base]))
        else NaN
      else if 0 <= base < |sorted| then
        Num(sorted[base])
      else Missing
  }

  /** What `quantile` computes on a non-empty list and `p` in [0, 1]:
      the rank `b = floor((n - 1) * p)` is in range, the remainder lies in
      [0, 1), and the value interpolates from `sorted[b]` towards
      `sorted[b + 1]`, or is `sorted[b]` itself at the last rank. */
  lemma QuantileValue(sorted: seq<real>, p: real)
    requires sorted != [] && 0.0 <= p <= 1.0
    ensures var pos := (|sorted| - 1) as real * p;
            var b := pos.Floor;
            var rest := pos - b as real;
            && 0 <= b < |sorted|
            && 0.0 <= rest < 1.0
            && (b + 1 < |sorted| ==>
                  Quantile(sorted, p) == Num(sorted[b] + rest * (sorted[b + 1] - sorted[b])))
            && (b + 1 == |sorted| ==> Quantile(sorted, p) == Num(sorted[b]))
  {
    PositionBounds(|sorted|, p);
  }

  /** On an ascending non-empty list and `p` in [0, 1], the result lies
      between the smallest and the largest value, and between the rank `b`
      it interpolates from and the next one. */
  lemma QuantileWithin(sorted: seq<real>, p: real)
    requires SortedAsc(sorted) && sorted != [] && 0.0 <= p <= 1.0
    ensures var b := ((|sorted| - 1) as real * p).Floor;
            && 0 <= b < |sorted|
            && sorted[b] <= Quantile(sorted, p).value
            && (b + 1 < |sorted| ==> Quantile(sorted, p).value <= sorted[b + 1])
            && sorted[0] <= Quantile(sorted, p).value <= sorted[|sorted| - 1]
  {
    var n := |sorted|;
    QuantileValue(sorted, p);
    var pos := (n - 1) as real * p;
    var b := pos.Floor;
    if b + 1 < n {
      var rest := pos - b as real;
      Interpolation(sorted[b], sorted[b + 1], rest);
      assert Quantile(sorted, p).value == sorted[b] + rest * (sorted[b + 1] - sorted[b]);
      assert sorted[0] <= sorted[b] && sorted[b + 1] <= sorted[n - 1];
    } else {
      assert sorted[0] <= sorted[b];
    }
  }

  /** Linear interpolation with a weight in [0, 1] stays between its ends. */
  lemma Interpolation(lo: real, hi: real, rest: real)
    requires lo <= hi && 0.0 <= rest <= 1.0
    ensures lo <= lo + rest * (hi - lo) <= hi
  {
    var d := hi - lo;
    ProductBounds(rest, d);
    var x := rest * d;
    assert 0.0 <= x <= d;
  }

  lemma ProductMonotone(r: real, r': real, d: real)
    requires r <= r' && d >= 0.0
    ensures r * d <= r' * d
  {
    NonNegativeProduct(r' - r, d);
    assert r' * d - r * d == (r' - r) * d;
  }

  /** Two positions with the same rank interpolate along the same segment. */
  lemma SameRankMonotone(sorted: seq<real>, p: real, p': real)
    requires SortedAsc(sorted) && sorted != []
    requires 0.0 <= p <= p' <= 1.0
    requires ((|sorted| - 1) as real * p).Floor == ((|sorted| - 1) as real * p').Floor
    ensures Quantile(sorted, p).value <= Quantile(sorted, p').value
  {
    var n := |sorted|;
    var m := (n - 1) as real;
    var b := (m * p).Floor;
    QuantileValue(sorted, p);
    QuantileValue(sorted, p');
    if b + 1 < n {
      assert sorted[b] <= sorted[b + 1];
      SameRankCore(m, p, p', sorted[b], sorted[b + 1], b as real,
                   Quantile(sorted, p).value, Quantile(sorted, p').value);
    }
  }

  lemma SameRankCore(m: real, p: real, p': real, lo: real, hi: real, b: real, q: real, q': real)
    requires m >= 0.0 && p <= p' && lo <= hi
    requires q == lo + (m * p - b) * (hi - lo)
    requires q' == lo + (m * p' - b) * (hi - lo)
    ensures q <= q'
  {
    ScaleMonotone(m, p, p');
    SameSegment(lo, hi, m * p, m * p', b);
  }

  lemma ScaleMonotone(m: real, p: real, p': real)
    requires m >= 0.0 && p <= p'
    ensures m * p <= m * p'
  {
    NonNegativeProduct(m, p' - p);
    assert m * p' - m * p == m * (p' - p);
  }

  /** Along one segment the interpolated value grows with the position. */
  lemma SameSegment(lo: real, hi: real, x: real, x': real, b: real)
    requires lo <= hi && x <= x'
    ensures lo + (x - b) * (hi - lo) <= lo + (x' - b) * (hi - lo)
  {
    var d := hi - lo;
    ProductMonotone(x - b, x' - b, d);
    var y, y' := (x - b) * d, (x' - b) * d;
    assert y <= y';
  }

  /** A position of higher rank never gives a smaller quantile. */
  lemma HigherRankMonotone(sorted: seq<real>, p: real, p': real)
    requires SortedAsc(sorted) && sorted != []
    requires 0.0 <= p <= 1.0 && 0.0 <= p' <= 1.0
    requires ((|sorted| - 1) as real * p).Floor < ((|sorted| - 1) as real * p').Floor
    ensures Quantile(sorted, p).value <= Quantile(sorted, p').value
  {
    QuantileWithin(sorted, p);
    QuantileWithin(sorted, p');
  }

  lemma FloorMonotone(x: real, y: real)
    requires x <= y
    ensures x.Floor <= y.Floor
  {
  }

  /** On an ascending list, a larger `p` never gives a smaller quantile. */
  lemma QuantileMonotone(sorted: seq<real>, p: real, p': real)
    requires SortedAsc(sorted) && sorted != []
    requires 0.0 <= p <= p' <= 1.0
    ensures Quantile(sorted, p).value <= Quantile(sorted, p').value
  {
    var m := (|sorted| - 1) as real;
    ProductMonotone(p, p', m);
    FloorMonotone(m * p, m * p');
    assert (m * p).Floor == ((|sorted| - 1) as real * p).Floor;
    if (m * p).Floor == (m * p').Floor {
      SameRankMonotone(sorted, p, p');
    } else {
      HigherRankMonotone(sorted, p, p');
    }
  }

  /** The 0 and 1 quantiles are the smallest and largest values; at `p = 1`
      there is no right neighbour and `sorted[n - 1]` is returned as is. */
  lemma QuantileEnds(sorted: seq<real>)
    requires sorted != []
    ensures Quantile(sorted, 0.0) == Num(sorted[0])
    ensures Quantile(sorted, 1.0) == Num(sorted[|sorted| - 1])
  {
    var n := |sorted|;
    assert ((n - 1) as real * 1.0).Floor == n - 1;
    assert ((n - 1) as real * 0.0).Floor == 0;
  }

  /** The first and last element of the ascending arrangement are the
      smallest and the largest element of the input. */
  lemma SortedEnds(xs: seq<real>)
    requires xs != []
    ensures var c := SortAscending(xs);
            && c[0] in xs && c[|c| - 1] in xs
            && forall x :: x in xs ==> c[0] <= x <= c[|c| - 1]
  {
    var c := SortAscending(xs);
    ArrangementEnds(c, xs);
  }

  lemma ArrangementEnds(c: seq<real>, xs: seq<real>)
    requires SortedAsc(c) && multiset(c) == multiset(xs) && c != []
    ensures c[0] in xs && c[|c| - 1] in xs
    ensures forall x :: x in xs ==> c[0] <= x <= c[|c| - 1]
  {
    PermutationMembers(c, xs);
    assert c[0] in c && c[|c| - 1] in c;
    forall x | x in xs ensures c[0] <= x <= c[|c| - 1] {
      assert x in c;
      var k :| 0 <= k < |c| && c[k] == x;
    }
  }

  lemma DivideBounds(s: real, n: real, lo: real, hi: real)
    requires n > 0.0 && n * lo <= s <= n * hi
    ensures lo <= s / n <= hi
  {
    var mean := s / n;
    assert mean * n == s;
    ProductMonotoneStrict(n, lo, mean);
    ProductMonotoneStrict(n, mean, hi);
  }

  lemma ProductMonotoneStrict(n: real, x: real, y: real)
    requires n > 0.0 && n * x <= n * y
    ensures x <= y
  {
  }

  /** The mean of an ascending non-empty list lies between its ends. */
  lemma MeanWithin(c: seq<real>)
    requires SortedAsc(c) && c != []
    ensures c[0] <= Sum(c) / |c| as real <= c[|c| - 1]
  {
    SumBounds(c, c[0], c[|c| - 1]);
    DivideBounds(Sum(c), |c| as real, c[0], c[|c| - 1]);
  }

  /** The summary `computeStats` returns. */
  datatype BoxStats = BoxStats(
    q1: real, q3: real, median: real, iqr: real,
    lower: real, upper: real, mean: real, count: nat)

  /** `computeStats(arr)`: `null` when `arr` holds no number other than
      NaN; otherwise the box-plot summary of those numbers. */
  function ComputeStats(arr: seq<JsNum>): (r: Option<BoxStats>)
    ensures r.None? <==> forall i :: 0 <= i < |arr| ==> !IsNumeric(arr[i])
    ensures r.Some? ==> r.value.count == |KeepIf(arr, IsNumeric)|
  {
    CleanNumbersEmpty(arr);
    var clean := SortAscending(CleanNumbers(arr));
    if clean == [] then None
    else
      var q1 := Quantile(clean, 0.25).value;
      var q3 := Quantile(clean, 0.75).value;
      var median := Quantile(clean, 0.5).value;
      var iqr := q3 - q1;
      Some(BoxStats(q1, q3, median, iqr, q1 - 1.5 * iqr, q3 + 1.5 * iqr,
                    Sum(clean) / |clean| as real, |clean|))
  }

  /** Sorting does not change a sum. */
  lemma {:induction false} SumInsert(x: real, s: seq<real>)
    requires SortedAsc(s)
    ensures Sum(Insert(x, s)) == x + Sum(s)
  {
    if s != [] && x > s[0] {
      SumInsert(x, s[1..]);
    }
  }

  lemma {:induction false} SumSorted(xs: seq<real>)
    ensures Sum(SortAscending(xs)) == Sum(xs)
  {
    if xs != [] {
      SumSorted(xs[1..]);
      SumInsert(xs[0], SortAscending(xs[1..]));
    }
  }

  /** The mean field is the mean of the non-NaN numbers of the input,
      summed in input order: sorting first does not change the sum. */
  lemma ComputeStatsMean(arr: seq<JsNum>)
    requires ComputeStats(arr).Some?
    ensures ComputeStats(arr).value.mean == Sum(CleanNumbers(arr)) / |CleanNumbers(arr)| as real
  {
    SumSorted(CleanNumbers(arr));
  }

  /** The order facts the box plot relies on: the quartiles are ordered,
      the fences lie outside them, and the mean lies between the smallest
      and the largest clean value. */
  lemma ComputeStatsLaws(arr: seq<JsNum>)
    requires ComputeStats(arr).Some?
    ensures var s := ComputeStats(arr).value;
            var c := SortAscending(CleanNumbers(arr));
            && c != []
            && c[0] in CleanNumbers(arr) && c[|c| - 1] in CleanNumbers(arr)
            && (forall x :: x in CleanNumbers(arr) ==> c[0] <= x <= c[|c| - 1])
            && c[0] <= s.q1 <= s.median <= s.q3 <= c[|c| - 1]
            && s.iqr == s.q3 - s.q1 && s.iqr >= 0.0
            && s.lower <= s.q1 && s.q3 <= s.upper
            && c[0] <= s.mean <= c[|c| - 1]
  {
    var c := SortAscending(CleanNumbers(arr));
    QuantileWithin(c, 0.25);
    QuantileWithin(c, 0.75);
    QuantileMonotone(c, 0.25, 0.5);
    QuantileMonotone(c, 0.5, 0.75);
    SortedEnds(CleanNumbers(arr));
    MeanWithin(c);
  }

  const OneToTen: seq<real> := [1.0, 2.0, 3.0, 4.0, 5.0, 6.0, 7.0, 8.0, 9.0, 10.0]

  lemma QuartilesOfOneToTen()
    ensures Quantile(OneToTen, 0.25) == Num(3.25)
    ensures Quantile(OneToTen, 0.5) == Num(5.5)
    ensures Quantile(OneToTen, 0.75) == Num(7.75)
  {
    assert (9.0 * 0.25).Floor == 2;
    assert (9.0 * 0.75).Floor == 6;
    assert (9.0 * 0.5).Floor == 4;
  }

  function ToNum(x: real): JsNum { Num(x) }

  /** Cleaning a list of plain numbers gives those numbers back. */
  lemma {:induction false} CleanOfNumbers(xs: seq<real>)
    ensures CleanNumbers(MapSeq(xs, ToNum)) == xs
  {
    if xs != [] {
      var arr := MapSeq(xs, ToNum);
      assert arr[1..] == MapSeq(xs[1..], ToNum);
      CleanOfNumbers(xs[1..]);
    }
  }

  lemma OneToTenSorted()
    ensures SortedAsc(OneToTen)
  {
  }

  lemma OneToTenSum()
    ensures Sum(OneToTen) == 55.0
  {
  }

  lemma CleanOneToTen()
    ensures SortAscending(CleanNumbers(MapSeq(OneToTen, ToNum))) == OneToTen
  {
    CleanOfNumbers(OneToTen);
    OneToTenSorted();
    SortAscendingOfSorted(OneToTen);
  }

  lemma MeanOfOneToTen()
    ensures Sum(OneToTen) / |OneToTen| as real == 5.5
  {
    OneToTenSum();
  }

  /** `computeStats([1, 2, ..., 10])`. */
  lemma StatsOfOneToTen()
    ensures ComputeStats(MapSeq(OneToTen, ToNum))
            == Some(BoxStats(3.25, 7.75, 5.5, 4.5, -3.5, 14.5, 5.5, 10))
  {
    CleanOneToTen();
    MeanOfOneToTen();
    QuartilesOfOneToTen();
  }
}
