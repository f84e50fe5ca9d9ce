/** Value types and small helpers shared by both dashboard components:
    optional values, JavaScript numbers as the dashboard reads them,
    `clamp`, the string operations the filter and the page-jump input use,
    and the generic `filter`/`map` of JavaScript arrays. */
module Basics {

  datatype Option<T> = None | Some(value: T)

  /** A record field read where a number is expected. `Missing` covers
      `undefined`, `null` and every value whose `typeof` is not "number";
      `NaN` is the one number that is not equal to itself; `Num` is any
      other number (infinities are not modelled). */
  datatype JsNum = Missing | NaN | Num(value: real)

  /** `typeof v === "number"`, which NaN passes. */
  predicate IsNumberType(v: JsNum) { !v.Missing? }

  /** `typeof v === "number" && !Number.isNaN(v)`. */
  predicate IsNumeric(v: JsNum) { v.Num? }

  function Max(a: int, b: int): int { if a >= b then a else b }

  function Min(a: int, b: int): int { if a <= b then a else b }

  /** `clamp(n, min, max) = Math.max(min, Math.min(max, n))`. */
  function Clamp(n: int, lo: int, hi: int): (r: int)
    ensures lo <= hi ==> lo <= r <= hi
    ensures lo <= n <= hi ==> r == n
    ensures n < lo ==> r == lo
    ensures lo <= hi < n ==> r == hi
    ensures hi < lo ==> r == lo
  {
    Max(lo, Min(hi, n))
  }

  // ---------------------------------------------------------------------
  // Arrays as sequences: `Array.prototype.filter` and `map`
  // ---------------------------------------------------------------------

  /** `s.filter(keep)`: the elements of `s` that pass `keep`, in order. */
  function KeepIf<T(!new)>(s: seq<T>, keep: T -> bool): (r: seq<T>)
    ensures |r| <= |s|
    ensures forall x :: x in r <==> x in s && keep(x)
    ensures forall i :: 0 <= i < |r| ==> keep(r[i])
  {
    if s == [] then []
    else (if keep(s[0]) then [s[0]] else []) + KeepIf(s[1..], keep)
  }

  /** `s.map(f)`. */
  function MapSeq<T, U>(s: seq<T>, f: T -> U): seq<U>
  {
    seq(|s|, i requires 0 <= i < |s| => f(s[i]))
  }

  /** `a` is `b` with some elements dropped and the rest kept in order. */
  ghost predicate IsSubsequence<T>(a: seq<T>, b: seq<T>)
    decreases |b|
  {
    if a == [] then true
    else if b == [] then false
    else (a[0] == b[0] && IsSubsequence(a[1..], b[1..])) || IsSubsequence(a, b[1..])
  }

  /** Every element of a subsequence is an element of the whole. */
  lemma {:induction false} SubsequenceMembers<T>(a: seq<T>, b: seq<T>, x: T)
    requires IsSubsequence(a, b) && x in a
    ensures x in b
    decreases |b|
  {
    if a[0] == b[0] && IsSubsequence(a[1..], b[1..]) {
      if x != a[0] {
        SubsequenceMembers(a[1..], b[1..], x);
      }
    } else {
      SubsequenceMembers(a, b[1..], x);
    }
  }

  ghost predicate NoDuplicates<T>(s: seq<T>)
  {
    forall i, j :: 0 <= i < j < |s| ==> s[i] != s[j]
  }

  /** Two arrangements of the same multiset hold the same elements. */
  lemma PermutationMembers<T>(a: seq<T>, b: seq<T>)
    requires multiset(a) == multiset(b)
    ensures forall x :: x in a <==> x in b
  {
    forall x ensures x in a <==> x in b {
      assert x in a <==> x in multiset(a);
      assert x in b <==> x in multiset(b);
    }
  }

  lemma {:induction false} KeepIfIsSubsequence<T(!new)>(s: seq<T>, keep: T -> bool)
    ensures IsSubsequence(KeepIf(s, keep), s)
  {
    if s != [] {
      KeepIfIsSubsequence(s[1..], keep);
      var r := KeepIf(s, keep);
      if keep(s[0]) {
        assert r[0] == s[0] && r[1..] == KeepIf(s[1..], keep);
      } else {
        assert r == KeepIf(s[1..], keep);
      }
    }
  }

  /** Filtering twice with the same test gives what filtering once gives. */
  lemma {:induction false} KeepIfIdempotent<T(!new)>(s: seq<T>, keep: T -> bool)
    ensures KeepIf(KeepIf(s, keep), keep) == KeepIf(s, keep)
  {
    if s != [] {
      KeepIfIdempotent(s[1..], keep);
      var r := KeepIf(s, keep);
      if keep(s[0]) {
        assert r != [] && r[0] == s[0] && r[1..] == KeepIf(s[1..], keep);
        assert KeepIf(r, keep) == [r[0]] + KeepIf(r[1..], keep);
      } else {
        assert r == KeepIf(s[1..], keep);
      }
    }
  }

  /** A test that every element passes keeps the whole sequence. */
  lemma {:induction false} KeepIfAll<T(!new)>(s: seq<T>, keep: T -> bool)
    requires forall i :: 0 <= i < |s| ==> keep(s[i])
    ensures KeepIf(s, keep) == s
  {
    if s != [] {
      KeepIfAll(s[1..], keep);
    }
  }

  /** Filtering distributes over concatenation. */
  lemma {:induction false} KeepIfAppend<T(!new)>(a: seq<T>, b: seq<T>, keep: T -> bool)
    ensures KeepIf(a + b, keep) == KeepIf(a, keep) + KeepIf(b, keep)
  {
    if a == [] {
      assert a + b == b;
    } else {
      var head := if keep(a[0]) then [a[0]] else [];
      calc {
        KeepIf(a + b, keep);
        { var ab := a + b;
          assert ab[0] == a[0] && ab[1..] == a[1..] + b;
          KeepIfUnfold(ab, keep); }
        head + KeepIf(a[1..] + b, keep);
        { KeepIfAppend(a[1..], b, keep); }
        head + (KeepIf(a[1..], keep) + KeepIf(b, keep));
        (head + KeepIf(a[1..], keep)) + KeepIf(b, keep);
        { KeepIfUnfold(a, keep); }
        KeepIf(a, keep) + KeepIf(b, keep);
      }
    }
  }

  lemma KeepIfUnfold<T(!new)>(s: seq<T>, keep: T -> bool)
    requires s != []
    ensures KeepIf(s, keep) == (if keep(s[0]) then [s[0]] else []) + KeepIf(s[1..], keep)
  {
  }

  /** Two tests that agree on every element keep the same elements. */
  lemma {:induction false} KeepIfSameTest<T(!new)>(s: seq<T>, keep: T -> bool, keep': T -> bool)
    requires forall x :: keep(x) == keep'(x)
    ensures KeepIf(s, keep) == KeepIf(s, keep')
  {
    if s != [] {
      KeepIfSameTest(s[1..], keep, keep');
    }
  }

  /** A test and its negation split a sequence between them. */
  lemma {:induction false} KeepIfPartition<T(!new)>(s: seq<T>, keep: T -> bool, drop: T -> bool)
    requires forall x :: drop(x) == !keep(x)
    ensures multiset(KeepIf(s, keep)) + multiset(KeepIf(s, drop)) == multiset(s)
    ensures |KeepIf(s, keep)| + |KeepIf(s, drop)| == |s|
  {
    if s != [] {
      KeepIfPartition(s[1..], keep, drop);
      KeepIfUnfold(s, keep);
      KeepIfUnfold(s, drop);
      assert s == [s[0]] + s[1..];
    }
    assert |multiset(KeepIf(s, keep)) + multiset(KeepIf(s, drop))| == |multiset(s)|;
  }

  lemma MapSeqCons<T, U>(s: seq<T>, f: T -> U)
    requires s != []
    ensures MapSeq(s, f) == [f(s[0])] + MapSeq(s[1..], f)
  {
  }

  /** Mapping keeps a subsequence a subsequence. */
  lemma {:induction false} MapSubsequence<T, U>(a: seq<T>, b: seq<T>, f: T -> U)
    requires IsSubsequence(a, b)
    ensures IsSubsequence(MapSeq(a, f), MapSeq(b, f))
    decreases |b|
  {
    if a != [] {
      MapSeqCons(a, f);
      MapSeqCons(b, f);
      if a[0] == b[0] && IsSubsequence(a[1..], b[1..]) {
        MapSubsequence(a[1..], b[1..], f);
      } else {
        MapSubsequence(a, b[1..], f);
      }
    }
  }

  /** Filtering a duplicate-free sequence gives a duplicate-free sequence. */
  lemma {:induction false} KeepIfNoDuplicates<T(!new)>(s: seq<T>, keep: T -> bool)
    requires NoDuplicates(s)
    ensures NoDuplicates(KeepIf(s, keep))
  {
    if s != [] {
      KeepIfNoDuplicates(s[1..], keep);
      assert s[0] !in s[1..] by {
        forall k | 0 <= k < |s[1..]| ensures s[1..][k] != s[0] {
          assert s[1..][k] == s[k + 1];
        }
      }
    }
  }

  // ---------------------------------------------------------------------
  // Strings
  // ---------------------------------------------------------------------

  /** The characters `String.prototype.trim` removes: the ECMAScript
      WhiteSpace and LineTerminator code points. */
  predicate IsJsWhitespace(c: char)
  {
    var n := c as int;
    n == 0x09 || n == 0x0A || n == 0x0B || n == 0x0C || n == 0x0D || n == 0x20 ||
    n == 0xA0 || n == 0x1680 || (0x2000 <= n <= 0x200A) || n == 0x2028 || n == 0x2029 ||
    n == 0x202F || n == 0x205F || n == 0x3000 || n == 0xFEFF
  }

  ghost predicate AllWhitespace(s: string)
  {
    forall k :: 0 <= k < |s| ==> IsJsWhitespace(s[k])
  }

  /** Number of leading whitespace characters. */
  function LeadingSpace(s: string): (i: nat)
    ensures i <= |s|
    ensures forall k :: 0 <= k < i ==> IsJsWhitespace(s[k])
    ensures i < |s| ==> !IsJsWhitespace(s[i])
  {
    if s == [] || !IsJsWhitespace(s[0]) then 0 else 1 + LeadingSpace(s[1..])
  }

  /** Index just past the last non-whitespace character (0 if there is none). */
  function TrailingStart(s: string): (j: nat)
    ensures j <= |s|
    ensures forall k :: j <= k < |s| ==> IsJsWhitespace(s[k])
    ensures j > 0 ==> !IsJsWhitespace(s[j - 1])
  {
    if s == [] || !IsJsWhitespace(s[|s| - 1]) then |s| else TrailingStart(s[..|s| - 1])
  }

  /** `s.trim()`: `s` without its leading and trailing whitespace. */
  function Trim(s: string): (r: string)
    ensures r == "" <==> AllWhitespace(s)
    ensures r != "" ==> !IsJsWhitespace(r[0]) && !IsJsWhitespace(r[|r| - 1])
  {
    var i := LeadingSpace(s);
    var j := TrailingStart(s);
    if i < j then
      s[i..j]
    else
      assert AllWhitespace(s);
      ""
  }

  /** What `trim` removes is whitespace on both sides of what it keeps. */
  lemma TrimIsInfix(s: string)
    ensures var r := Trim(s);
            exists w1, w2 :: s == w1 + r + w2 && AllWhitespace(w1) && AllWhitespace(w2)
  {
    var i, j := LeadingSpace(s), TrailingStart(s);
    if i < j {
      assert s == s[..i] + s[i..j] + s[j..];
      assert AllWhitespace(s[..i]) by {
        forall k | 0 <= k < i ensures IsJsWhitespace(s[..i][k]) { assert s[..i][k] == s[k]; }
      }
      assert AllWhitespace(s[j..]) by {
        forall k | 0 <= k < |s| - j ensures IsJsWhitespace(s[j..][k]) { assert s[j..][k] == s[j + k]; }
      }
    } else {
      assert AllWhitespace(s) && AllWhitespace("");
      assert s == s + "" + "";
    }
  }

  /** `Trim` is the only way to write `s` as whitespace, a part with no
      whitespace at either end, and whitespace. */
  lemma TrimUnique(s: string, w1: string, r: string, w2: string)
    requires s == w1 + r + w2 && AllWhitespace(w1) && AllWhitespace(w2)
    requires r == "" || (!IsJsWhitespace(r[0]) && !IsJsWhitespace(r[|r| - 1]))
    ensures Trim(s) == r
  {
    assert forall k :: 0 <= k < |w1| ==> s[k] == w1[k];
    assert forall k :: 0 <= k < |r| ==> s[|w1| + k] == r[k];
    assert forall k :: 0 <= k < |w2| ==> s[|w1| + |r| + k] == w2[k];
    if r == "" {
      assert AllWhitespace(s) by {
        forall k | 0 <= k < |s| ensures IsJsWhitespace(s[k]) {
          if k >= |w1| { assert s[|w1| + |r| + (k - |w1|)] == w2[k - |w1|]; }
        }
      }
    } else {
      var i, j := LeadingSpace(s), TrailingStart(s);
      assert s[|w1|] == r[0];
      assert i == |w1|;
      assert s[|w1| + |r| - 1] == r[|r| - 1];
      assert j == |w1| + |r| by {
        forall k | |w1| + |r| <= k < |s| ensures IsJsWhitespace(s[k]) {
          assert s[|w1| + |r| + (k - |w1| - |r|)] == w2[k - |w1| - |r|];
        }
      }
      assert s[i..j] == r;
    }
  }

  lemma AllWhitespaceConcat(a: string, b: string)
    requires AllWhitespace(a) && AllWhitespace(b)
    ensures AllWhitespace(a + b)
  {
    assert forall k :: |a| <= k < |a + b| ==> (a + b)[k] == b[k - |a|];
  }

  /** Whitespace added around a string is trimmed away. */
  lemma TrimPadded(s: string, pad: string)
    requires AllWhitespace(pad)
    ensures Trim(pad + s + pad) == Trim(s)
  {
    TrimIsInfix(s);
    var t := Trim(s);
    var w1, w2 :| s == w1 + t + w2 && AllWhitespace(w1) && AllWhitespace(w2);
    TrimPaddedParts(s, pad, w1, t, w2);
  }

  lemma TrimPaddedParts(s: string, pad: string, w1: string, t: string, w2: string)
    requires AllWhitespace(pad)
    requires s == w1 + t + w2 && AllWhitespace(w1) && AllWhitespace(w2)
    requires t == "" || (!IsJsWhitespace(t[0]) && !IsJsWhitespace(t[|t| - 1]))
    ensures Trim(pad + s + pad) == t
  {
    AllWhitespaceConcat(pad, w1);
    AllWhitespaceConcat(w2, pad);
    assert pad + s + pad == (pad + w1) + t + (w2 + pad);
    TrimUnique(pad + s + pad, pad + w1, t, w2 + pad);
  }

  /** Lower-casing of one character (ASCII letters only). */
  function LowerChar(c: char): (d: char)
  {
    if 'A' <= c <= 'Z' then (c as int + 32) as char else c
  }

  /** `s.toLowerCase()`, on ASCII letters. */
  function ToLower(s: string): (r: string)
    ensures |r| == |s|
    ensures forall k :: 0 <= k < |s| ==> r[k] == LowerChar(s[k])
    ensures forall k :: 0 <= k < |r| ==> !('A' <= r[k] <= 'Z')
  {
    seq(|s|, k requires 0 <= k < |s| => LowerChar(s[k]))
  }

  /** `safeLower(s)`: the lower-cased string, or "" for a non-string. */
  function SafeLower(s: Option<string>): (r: string)
    ensures s.None? ==> r == ""
    ensures s.Some? ==> r == ToLower(s.value)
  {
    match s
    case None => ""
    case Some(x) => ToLower(x)
  }

  /** `q` occurs in `hay` starting at index `i`. */
  ghost predicate OccursAt(hay: string, q: string, i: int)
  {
    0 <= i && i + |q| <= |hay| && hay[i..i + |q|] == q
  }

  /** `hay.includes(q)`. */
  function Contains(hay: string, q: string): (b: bool)
    ensures b <==> exists i :: OccursAt(hay, q, i)
    decreases |hay|
  {
    if |q| > |hay| then
      assert forall i :: !OccursAt(hay, q, i);
      false
    else if hay[..|q|] == q then
      assert OccursAt(hay, q, 0);
      true
    else
      var rest := Contains(hay[1..], q);
      assert forall i :: OccursAt(hay[1..], q, i) <==> OccursAt(hay, q, i + 1) by {
        forall i ensures OccursAt(hay[1..], q, i) <==> OccursAt(hay, q, i + 1) {
          if 0 <= i && i + |q| <= |hay| - 1 {
            assert hay[1..][i..i + |q|] == hay[i + 1..i + 1 + |q|];
          }
        }
      }
      assert forall i :: OccursAt(hay, q, i) ==> i >= 1 && OccursAt(hay[1..], q, i - 1);
      rest
  }

  /** `gs.join(" ")`. */
  function JoinWithSpace(gs: seq<string>): (j: string)
    ensures gs == [] ==> j == ""
    ensures |gs| == 1 ==> j == gs[0]
    ensures forall k :: 0 <= k < |gs| ==> Contains(j, gs[k])
    ensures forall c :: c in j ==> c == ' ' || exists k :: 0 <= k < |gs| && c in gs[k]
  {
    if gs == [] then ""
    else if |gs| == 1 then
      ContainsSelf(gs[0]);
      gs[0]
    else
      var rest := JoinWithSpace(gs[1..]);
      var j := gs[0] + " " + rest;
      assert j == gs[0] + (" " + rest);
      ContainsPrefix(gs[0], " " + rest);
      assert forall k :: 1 <= k < |gs| ==> Contains(j, gs[k]) by {
        forall k | 1 <= k < |gs| ensures Contains(j, gs[k]) {
          assert gs[1..][k - 1] == gs[k];
          ContainsShift(gs[0] + " ", rest, gs[k]);
        }
      }
      assert forall c :: c in rest ==> c == ' ' || exists k :: 0 <= k < |gs| && c in gs[k] by {
        forall c | c in rest && c != ' ' ensures exists k :: 0 <= k < |gs| && c in gs[k] {
          var k :| 0 <= k < |gs[1..]| && c in gs[1..][k];
          assert c in gs[k + 1];
        }
      }
      j
  }

  /** Appending a genre puts one space and the genre at the end. */
  lemma {:induction false} JoinAppend(gs: seq<string>, g: string)
    requires gs != []
    ensures JoinWithSpace(gs + [g]) == JoinWithSpace(gs) + " " + g
  {
    assert (gs + [g])[1..] == gs[1..] + [g];
    if |gs| > 1 {
      JoinAppend(gs[1..], g);
    }
  }

  /** A string occurs at the front of any string it begins. */
  lemma ContainsPrefix(q: string, s: string)
    ensures Contains(q + s, q)
  {
    assert (q + s)[0..|q|] == q;
    assert OccursAt(q + s, q, 0);
  }

  lemma ContainsSelf(q: string)
    ensures Contains(q, q)
  {
    assert q[0..|q|] == q;
    assert OccursAt(q, q, 0);
  }

  /** An occurrence survives putting text behind. */
  lemma ContainsExtend(s: string, q: string, post: string)
    requires Contains(s, q)
    ensures Contains(s + post, q)
  {
    var i :| OccursAt(s, q, i);
    assert (s + post)[i..i + |q|] == s[i..i + |q|];
    assert OccursAt(s + post, q, i);
  }

  /** An occurrence survives putting text in front. */
  lemma ContainsShift(pre: string, s: string, q: string)
    requires Contains(s, q)
    ensures Contains(pre + s, q)
  {
    var i :| OccursAt(s, q, i);
    assert (pre + s)[|pre| + i..|pre| + i + |q|] == s[i..i + |q|];
    assert OccursAt(pre + s, q, |pre| + i);
  }

  // ---------------------------------------------------------------------
  // Decimal digits: `String(n)` for integers and `Number(v)` for digit strings
  // ---------------------------------------------------------------------

  predicate IsDigit(c: char) { '0' <= c <= '9' }

  predicate AllDigits(s: string)
  {
    forall k :: 0 <= k < |s| ==> IsDigit(s[k])
  }

  function DigitChar(d: nat): (c: char)
    requires d < 10
    ensures IsDigit(c) && c as int - '0' as int == d
  {
    ('0' as int + d) as char
  }

  /** `String(n)` for a non-negative integer. */
  function NatToDecimal(n: nat): (s: string)
    ensures |s| >= 1 && AllDigits(s)
    ensures s[0] == '0' ==> s == "0"
  {
    if n < 10 then [DigitChar(n)] else NatToDecimal(n / 10) + [DigitChar(n % 10)]
  }

  /** `String(y)` for an integer. */
  function IntToDecimal(y: int): string
  {
    if y < 0 then "-" + NatToDecimal(-y) else NatToDecimal(y)
  }

  /** `Number(s)` for a string of decimal digits. */
  function DecimalValue(s: string): nat
    requires AllDigits(s)
  {
    if s == [] then 0
    else DecimalValue(s[..|s| - 1]) * 10 + (s[|s| - 1] as int - '0' as int)
  }

  /** Parsing the decimal rendering of `n` gives `n` back. */
  lemma {:induction false} DecimalRoundTrip(n: nat)
    ensures DecimalValue(NatToDecimal(n)) == n
  {
    if n >= 10 {
      var s := NatToDecimal(n);
      assert s[..|s| - 1] == NatToDecimal(n / 10);
      DecimalRoundTrip(n / 10);
    }
  }

  /** `v.replace(/[^0-9]/g, "")`: the digits of `v`, in order. */
  function DigitsOnly(v: string): (r: string)
    ensures AllDigits(r)
    ensures IsSubsequence(r, v)
    ensures forall c :: multiset(r)[c] == if IsDigit(c) then multiset(v)[c] else 0
    ensures forall c :: c in r <==> c in v && IsDigit(c)
  {
    var r := KeepIf(v, IsDigit);
    KeepIfIsSubsequence(v, IsDigit);
    KeepIfPartition(v, IsDigit, IsNonDigit);
    var dropped := KeepIf(v, IsNonDigit);
    assert forall c :: multiset(r)[c] == if IsDigit(c) then multiset(v)[c] else 0 by {
      forall c ensures multiset(r)[c] == if IsDigit(c) then multiset(v)[c] else 0 {
        if IsDigit(c) {
          assert c !in dropped;
        } else {
          assert c !in r;
        }
      }
    }
    r
  }

  predicate IsNonDigit(c: char) { !IsDigit(c) }

  /** Stripping non-digits leaves a digit string as it is, and is idempotent. */
  lemma DigitsOnlyOfDigits(v: string)
    requires AllDigits(v)
    ensures DigitsOnly(v) == v
  {
    KeepIfAll(v, IsDigit);
  }

  /** A digit string has no surrounding whitespace to trim. */
  lemma {:induction false} TrimOfDigits(v: string)
    requires AllDigits(v)
    ensures Trim(v) == v
  {
    if v != [] {
      assert !IsJsWhitespace(v[0]);
      assert LeadingSpace(v) == 0;
      assert !IsJsWhitespace(v[|v| - 1]);
      assert TrailingStart(v) == |v|;
    }
  }

  // ---------------------------------------------------------------------
  // `localeCompare`, as code-point lexicographic order
  // ---------------------------------------------------------------------

  /** `a.localeCompare(b)`: negative, zero or positive. */
  function LexCompare(a: string, b: string): (r: int)
    ensures -1 <= r <= 1
    ensures r == 0 <==> a == b
  {
    if a == [] && b == [] then 0
    else if a == [] then -1
    else if b == [] then 1
    else if a[0] < b[0] then -1
    else if a[0] > b[0] then 1
    else
      var r := LexCompare(a[1..], b[1..]);
      assert a == [a[0]] + a[1..] && b == [b[0]] + b[1..];
      r
  }

  lemma {:induction false} LexAntisymmetric(a: string, b: string)
    ensures LexCompare(a, b) == -LexCompare(b, a)
  {
    if a != [] && b != [] && a[0] == b[0] {
      LexAntisymmetric(a[1..], b[1..]);
    }
  }

  lemma {:induction false} LexTransitive(a: string, b: string, c: string)
    requires LexCompare(a, b) <= 0 && LexCompare(b, c) <= 0
    ensures LexCompare(a, c) <= 0
  {
    if a != [] && b != [] && c != [] && a[0] == b[0] && b[0] == c[0] {
      LexTransitive(a[1..], b[1..], c[1..]);
    }
  }
}
