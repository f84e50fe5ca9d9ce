/** The `allGenres` vocabulary of the genre drop-down: "all" followed by
    the distinct trimmed genre names, in `localeCompare` order. */
module Genres {
  import opened Basics
  import opened Records
  import opened Sorting

  /** `g` is the trimmed, non-blank form of an entry of `records[i].genres`
      for some `i < upTo`. */
  ghost predicate ListedBefore(records: seq<Record>, upTo: int, g: string)
  {
    exists i, k :: 0 <= i < upTo && i < |records| && 0 <= k < |records[i].genres|
                   && g != "" && Trim(records[i].genres[k]) == g
  }

  /** `g` is the trimmed, non-blank form of one of `gs[..upTo]`. */
  ghost predicate ListedIn(gs: seq<string>, upTo: int, g: string)
  {
    exists k :: 0 <= k < upTo && k < |gs| && g != "" && Trim(gs[k]) == g
  }

  /** The names the vocabulary lists after "all". */
  ghost predicate IsListedGenre(records: seq<Record>, g: string)
  {
    ListedBefore(records, |records|, g)
  }

  /** Each name comes strictly before the next in `localeCompare` order. */
  ghost predicate StrictlyAscending(v: seq<string>)
  {
    forall i, j :: 0 <= i < j < |v| ==> LexCompare(v[i], v[j]) < 0
  }

  /** One more record's genres extend what is listed. */
  lemma ListedNext(records: seq<Record>, i: int, g: string)
    requires 0 <= i < |records|
    ensures ListedBefore(records, i + 1, g)
            <==> ListedBefore(records, i, g) || ListedIn(records[i].genres, |records[i].genres|, g)
  {
    if ListedBefore(records, i + 1, g) {
      var i', k :| 0 <= i' < i + 1 && i' < |records| && 0 <= k < |records[i'].genres|
                   && g != "" && Trim(records[i'].genres[k]) == g;
      if i' == i {
        assert ListedIn(records[i].genres, |records[i].genres|, g);
      }
    }
    if ListedIn(records[i].genres, |records[i].genres|, g) {
      var k :| 0 <= k < |records[i].genres| && g != "" && Trim(records[i].genres[k]) == g;
      assert ListedBefore(records, i + 1, g);
    }
  }

  lemma ListedInNext(gs: seq<string>, k: int, g: string)
    requires 0 <= k < |gs|
    ensures ListedIn(gs, k + 1, g) <==> ListedIn(gs, k, g) || (g != "" && Trim(gs[k]) == g)
  {
    if ListedIn(gs, k + 1, g) {
      var m :| 0 <= m < k + 1 && m < |gs| && g != "" && Trim(gs[m]) == g;
    }
  }

  /** The distinct trimmed names in the order the loop first meets them:
      what `Array.from(set)` lists. */
  method CollectGenres(records: seq<Record>) returns (seen: seq<string>)
    ensures NoDuplicates(seen)
    ensures forall g :: g in seen <==> IsListedGenre(records, g)
  {
    seen := [];
    for i := 0 to |records|
      invariant NoDuplicates(seen)
      invariant forall g :: g in seen <==> ListedBefore(records, i, g)
    {
      var gs := records[i].genres;
      for k := 0 to |gs|
        invariant NoDuplicates(seen)
        invariant forall g :: g in seen <==> ListedBefore(records, i, g) || ListedIn(gs, k, g)
      {
        var g := Trim(gs[k]);
        if g != "" && g !in seen {
          seen := seen + [g];
        }
        forall g' ensures ListedIn(gs, k + 1, g') <==> ListedIn(gs, k, g') || (g' != "" && Trim(gs[k]) == g') {
          ListedInNext(gs, k, g');
        }
      }
      forall g ensures ListedBefore(records, i + 1, g)
                       <==> ListedBefore(records, i, g) || ListedIn(gs, |gs|, g) {
        ListedNext(records, i, g);
      }
    }
  }

  /** `localeCompare` as the comparator `sort` receives. */
  function LexOrder(): (string, string) -> real
  {
    (x, y) => LexCompare(x, y) as real
  }

  /** `["all", ...Array.from(set).sort((a, b) => a.localeCompare(b))]`. */
  method AllGenres(records: seq<Record>) returns (vocab: seq<string>)
    ensures |vocab| >= 1 && vocab[0] == "all"
    ensures forall g :: g in vocab[1..] <==> IsListedGenre(records, g)
    ensures StrictlyAscending(vocab[1..])
  {
    var seen := CollectGenres(records);
    var a := new string[|seen|](k requires 0 <= k < |seen| => seen[k]);
    assert a[..] == seen;
    forall x, y ensures LexOrder()(x, y) == -LexOrder()(y, x) {
      LexAntisymmetric(x, y);
    }
    SortInPlace(a, LexOrder());
    var names := a[..];
    PermutationMembers(names, seen);
    PermutationNoDuplicates(seen, names);
    AdjacentToStrict(names);
    vocab := ["all"] + names;
    assert vocab[1..] == names;
  }

  /** Every element of a duplicate-free sequence occurs once. */
  lemma {:induction false} NoDuplicatesCount<T>(s: seq<T>, x: T)
    requires NoDuplicates(s)
    ensures multiset(s)[x] <= 1
  {
    if s != [] {
      assert s == [s[0]] + s[1..];
      assert NoDuplicates(s[1..]);
      NoDuplicatesCount(s[1..], x);
      if s[0] == x {
        assert x !in s[1..];
      }
    }
  }

  /** A rearrangement of a duplicate-free sequence has no duplicates. */
  lemma PermutationNoDuplicates<T>(a: seq<T>, b: seq<T>)
    requires multiset(a) == multiset(b) && NoDuplicates(a)
    ensures NoDuplicates(b)
  {
    forall i, j | 0 <= i < j < |b| ensures b[i] != b[j] {
      if b[i] == b[j] {
        var x := b[i];
        assert b == b[..j] + [b[j]] + b[j + 1..];
        assert x in b[..j];
        assert multiset(b)[x] >= 2;
        NoDuplicatesCount(a, x);
        assert false;
      }
    }
  }

  /** Adjacent order on distinct names is strict order on every pair. */
  lemma AdjacentToStrict(v: seq<string>)
    requires NoDuplicates(v)
    requires OrderedBetween(v, LexOrder(), 0, |v|)
    ensures StrictlyAscending(v)
  {
    forall i, j | 0 <= i < j < |v| ensures LexCompare(v[i], v[j]) < 0 {
      StrictPair(v, i, j);
    }
  }

  lemma {:induction false} StrictPair(v: seq<string>, i: int, j: int)
    requires NoDuplicates(v)
    requires OrderedBetween(v, LexOrder(), 0, |v|)
    requires 0 <= i < j < |v|
    ensures LexCompare(v[i], v[j]) < 0
    decreases j - i
  {
    assert LexOrder()(v[i], v[i + 1]) <= 0.0;
    if j > i + 1 {
      StrictPair(v, i + 1, j);
      LexTransitive(v[i], v[i + 1], v[j]);
    }
  }

  /** A strictly ascending sequence is fixed by its elements: the
      vocabulary does not depend on the order genres were met in. */
  lemma {:induction false} StrictlyAscendingUnique(a: seq<string>, b: seq<string>)
    requires StrictlyAscending(a) && StrictlyAscending(b)
    requires forall x :: x in a <==> x in b
    ensures a == b
    decreases |a|
  {
    if a == [] || b == [] {
      if a != [] {
        FirstIsMember(a);
      } else if b != [] {
        FirstIsMember(b);
      }
    } else {
      SameHead(a, b);
      SameTailMembers(a, b);
      StrictlyAscendingUnique(a[1..], b[1..]);
      assert a == [a[0]] + a[1..] && b == [b[0]] + b[1..];
    }
  }

  /** Both lists start with their common least element. */
  lemma SameHead(a: seq<string>, b: seq<string>)
    requires StrictlyAscending(a) && StrictlyAscending(b) && a != [] && b != []
    requires forall x :: x in a <==> x in b
    ensures a[0] == b[0]
  {
    assert a[0] in b && b[0] in a;
    var i :| 0 <= i < |a| && a[i] == b[0];
    var j :| 0 <= j < |b| && b[j] == a[0];
    LexAntisymmetric(a[0], b[0]);
    assert i == 0 || j == 0;
  }

  /** With the head removed, the two lists still hold the same names. */
  lemma SameTailMembers(a: seq<string>, b: seq<string>)
    requires StrictlyAscending(a) && StrictlyAscending(b) && a != [] && b != []
    requires forall x :: x in a <==> x in b
    requires a[0] == b[0]
    ensures forall x :: x in a[1..] <==> x in b[1..]
  {
    forall x | x in a[1..] ensures x in b[1..] {
      TailMember(a, b, x);
    }
    forall x | x in b[1..] ensures x in a[1..] {
      TailMember(b, a, x);
    }
  }

  lemma TailMember(a: seq<string>, b: seq<string>, x: string)
    requires StrictlyAscending(a) && a != [] && b != []
    requires forall y :: y in a <==> y in b
    requires a[0] == b[0] && x in a[1..]
    ensures x in b[1..]
  {
    var m :| 0 <= m < |a[1..]| && a[1..][m] == x;
    assert LexCompare(a[0], a[m + 1]) < 0;
    assert a[m + 1] == x && x in a;
    var n :| 0 <= n < |b| && b[n] == x;
    assert n != 0;
    assert b[1..][n - 1] == x;
  }

  lemma FirstIsMember<T>(s: seq<T>)
    requires s != []
    ensures s[0] in s
  {
  }

  /** A record tagged `["Drama", " Drama ", "Comedy"]`. */
  function DramaComedy(): Record
  {
    Record(None, None, None, Missing, Missing, Missing, Missing,
           ["Drama", " Drama ", "Comedy"], false, false, false, false)
  }

  lemma TrimmedDrama()
    ensures Trim("Drama") == "Drama"
  {
    TrimUnique("Drama", "", "Drama", "");
  }

  lemma TrimmedPaddedDrama()
    ensures Trim(" Drama ") == "Drama"
  {
    var pad := " ";
    assert IsJsWhitespace(pad[0]);
    assert " Drama " == pad + "Drama" + pad;
    TrimUnique(" Drama ", pad, "Drama", pad);
  }

  lemma TrimmedComedy()
    ensures Trim("Comedy") == "Comedy"
  {
    TrimUnique("Comedy", "", "Comedy", "");
  }

  /** That record lists exactly "Comedy" and "Drama". */
  lemma ListedOfDramaComedy(g: string)
    ensures IsListedGenre([DramaComedy()], g) <==> g == "Comedy" || g == "Drama"
  {
    if IsListedGenre([DramaComedy()], g) {
      ListedOnlyDramaComedy(g);
    }
    TrimmedComedy();
    TrimmedDrama();
    var gs := DramaComedy().genres;
    assert [DramaComedy()][0].genres == gs;
    assert gs[2] == "Comedy" && gs[0] == "Drama";
    assert g == "Comedy" ==> Trim([DramaComedy()][0].genres[2]) == g;
    assert g == "Drama" ==> Trim([DramaComedy()][0].genres[0]) == g;
  }

  lemma ListedOnlyDramaComedy(g: string)
    requires IsListedGenre([DramaComedy()], g)
    ensures g == "Comedy" || g == "Drama"
  {
    var rs := [DramaComedy()];
    var i, k :| 0 <= i < 1 && i < |rs| && 0 <= k < |rs[i].genres|
                && g != "" && Trim(rs[i].genres[k]) == g;
    var gs := DramaComedy().genres;
    assert rs[i].genres[k] == gs[k];
    if k == 0 {
      TrimmedDrama();
    } else if k == 1 {
      TrimmedPaddedDrama();
    } else {
      TrimmedComedy();
    }
  }

  /** The vocabulary for that record is `["all", "Comedy", "Drama"]`. */
  lemma GenresOfDramaComedy(vocab: seq<string>)
    requires |vocab| >= 1 && vocab[0] == "all"
    requires forall g :: g in vocab[1..] <==> IsListedGenre([DramaComedy()], g)
    requires StrictlyAscending(vocab[1..])
    ensures vocab == ["all", "Comedy", "Drama"]
  {
    forall g ensures g in vocab[1..] <==> g in ["Comedy", "Drama"] {
      ListedOfDramaComedy(g);
    }
    assert LexCompare("Comedy", "Drama") < 0;
    StrictlyAscendingUnique(vocab[1..], ["Comedy", "Drama"]);
    assert vocab == [vocab[0]] + vocab[1..];
  }
}
