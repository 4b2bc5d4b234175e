/**
 * `y2024/day1.rs`: two columns of location ids. The distance pairs the
 * columns after sorting both and adds up the differences; the similarity
 * weighs every left id by how often it occurs in the right column.
 */
module Y2024Day1 {
  import opened Strings
  import Sorting

  function Abs(x: int): nat {
    if x < 0 then -x else x
  }

  /** The sum of `|x[i] - y[i]|` over the indices of `x`. */
  function PairedDistance(x: seq<int>, y: seq<int>): nat
    requires |x| <= |y|
  {
    if x == [] then 0 else PairedDistance(x[..|x| - 1], y) + Abs(x[|x| - 1] - y[|x| - 1])
  }

  /**
   * `distance`: sorts both vectors in place, then adds `|a[i] - b[i]|` over
   * the indices of `a`; a shorter `b` makes `b[idx]` panic.
   */
  method Distance(a: array<int>, b: array<int>) returns (d: int)
    requires a != b && a.Length <= b.Length
    modifies a, b
    ensures a[..] == Sorting.Sort(old(a[..]), Sorting.IntLe) && b[..] == Sorting.Sort(old(b[..]), Sorting.IntLe)
    ensures d == PairedDistance(a[..], b[..])
  {
    Sorting.SortInPlace(a, Sorting.IntLe);
    Sorting.SortInPlace(b, Sorting.IntLe);
    d := 0;
    var i := 0;
    while i < a.Length
      invariant 0 <= i <= a.Length
      invariant d == PairedDistance(a[..i], b[..])
    {
      assert a[..i + 1][..i] == a[..i];
      d := d + Abs(a[i] - b[i]);
      i := i + 1;
    }
    assert a[..i] == a[..];
  }

  /** Equal-length sequences are at distance 0 exactly when they are equal. */
  lemma {:induction false} PairedDistanceZero(x: seq<int>, y: seq<int>)
    requires |x| == |y|
    ensures PairedDistance(x, y) == 0 <==> x == y
  {
    if x != [] {
      var n := |x| - 1;
      assert PairedDistance(x[..n], y) == PairedDistance(x[..n], y[..n]) by {
        PairedDistancePrefix(x[..n], y, n);
      }
      PairedDistanceZero(x[..n], y[..n]);
      assert x == x[..n] + [x[n]] && y == y[..n] + [y[n]];
    }
  }

  /** `PairedDistance` only looks at the first `|x|` elements of `y`. */
  lemma {:induction false} PairedDistancePrefix(x: seq<int>, y: seq<int>, n: nat)
    requires |x| <= n <= |y|
    ensures PairedDistance(x, y) == PairedDistance(x, y[..n])
  {
    if x != [] {
      PairedDistancePrefix(x[..|x| - 1], y, n);
    }
  }

  /**
   * The total distance between two columns of the same length is 0 exactly
   * when they hold the same ids with the same multiplicities.
   */
  lemma DistanceZeroIffSameIds(a: seq<int>, b: seq<int>)
    requires |a| == |b|
    ensures PairedDistance(Sorting.Sort(a, Sorting.IntLe), Sorting.Sort(b, Sorting.IntLe)) == 0
        <==> multiset(a) == multiset(b)
  {
    var sa, sb := Sorting.Sort(a, Sorting.IntLe), Sorting.Sort(b, Sorting.IntLe);
    Sorting.IntLePreorder();
    Sorting.SortSorted(a, Sorting.IntLe);
    Sorting.SortSorted(b, Sorting.IntLe);
    PairedDistanceZero(sa, sb);
    if multiset(a) == multiset(b) {
      Sorting.SortedUnique(sa, sb, Sorting.IntLe);
    }
  }

  /** The number of times `x` occurs in `b`. */
  function Occurrences(b: seq<int>, x: int): nat {
    multiset(b)[x]
  }

  /** The sum of `x * (occurrences of x in b)` over the elements `x` of `a`. */
  function SimilaritySum(a: seq<int>, b: seq<int>): int {
    if a == [] then 0 else SimilaritySum(a[..|a| - 1], b) + a[|a| - 1] * Occurrences(b, a[|a| - 1])
  }

  /**
   * `similarity`: the same sum, computed with a memo map from an id to its
   * number of occurrences in `b`.
   */
  method Similarity(a: seq<int>, b: seq<int>) returns (s: int)
    ensures s == SimilaritySum(a, b)
  {
    var counts: map<int, nat> := map[];
    s := 0;
    var i := 0;
    while i < |a|
      invariant 0 <= i <= |a|
      invariant forall k :: k in counts ==> counts[k] == Occurrences(b, k)
      invariant s == SimilaritySum(a[..i], b)
    {
      assert a[..i + 1][..i] == a[..i];
      var x := a[i];
      if x !in counts {
        counts := counts[x := Occurrences(b, x)];
      }
      s := s + x * counts[x];
      i := i + 1;
    }
    assert a[..i] == a;
  }

  lemma Distribute(y: int, c: int, d: int)
    ensures y * (c + d) == y * c + y * d
  {
  }

  /** Adding one id `x` to the right column adds `x` once for each of its occurrences on the left. */
  lemma {:induction false} SimilarityAddRight(a: seq<int>, b: seq<int>, x: int)
    ensures SimilaritySum(a, b + [x]) == SimilaritySum(a, b) + x * Occurrences(a, x)
  {
    if a != [] {
      var n := |a| - 1;
      var y := a[n];
      SimilarityAddRight(a[..n], b, x);
      assert a == a[..n] + [y];
      var c, d := Occurrences(b, y), if y == x then 1 else 0;
      assert Occurrences(a, x) == Occurrences(a[..n], x) + d;
      assert Occurrences(b + [x], y) == c + d;
      Distribute(y, c, d);
      Distribute(x, Occurrences(a[..n], x), d);
    }
  }

  lemma {:induction false} SimilarityEmptyRight(a: seq<int>)
    ensures SimilaritySum(a, []) == 0
  {
    if a != [] {
      SimilarityEmptyRight(a[..|a| - 1]);
    }
  }

  /** The similarity score is symmetric in the two columns. */
  lemma {:induction false} SimilaritySymmetric(a: seq<int>, b: seq<int>)
    ensures SimilaritySum(a, b) == SimilaritySum(b, a)
  {
    if a == [] {
      SimilarityEmptyRight(b);
    } else {
      var n := |a| - 1;
      SimilaritySymmetric(a[..n], b);
      SimilarityAddRight(b, a[..n], a[n]);
      assert a == a[..n] + [a[n]];
    }
  }

  /** A line `parse` accepts without panicking: at most two tokens, each an `i32`. */
  predicate AcceptedLine(l: string) {
    var t := Tokens(l);
    |t| <= 2 && forall i :: 0 <= i < |t| ==> IsI32(t[i])
  }

  predicate AllAccepted(lines: seq<string>) {
    forall i :: 0 <= i < |lines| ==> AcceptedLine(lines[i])
  }

  /** `[ids[k]]` when `ids` has a `k`-th element, else nothing. */
  function Pick(ids: seq<int>, k: nat): (r: seq<int>)
    ensures |r| <= 1
  {
    if k < |ids| then [ids[k]] else []
  }

  /** The ids on one line, in order (a token `parse` would reject stands as 0). */
  function LineIds(l: string): (ids: seq<int>)
    ensures |ids| == |Tokens(l)|
  {
    var t := Tokens(l);
    seq(|t|, j requires 0 <= j < |t| => if IsI32(t[j]) then I32(t[j]) else 0)
  }

  /** The ids the lines put in column `k` (0 or 1): the `k`-th token of each line that has one. */
  function Column(lines: seq<string>, k: nat): (c: seq<int>)
    ensures |c| <= |lines|
  {
    if lines == [] then []
    else Column(lines[..|lines| - 1], k) + Pick(LineIds(lines[|lines| - 1]), k)
  }

  /**
   * The inner loop of `parse` on one line: token 0 is pushed on `col1`,
   * token 1 on `col2`.
   */
  method ParseLine(l: string, col1: seq<int>, col2: seq<int>) returns (c1: seq<int>, c2: seq<int>)
    requires AcceptedLine(l)
    ensures c1 == col1 + Pick(LineIds(l), 0)
    ensures c2 == col2 + Pick(LineIds(l), 1)
  {
    var tokens := Tokens(l);
    ghost var ids := LineIds(l);
    c1, c2 := col1, col2;
    var idx := 0;
    while idx < |tokens|
      invariant 0 <= idx <= |tokens|
      invariant c1 == col1 + Pick(ids[..idx], 0)
      invariant c2 == col2 + Pick(ids[..idx], 1)
    {
      var x := I32(tokens[idx]);
      if idx == 0 {
        c1 := c1 + [x];
      } else {
        c2 := c2 + [x];
      }
      idx := idx + 1;
    }
    assert ids[..idx] == ids;
  }

  /**
   * `parse`: for every line of `input` (split on `'\n'`), the first token is
   * pushed on `col1` and the second on `col2`; a token that is not an `i32`
   * or a third token panics.
   */
  method Parse(input: string, col1: seq<int>, col2: seq<int>) returns (c1: seq<int>, c2: seq<int>)
    requires AllAccepted(Split(input, '\n'))
    ensures c1 == col1 + Column(Split(input, '\n'), 0)
    ensures c2 == col2 + Column(Split(input, '\n'), 1)
  {
    c1, c2 := ParseLines(Split(input, '\n'), col1, col2);
  }

  /** The outer loop of `parse`, over the lines of the input. */
  method ParseLines(lines: seq<string>, col1: seq<int>, col2: seq<int>) returns (c1: seq<int>, c2: seq<int>)
    requires AllAccepted(lines)
    ensures c1 == col1 + Column(lines, 0)
    ensures c2 == col2 + Column(lines, 1)
  {
    c1, c2 := col1, col2;
    for i := 0 to |lines|
      invariant c1 == col1 + Column(lines[..i], 0)
      invariant c2 == col2 + Column(lines[..i], 1)
    {
      ColumnStep(col1, lines, i, 0);
      ColumnStep(col2, lines, i, 1);
      c1, c2 := ParseLine(lines[i], c1, c2);
    }
    assert lines[..|lines|] == lines;
  }

  /** Pushing the ids of line `i` onto the columns of the earlier lines gives the columns of lines up to `i`. */
  lemma ColumnStep(col: seq<int>, lines: seq<string>, i: nat, k: nat)
    requires i < |lines|
    ensures col + Column(lines[..i], k) + Pick(LineIds(lines[i]), k) == col + Column(lines[..i + 1], k)
  {
    assert lines[..i + 1][..i] == lines[..i];
  }

  /** The input `parse` expects: one line per pair, the two ids separated by a space. */
  function Render(a: seq<int>, b: seq<int>): (lines: seq<string>)
    requires |a| == |b|
    ensures |lines| == |a|
    ensures forall i :: 0 <= i < |lines| ==> '\n' !in lines[i]
  {
    seq(|a|, i requires 0 <= i < |a| => RenderLine(a[i], b[i]))
  }

  function RenderLine(x: int, y: int): (l: string)
    ensures '\n' !in l
  {
    ShowSigned(x) + [' '] + ShowSigned(y)
  }

  /** One rendered line carries exactly the two ids. */
  lemma RenderLineIds(x: int, y: int)
    requires I32_MIN <= x <= I32_MAX && I32_MIN <= y <= I32_MAX
    ensures AcceptedLine(RenderLine(x, y)) && LineIds(RenderLine(x, y)) == [x, y]
  {
    ShowSignedWord(x);
    ShowSignedWord(y);
    assert RenderLine(x, y) == Join([ShowSigned(x), ShowSigned(y)], ' ');
    TokensJoin([ShowSigned(x), ShowSigned(y)]);
    ParseShowSigned(x, I32_MIN, I32_MAX);
    ParseShowSigned(y, I32_MIN, I32_MAX);
  }

  /** Lines that each carry an id at position `k` put exactly those ids in column `k`. */
  lemma {:induction false} PairColumn(lines: seq<string>, c: seq<int>, k: nat)
    requires |lines| == |c|
    requires forall i :: 0 <= i < |lines| ==> Pick(LineIds(lines[i]), k) == [c[i]]
    ensures Column(lines, k) == c
  {
    if lines != [] {
      var n := |lines| - 1;
      var init := lines[..n];
      forall i | 0 <= i < n ensures Pick(LineIds(init[i]), k) == [c[..n][i]] {
        assert init[i] == lines[i];
      }
      PairColumn(init, c[..n], k);
      assert Column(lines, k) == Column(init, k) + Pick(LineIds(lines[n]), k);
      assert c == c[..n] + [c[n]];
    }
  }

  /** Lines that each carry a pair put the first ids in column 0 and the second in column 1. */
  lemma PairColumns(lines: seq<string>, a: seq<int>, b: seq<int>)
    requires |lines| == |a| == |b|
    requires forall i :: 0 <= i < |lines| ==> LineIds(lines[i]) == [a[i], b[i]]
    ensures Column(lines, 0) == a && Column(lines, 1) == b
  {
    PairColumn(lines, a, 0);
    PairColumn(lines, b, 1);
  }

  /** Parsing rendered columns gives the columns back: column 0 is `a` and column 1 is `b`. */
  lemma RenderColumns(a: seq<int>, b: seq<int>)
    requires |a| == |b|
    requires forall j :: 0 <= j < |a| ==> I32_MIN <= a[j] <= I32_MAX && I32_MIN <= b[j] <= I32_MAX
    ensures forall i :: 0 <= i < |a| ==> AcceptedLine(Render(a, b)[i])
    ensures Column(Render(a, b), 0) == a && Column(Render(a, b), 1) == b
  {
    var r := Render(a, b);
    forall i | 0 <= i < |a| ensures AcceptedLine(r[i]) && LineIds(r[i]) == [a[i], b[i]] {
      RenderLineIds(a[i], b[i]);
    }
    PairColumns(r, a, b);
  }

  /** The whole input text: the rendered lines joined with newlines round-trip through `Parse`. */
  lemma RenderParse(a: seq<int>, b: seq<int>)
    requires 1 <= |a| == |b|
    requires forall j :: 0 <= j < |a| ==> I32_MIN <= a[j] <= I32_MAX && I32_MIN <= b[j] <= I32_MAX
    ensures var input := Join(Render(a, b), '\n');
      && AllAccepted(Split(input, '\n'))
      && Column(Split(input, '\n'), 0) == a && Column(Split(input, '\n'), 1) == b
  {
    var lines := Render(a, b);
    RenderColumns(a, b);
    SplitJoin(lines, '\n');
  }

  /** A sorted rearrangement of `s` is what `Sort` returns. */
  lemma SortIs(s: seq<int>, t: seq<int>)
    requires Sorting.SortedBy(t, Sorting.IntLe) && multiset(s) == multiset(t)
    ensures Sorting.Sort(s, Sorting.IntLe) == t
  {
    Sorting.IntLePreorder();
    Sorting.SortSorted(s, Sorting.IntLe);
    Sorting.SortedUnique(Sorting.Sort(s, Sorting.IntLe), t, Sorting.IntLe);
  }

  /** The first column of the example input and the second. */
  const SampleLeft: seq<int> := [3, 4, 2, 1, 3, 3]
  const SampleRight: seq<int> := [4, 3, 5, 3, 9, 3]

  lemma SampleCounts(b: seq<int>)
    requires b == SampleRight
    ensures Occurrences(b, 3) == 3 && Occurrences(b, 4) == 1 && Occurrences(b, 2) == 0 && Occurrences(b, 1) == 0
  {
    SampleRightBag(b);
    var m := multiset{4, 3, 5, 3, 9, 3};
    assert m[3] == 3 && m[4] == 1 && m[2] == 0 && m[1] == 0;
  }

  /** On the example the similarity is 31. */
  lemma SampleSimilarity(a: seq<int>, b: seq<int>)
    requires a == SampleLeft && b == SampleRight
    ensures SimilaritySum(a, b) == 31
  {
    SampleCounts(b);
    assert SimilaritySum(a[..0], b) == 0;
    assert SimilaritySum(a[..1], b) == 9 by { assert a[..1][..0] == a[..0]; }
    assert SimilaritySum(a[..2], b) == 13 by { assert a[..2][..1] == a[..1]; }
    assert SimilaritySum(a[..3], b) == 13 by { assert a[..3][..2] == a[..2]; }
    assert SimilaritySum(a[..4], b) == 13 by { assert a[..4][..3] == a[..3]; }
    assert SimilaritySum(a[..5], b) == 22 by { assert a[..5][..4] == a[..4]; }
    assert a[..6][..5] == a[..5];
    assert a[..6] == a;
  }

  lemma SampleLeftBag(l: seq<int>)
    requires l == SampleLeft
    ensures multiset(l) == multiset{3, 4, 2, 1, 3, 3}
  {
    assert l == [3] + [4] + [2] + [1] + [3] + [3];
  }

  lemma SampleRightBag(r: seq<int>)
    requires r == SampleRight
    ensures multiset(r) == multiset{4, 3, 5, 3, 9, 3}
  {
    assert r == [4] + [3] + [5] + [3] + [9] + [3];
  }

  lemma SortedLeftBag(sl: seq<int>)
    requires sl == [1, 2, 3, 3, 3, 4]
    ensures multiset(sl) == multiset{3, 4, 2, 1, 3, 3}
  {
    assert sl == [1] + [2] + [3] + [3] + [3] + [4];
    assert multiset{1, 2, 3, 3, 3, 4} == multiset{3, 4, 2, 1, 3, 3};
  }

  lemma SortedRightBag(sr: seq<int>)
    requires sr == [3, 3, 3, 4, 5, 9]
    ensures multiset(sr) == multiset{4, 3, 5, 3, 9, 3}
  {
    assert sr == [3] + [3] + [3] + [4] + [5] + [9];
    assert multiset{3, 3, 3, 4, 5, 9} == multiset{4, 3, 5, 3, 9, 3};
  }

  /** Ids that never decrease from one to the next are sorted. */
  lemma {:induction false} Ascending(s: seq<int>)
    requires forall i :: 0 <= i < |s| - 1 ==> s[i] <= s[i + 1]
    ensures Sorting.SortedBy(s, Sorting.IntLe)
  {
    if |s| > 1 {
      Ascending(s[1..]);
      forall i, j | 0 <= i < j < |s| ensures s[i] <= s[j] {
        if 0 < i {
          assert s[1..][i - 1] <= s[1..][j - 1];
        } else if 1 < j {
          assert s[1..][0] <= s[1..][j - 1];
        }
      }
    }
  }

  /** The example's left column sorted. */
  lemma SampleSortedLeft(l: seq<int>, sl: seq<int>)
    requires l == SampleLeft && sl == [1, 2, 3, 3, 3, 4]
    ensures Sorting.Sort(l, Sorting.IntLe) == sl
  {
    SampleLeftBag(l);
    SortedLeftBag(sl);
    Ascending(sl);
    SortIs(l, sl);
  }

  /** The example's right column sorted. */
  lemma SampleSortedRight(r: seq<int>, sr: seq<int>)
    requires r == SampleRight && sr == [3, 3, 3, 4, 5, 9]
    ensures Sorting.Sort(r, Sorting.IntLe) == sr
  {
    SampleRightBag(r);
    SortedRightBag(sr);
    Ascending(sr);
    SortIs(r, sr);
  }

  lemma SamplePairedDistance(x: seq<int>, y: seq<int>)
    requires x == [1, 2, 3, 3, 3, 4] && y == [3, 3, 3, 4, 5, 9]
    ensures PairedDistance(x, y) == 11
  {
    assert PairedDistance(x[..0], y) == 0;
    assert PairedDistance(x[..1], y) == 2 by { assert x[..1][..0] == x[..0]; }
    assert PairedDistance(x[..2], y) == 3 by { assert x[..2][..1] == x[..1]; }
    assert PairedDistance(x[..3], y) == 3 by { assert x[..3][..2] == x[..2]; }
    assert PairedDistance(x[..4], y) == 4 by { assert x[..4][..3] == x[..3]; }
    assert PairedDistance(x[..5], y) == 6 by { assert x[..5][..4] == x[..4]; }
    assert x[..6][..5] == x[..5];
    assert x[..6] == x;
  }

  /** On the example the distance is 11. */
  lemma SampleDistance(l: seq<int>, r: seq<int>, x: seq<int>, y: seq<int>)
    requires l == SampleLeft && r == SampleRight
    requires x == [1, 2, 3, 3, 3, 4] && y == [3, 3, 3, 4, 5, 9]
    ensures PairedDistance(Sorting.Sort(l, Sorting.IntLe), Sorting.Sort(r, Sorting.IntLe)) == 11
  {
    SampleSortedLeft(l, x);
    SampleSortedRight(r, y);
    SamplePairedDistance(x, y);
  }
}
