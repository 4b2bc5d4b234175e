/**
 * `y2025/day5.rs`: inclusive ranges of fresh ingredient ids. The ranges are
 * sorted and collapsed into separated ranges, which a binary search then
 * queries; `total_fresh` adds up the sizes of the collapsed ranges.
 */
module Y2025Day5 {
  import opened Wrappers
  import opened Strings
  import Sorting

  /** `Range`: the ids `min..=max`; the derived order compares `min`, then `max`. */
  datatype Range = Range(min: nat, max: nat) {
    /** `contains`: inclusive at both ends. */
    predicate Contains(x: int) {
      min <= x <= max
    }

    /**
     * `count`: `1 + max - min`, evaluated left to right on `u64`, so it
     * neither overflows nor underflows exactly when `min <= max + 1 <= u64::MAX`.
     */
    function Count(): (n: nat)
      requires min <= max + 1 <= U64_MAX
    {
      1 + max - min
    }
  }

  /** The derived `Ord` of `Range`: lexicographic on `(min, max)`. */
  predicate RangeLe(a: Range, b: Range) {
    a.min < b.min || (a.min == b.min && a.max <= b.max)
  }

  lemma RangeLeOrder()
    ensures Sorting.TotalPreorder(RangeLe)
    ensures forall a, b :: RangeLe(a, b) && RangeLe(b, a) ==> a == b
  {
  }

  datatype RangeParseError = InvalidRange | NotInteger

  /**
   * `from_str`: the first two `-`-separated pieces are parsed as `u64`.
   * A piece that does not parse gives `NotInteger`; a missing second piece
   * gives `InvalidRange`; pieces after the second are ignored.
   */
  function ParseRange(s: string): (r: Result<Range, RangeParseError>)
    ensures r.Ok? ==> r.value.min <= U64_MAX && r.value.max <= U64_MAX
    ensures r.Ok? <==> |Split(s, '-')| >= 2
                       && ParseUnsigned(Split(s, '-')[0], U64_MAX).Some?
                       && ParseUnsigned(Split(s, '-')[1], U64_MAX).Some?
    ensures r == Err(InvalidRange) <==> |Split(s, '-')| == 1 && ParseUnsigned(s, U64_MAX).Some?
  {
    var pieces := Split(s, '-');
    match ParseUnsigned(pieces[0], U64_MAX)
    case None => Err(NotInteger)
    case Some(min) =>
      if |pieces| < 2 then Err(InvalidRange)
      else
        match ParseUnsigned(pieces[1], U64_MAX)
        case None => Err(NotInteger)
        case Some(max) => Ok(Range(min, max))
  }

  /** Parsing `"a-b"` written out in decimal gives the range back. */
  lemma ParseRangeShow(a: nat, b: nat)
    requires a <= U64_MAX && b <= U64_MAX
    ensures ParseRange(Show(a) + "-" + Show(b)) == Ok(Range(a, b))
  {
    var pieces := [Show(a), Show(b)];
    assert Join(pieces, '-') == Show(a) + "-" + Show(b);
    assert forall i :: 0 <= i < |pieces| ==> '-' !in pieces[i] by {
      forall i, j | 0 <= i < |pieces| && 0 <= j < |pieces[i]| ensures pieces[i][j] != '-' {
        assert IsDigit(pieces[i][j]);
      }
    }
    SplitJoin(pieces, '-');
    ParseShow(a, U64_MAX);
    ParseShow(b, U64_MAX);
  }

  // ---------------------------------------------------------------------
  // Coverage and collapsing

  /** Some range of `rs` contains `x`. */
  predicate Covers(rs: seq<Range>, x: int) {
    exists i :: 0 <= i < |rs| && rs[i].Contains(x)
  }

  /** The ids covered by all ranges are those covered by all but the last, and those of the last. */
  lemma CoversSnoc(rs: seq<Range>)
    requires rs != []
    ensures forall x :: Covers(rs, x) <==> Covers(rs[..|rs| - 1], x) || rs[|rs| - 1].Contains(x)
  {
    var init := rs[..|rs| - 1];
    forall x ensures Covers(rs, x) <==> Covers(init, x) || rs[|rs| - 1].Contains(x) {
      if Covers(init, x) {
        var i :| 0 <= i < |init| && init[i].Contains(x);
        assert rs[i] == init[i];
      }
      if Covers(rs, x) {
        var i :| 0 <= i < |rs| && rs[i].Contains(x);
        if i < |init| {
          assert init[i] == rs[i];
        }
      }
    }
  }

  /** Each range starts after every earlier one ends (and no earlier than it starts). */
  predicate Separated(rs: seq<Range>) {
    forall i, j :: 0 <= i < j < |rs| ==> rs[i].max < rs[j].min && rs[i].min <= rs[j].min
  }

  /** One step of `collapse`'s loop: merge `r` into the last range when it starts inside it, else push it. */
  function Merge(res: seq<Range>, r: Range): seq<Range> {
    if res != [] && r.min <= res[|res| - 1].max then
      var prev := res[|res| - 1];
      res[..|res| - 1] + [Range(prev.min, if prev.max < r.max then r.max else prev.max)]
    else
      res + [r]
  }

  /** The ranges `collapse` returns for the (already sorted) ranges `s`. */
  function CollapseSorted(s: seq<Range>): seq<Range> {
    if s == [] then [] else Merge(CollapseSorted(s[..|s| - 1]), s[|s| - 1])
  }

  /** Sorted by `min`, which the derived order implies. */
  predicate MinSorted(s: seq<Range>) {
    forall i, j :: 0 <= i < j < |s| ==> s[i].min <= s[j].min
  }

  /**
   * Collapsing ranges sorted by `min` gives separated ranges that cover
   * exactly the ids the input covers, none starting after the last input.
   */
  lemma {:induction false} CollapseSortedFacts(s: seq<Range>)
    requires MinSorted(s)
    ensures Separated(CollapseSorted(s))
    ensures forall x :: Covers(CollapseSorted(s), x) <==> Covers(s, x)
    ensures s != [] ==> forall r :: r in CollapseSorted(s) ==> r.min <= s[|s| - 1].min
  {
    if s != [] {
      var init, r := s[..|s| - 1], s[|s| - 1];
      CollapseSortedFacts(init);
      var res := CollapseSorted(init);
      forall q | q in res ensures q.min <= r.min {
        assert init != [] && init[|init| - 1] == s[|s| - 2];
      }
      MergeFacts(res, r);
      CoversSnoc(s);
    }
  }

  /** Merging a range that starts no earlier than any collapsed range keeps them separated and adds its ids. */
  lemma MergeFacts(res: seq<Range>, r: Range)
    requires Separated(res) && forall q :: q in res ==> q.min <= r.min
    ensures Separated(Merge(res, r))
    ensures forall x :: Covers(Merge(res, r), x) <==> Covers(res, x) || r.Contains(x)
    ensures forall q :: q in Merge(res, r) ==> q.min <= r.min
  {
    if res != [] && r.min <= res[|res| - 1].max {
      MergeIntoLast(res, r);
    } else {
      MergePush(res, r);
    }
  }

  /** A range starting inside the last one widens it to the union of the two. */
  lemma MergeIntoLast(res: seq<Range>, r: Range)
    requires Separated(res) && forall q :: q in res ==> q.min <= r.min
    requires res != [] && r.min <= res[|res| - 1].max
    ensures Separated(Merge(res, r))
    ensures forall x :: Covers(Merge(res, r), x) <==> Covers(res, x) || r.Contains(x)
    ensures forall q :: q in Merge(res, r) ==> q.min <= r.min
  {
    var m := Merge(res, r);
    var n := |res| - 1;
    var prev := res[n];
    assert prev in res;
    assert m == res[..n] + [m[n]] && m[n].min == prev.min && m[n].max >= prev.max;
    forall x ensures Covers(m, x) <==> Covers(res, x) || r.Contains(x) {
      if Covers(m, x) {
        var i :| 0 <= i < |m| && m[i].Contains(x);
        if i < n {
          assert res[i] == m[i];
        } else if !prev.Contains(x) {
          assert r.Contains(x);
        } else {
          assert res[n].Contains(x);
        }
      }
      if Covers(res, x) {
        var i :| 0 <= i < |res| && res[i].Contains(x);
        if i < n {
          assert m[i] == res[i];
        } else {
          assert m[n].Contains(x);
        }
      }
      if r.Contains(x) {
        assert m[n].Contains(x);
      }
    }
  }

  /** A range starting after the last one ends is pushed after it. */
  lemma MergePush(res: seq<Range>, r: Range)
    requires Separated(res) && forall q :: q in res ==> q.min <= r.min
    requires res == [] || r.min > res[|res| - 1].max
    ensures Separated(Merge(res, r))
    ensures forall x :: Covers(Merge(res, r), x) <==> Covers(res, x) || r.Contains(x)
    ensures forall q :: q in Merge(res, r) ==> q.min <= r.min
  {
    var m := Merge(res, r);
    assert m == res + [r];
    forall x ensures Covers(m, x) <==> Covers(res, x) || r.Contains(x) {
      if Covers(m, x) {
        var i :| 0 <= i < |m| && m[i].Contains(x);
        if i < |res| {
          assert res[i] == m[i];
        }
      }
      if Covers(res, x) {
        var i :| 0 <= i < |res| && res[i].Contains(x);
        assert m[i] == res[i];
      }
      if r.Contains(x) {
        assert m[|res|] == r;
      }
    }
    forall i, j | 0 <= i < j < |m| ensures m[i].max < m[j].min && m[i].min <= m[j].min {
      if j == |res| {
        var last := res[|res| - 1];
        assert res[i] in res && last in res;
        assert i < |res| - 1 ==> res[i].max < last.min;
      }
    }
  }

  /** Sorting under the derived order sorts by `min`. */
  lemma SortedMinSorted(s: seq<Range>)
    requires Sorting.SortedBy(s, RangeLe)
    ensures MinSorted(s)
  {
  }

  /** A permutation covers the same ids. */
  lemma CoversPermutation(s: seq<Range>, t: seq<Range>)
    requires multiset(s) == multiset(t)
    ensures forall x :: Covers(s, x) <==> Covers(t, x)
  {
    forall x | Covers(s, x) ensures Covers(t, x) {
      var i :| 0 <= i < |s| && s[i].Contains(x);
      assert s[i] in multiset(t);
    }
    forall x | Covers(t, x) ensures Covers(s, x) {
      var i :| 0 <= i < |t| && t[i].Contains(x);
      assert t[i] in multiset(s);
    }
  }

  /** `collapse` as a whole: separated ranges covering exactly the ids of the input ranges. */
  lemma CollapseCorrect(s: seq<Range>)
    ensures Separated(CollapseSorted(Sorting.Sort(s, RangeLe)))
    ensures forall x :: Covers(CollapseSorted(Sorting.Sort(s, RangeLe)), x) <==> Covers(s, x)
  {
    var t := Sorting.Sort(s, RangeLe);
    RangeLeOrder();
    Sorting.SortSorted(s, RangeLe);
    SortedMinSorted(t);
    CollapseSortedFacts(t);
    CoversPermutation(s, t);
  }

  /**
   * `collapse`: sorts the vector in place, then merges each range into the
   * last collected one when it starts at or before that one's end.
   */
  method Collapse(ranges: array<Range>) returns (res: seq<Range>)
    modifies ranges
    ensures ranges[..] == Sorting.Sort(old(ranges[..]), RangeLe)
    ensures res == CollapseSorted(ranges[..])
  {
    Sorting.SortInPlace(ranges, RangeLe);
    res := [];
    for i := 0 to ranges.Length
      invariant ranges[..] == Sorting.Sort(old(ranges[..]), RangeLe)
      invariant res == CollapseSorted(ranges[..i])
    {
      var range := ranges[i];
      if res != [] && range.min <= res[|res| - 1].max {
        var prev := res[|res| - 1];
        var newMax := if prev.max < range.max then range.max else prev.max;
        res := res[..|res| - 1];
        res := res + [Range(prev.min, newMax)];
      } else {
        res := res + [range];
      }
      assert ranges[..i + 1][..i] == ranges[..i];
    }
    assert ranges[..ranges.Length] == ranges[..];
  }

  // ---------------------------------------------------------------------
  // Queries

  /**
   * `is_fresh`: a binary search over separated ranges, narrowing to the
   * left when `x` is below the candidate and to the right otherwise.
   */
  method IsFresh(ranges: seq<Range>, x: nat) returns (b: bool)
    requires Separated(ranges)
    ensures b <==> Covers(ranges, x)
  {
    var start := 0;
    var end := |ranges|;
    var mid := (start + end) / 2;
    while start < end
      invariant 0 <= start <= end <= |ranges| && mid == (start + end) / 2
      invariant forall i :: 0 <= i < start && i < |ranges| ==> !ranges[i].Contains(x)
      invariant forall i :: end <= i < |ranges| ==> !ranges[i].Contains(x)
      decreases end - start
    {
      var candidate := ranges[mid];
      if candidate.Contains(x) {
        return true;
      }
      if x < candidate.min {
        end := mid;
      } else {
        start := mid + 1;
      }
      mid := (start + end) / 2;
    }
    return false;
  }

  /** The number of `ingredients` some range covers. */
  function FreshCount(ranges: seq<Range>, ingredients: seq<nat>): nat {
    if ingredients == [] then 0
    else
      FreshCount(ranges, ingredients[..|ingredients| - 1])
      + if Covers(ranges, ingredients[|ingredients| - 1]) then 1 else 0
  }

  /** `count_fresh`: the ingredients for which `is_fresh` holds. */
  method CountFresh(ranges: seq<Range>, ingredients: seq<nat>) returns (n: nat)
    requires Separated(ranges)
    ensures n == FreshCount(ranges, ingredients)
  {
    n := 0;
    for i := 0 to |ingredients|
      invariant n == FreshCount(ranges, ingredients[..i])
    {
      var found := IsFresh(ranges, ingredients[i]);
      if found {
        n := n + 1;
      }
      assert ingredients[..i + 1][..i] == ingredients[..i];
    }
    assert ingredients[..|ingredients|] == ingredients;
  }

  /** Every range's `count` is defined. */
  predicate Countable(rs: seq<Range>) {
    forall i :: 0 <= i < |rs| ==> rs[i].min <= rs[i].max + 1 <= U64_MAX
  }

  /** `total_fresh`: the sum of the ranges' `count`s. */
  function TotalFresh(rs: seq<Range>): nat
    requires Countable(rs)
  {
    if rs == [] then 0 else TotalFresh(rs[..|rs| - 1]) + rs[|rs| - 1].Count()
  }

  /** The ids between `lo` and `hi`. */
  ghost function Span(lo: int, hi: int): set<int> {
    set x: int | lo <= x <= hi && Between(lo, x, hi)
  }

  predicate Between(lo: int, x: int, hi: int) {
    lo <= x <= hi
  }

  lemma {:induction false} SpanCard(lo: int, hi: int)
    requires lo <= hi + 1
    ensures |Span(lo, hi)| == hi + 1 - lo
    decreases hi + 1 - lo
  {
    if lo <= hi {
      SpanCard(lo, hi - 1);
      var prev := Span(lo, hi - 1);
      forall x ensures x in Span(lo, hi) <==> x in prev || x == hi {
        assert Between(lo, x, hi) <==> Between(lo, x, hi - 1) || x == hi;
      }
      assert Span(lo, hi) == prev + {hi};
      assert hi !in prev;
    } else {
      assert Span(lo, hi) == {};
    }
  }

  /** The ids the ranges cover, as a set. */
  ghost function Covered(rs: seq<Range>): set<int> {
    if rs == [] then {} else Covered(rs[..|rs| - 1]) + Span(rs[|rs| - 1].min, rs[|rs| - 1].max)
  }

  lemma {:induction false} CoveredMembers(rs: seq<Range>)
    ensures forall x :: x in Covered(rs) <==> Covers(rs, x)
  {
    if rs != [] {
      var init := rs[..|rs| - 1];
      CoveredMembers(init);
      CoversSnoc(rs);
    }
  }

  /** On separated ranges `total_fresh` is the number of fresh ids. */
  lemma {:induction false} TotalFreshCovered(rs: seq<Range>)
    requires Separated(rs) && Countable(rs)
    ensures TotalFresh(rs) == |Covered(rs)|
  {
    if rs != [] {
      var init, r := rs[..|rs| - 1], rs[|rs| - 1];
      TotalFreshCovered(init);
      CoveredMembers(init);
      SpanCard(r.min, r.max);
      forall x | x in Covered(init) ensures x !in Span(r.min, r.max) {
        var i :| 0 <= i < |init| && init[i].Contains(x);
        assert rs[i] == init[i];
      }
      assert Covered(init) * Span(r.min, r.max) == {};
    }
  }

  // ---------------------------------------------------------------------
  // The example of the tests

  /** The sample's ranges, in sorted order `3-5`, `10-14`, `12-18`, `16-20`, collapse to `3-5` and `10-20`. */
  lemma ExampleCollapseSorted(t: seq<Range>)
    requires t == [Range(3, 5), Range(10, 14), Range(12, 18), Range(16, 20)]
    ensures CollapseSorted(t) == [Range(3, 5), Range(10, 20)]
  {
    var p: seq<Range> := [];
    CollapseSnoc(p, Range(3, 5)); p := p + [Range(3, 5)];
    assert CollapseSorted(p) == [Range(3, 5)];
    CollapseSnoc(p, Range(10, 14)); p := p + [Range(10, 14)];
    assert CollapseSorted(p) == [Range(3, 5), Range(10, 14)];
    CollapseSnoc(p, Range(12, 18)); p := p + [Range(12, 18)];
    assert CollapseSorted(p) == [Range(3, 5)] + [Range(10, 18)];
    CollapseSnoc(p, Range(16, 20)); p := p + [Range(16, 20)];
    assert CollapseSorted(p) == [Range(3, 5)] + [Range(10, 20)];
    assert p == t;
  }

  /** Collapsing one more range merges it into the collapse of the others. */
  lemma CollapseSnoc(s: seq<Range>, r: Range)
    ensures CollapseSorted(s + [r]) == Merge(CollapseSorted(s), r)
  {
    assert (s + [r])[..|s|] == s;
  }

  /** The collapsed sample has 3 + 11 = 14 fresh ids. */
  lemma ExampleTotalFresh(rs: seq<Range>)
    requires rs == [Range(3, 5), Range(10, 20)]
    ensures TotalFresh(rs) == 14
  {
    assert rs[..1] == [Range(3, 5)] && rs[..1][..0] == [];
    assert TotalFresh(rs[..1]) == 3;
  }

  /** Which of the sample ingredients the collapsed sample covers. */
  lemma SampleFresh(rs: seq<Range>)
    requires rs == [Range(3, 5), Range(10, 20)]
    ensures !Covers(rs, 1) && Covers(rs, 5) && !Covers(rs, 8)
    ensures Covers(rs, 11) && Covers(rs, 17) && !Covers(rs, 32)
  {
    assert rs[0].Contains(5);
    assert rs[1].Contains(11) && rs[1].Contains(17);
  }

  /** `FreshCount` over one more ingredient. */
  lemma FreshCountSnoc(rs: seq<Range>, a: seq<nat>, x: nat)
    ensures FreshCount(rs, a + [x]) == FreshCount(rs, a) + if Covers(rs, x) then 1 else 0
  {
    assert (a + [x])[..|a|] == a;
  }

  /** Of the sample ingredients 1, 5, 8, 11, 17, 32 three are fresh. */
  lemma ExampleCountFresh(rs: seq<Range>)
    requires rs == [Range(3, 5), Range(10, 20)]
    ensures FreshCount(rs, [1, 5, 8, 11, 17, 32]) == 3
  {
    SampleFresh(rs);
    var p: seq<nat> := [];
    FreshCountSnoc(rs, p, 1); p := p + [1];
    FreshCountSnoc(rs, p, 5); p := p + [5];
    FreshCountSnoc(rs, p, 8); p := p + [8];
    FreshCountSnoc(rs, p, 11); p := p + [11];
    FreshCountSnoc(rs, p, 17); p := p + [17];
    FreshCountSnoc(rs, p, 32); p := p + [32];
    assert p == [1, 5, 8, 11, 17, 32];
  }
}
