/**
 * `y2024/day2.rs`: reports of levels. A report is safe when its levels
 * move in one direction in steps of one to three; with the problem
 * dampener it may also become safe by dropping a single level.
 */
module Y2024Day2 {
  import opened Wrappers
  import opened Strings

  /** `struct Report(Vec<i32>)`. */
  datatype Report = Report(levels: seq<int>)

  function Abs(x: int): nat {
    if x < 0 then -x else x
  }

  /** The difference between level `i` and the level before it. */
  function Step(s: seq<int>, i: nat): int
    requires 1 <= i < |s|
  {
    s[i] - s[i - 1]
  }

  /**
   * What `is_safe` decides: every difference between neighbours is 1 to 3
   * in size and has the sign of the first difference.
   */
  predicate Safe(s: seq<int>) {
    && (forall i :: 1 <= i < |s| ==> 1 <= Abs(Step(s, i)) <= 3)
    && (forall i :: 2 <= i < |s| ==> (Step(s, i) > 0) == (Step(s, 1) > 0))
  }

  /**
   * `Report::is_safe`: walks the differences, fails on a size outside 1..3,
   * fixes the direction at the first difference and fails on a later
   * difference that goes the other way.
   */
  method IsSafe(r: Report) returns (b: bool)
    ensures b == Safe(r.levels)
  {
    var s := r.levels;
    var increasing: Option<bool> := None;
    var idx := 1;
    while idx < |s|
      invariant idx == 1 || 1 <= idx <= |s|
      invariant forall i :: 1 <= i < idx ==> 1 <= Abs(Step(s, i)) <= 3
      invariant increasing == if idx == 1 then None else Some(Step(s, 1) > 0)
      invariant forall i :: 2 <= i < idx ==> (Step(s, i) > 0) == (Step(s, 1) > 0)
    {
      var x := s[idx] - s[idx - 1];
      var absx := Abs(x);
      if absx < 1 || absx > 3 {
        assert !(1 <= Abs(Step(s, idx)) <= 3);
        return false;
      }
      match increasing {
        case None =>
          increasing := Some(x > 0);
        case Some(k) =>
          if (k && x < 0) || (!k && x > 0) {
            return false;
          }
      }
      idx := idx + 1;
    }
    return true;
  }

  /** The levels rise in steps of 1 to 3. */
  predicate Rising(s: seq<int>) {
    forall i :: 1 <= i < |s| ==> 1 <= Step(s, i) <= 3
  }

  /** The levels fall in steps of 1 to 3. */
  predicate Falling(s: seq<int>) {
    forall i :: 1 <= i < |s| ==> -3 <= Step(s, i) <= -1
  }

  /** A report is safe exactly when its levels all rise or all fall, by 1 to 3 at a time. */
  lemma SafeIffMonotone(s: seq<int>)
    ensures Safe(s) <==> Rising(s) || Falling(s)
  {
    if |s| >= 2 {
      if Safe(s) && Step(s, 1) > 0 {
        forall i | 1 <= i < |s| ensures 1 <= Step(s, i) <= 3 {
          assert 1 <= Abs(Step(s, i)) <= 3;
        }
      }
      if Safe(s) && Step(s, 1) <= 0 {
        forall i | 1 <= i < |s| ensures -3 <= Step(s, i) <= -1 {
          assert 1 <= Abs(Step(s, i)) <= 3;
        }
      }
      if Rising(s) {
        assert Step(s, 1) > 0;
      }
      if Falling(s) {
        assert Step(s, 1) < 0;
      }
    }
  }

  /** Reports with fewer than two levels have no differences and are safe. */
  lemma ShortIsSafe(s: seq<int>)
    requires |s| < 2
    ensures Safe(s)
  {
  }

  /** `Vec::remove(idx)`: the levels without the one at `idx`. */
  function Remove(s: seq<int>, idx: nat): (r: seq<int>)
    requires idx < |s|
    ensures |r| == |s| - 1
    ensures forall i :: 0 <= i < |r| ==> r[i] == if i < idx then s[i] else s[i + 1]
  {
    s[..idx] + s[idx + 1..]
  }

  /** What `is_safe_with_removal` decides: safe, or safe once some single level is removed. */
  predicate SafeWithRemoval(s: seq<int>) {
    Safe(s) || exists idx :: 0 <= idx < |s| && Safe(Remove(s, idx))
  }

  /** A safe report stays safe with the dampener. */
  lemma SafeImpliesSafeWithRemoval(s: seq<int>)
    requires Safe(s)
    ensures SafeWithRemoval(s)
  {
  }

  /**
   * `Report::is_safe_with_removal`: the report itself, then each clone with
   * one level removed, in index order; the first safe one answers true.
   */
  method IsSafeWithRemoval(r: Report) returns (b: bool)
    ensures b == SafeWithRemoval(r.levels)
  {
    var s := r.levels;
    b := IsSafe(r);
    if b {
      return;
    }
    for idx := 0 to |s|
      invariant forall i :: 0 <= i < idx ==> !Safe(Remove(s, i))
    {
      var clone := Report(Remove(s, idx));
      var ok := IsSafe(clone);
      if ok {
        return true;
      }
    }
    return false;
  }

  /** The number of reports whose levels satisfy `p` (`filter(..).count()`). */
  function Count(reports: seq<Report>, p: seq<int> -> bool): (n: nat)
    ensures n <= |reports|
  {
    if reports == [] then 0
    else Count(reports[..|reports| - 1], p) + if p(reports[|reports| - 1].levels) then 1 else 0
  }

  /** `Report::count_safe`. */
  function CountSafe(reports: seq<Report>): nat {
    Count(reports, Safe)
  }

  /** `Report::count_safe_with_removal`. */
  function CountSafeWithRemoval(reports: seq<Report>): nat {
    Count(reports, SafeWithRemoval)
  }

  /** `Count` is exactly the size of the set of indices whose report satisfies `p`. */
  lemma {:induction false} CountIndices(reports: seq<Report>, p: seq<int> -> bool)
    ensures Count(reports, p) == |set i | 0 <= i < |reports| && p(reports[i].levels)|
  {
    if reports != [] {
      var n := |reports| - 1;
      CountIndices(reports[..n], p);
      var before := set i | 0 <= i < n && p(reports[..n][i].levels);
      var all := set i | 0 <= i < |reports| && p(reports[i].levels);
      assert before == set i | 0 <= i < n && p(reports[i].levels);
      if p(reports[n].levels) {
        assert all == before + {n};
      } else {
        assert all == before;
      }
    }
  }

  /** Counting with a weaker predicate never counts fewer reports. */
  lemma {:induction false} CountMonotone(reports: seq<Report>, p: seq<int> -> bool, q: seq<int> -> bool)
    requires forall s :: p(s) ==> q(s)
    ensures Count(reports, p) <= Count(reports, q)
  {
    if reports != [] {
      CountMonotone(reports[..|reports| - 1], p, q);
    }
  }

  /** The dampener never lowers the count. */
  lemma CountSafeAtMostWithRemoval(reports: seq<Report>)
    ensures CountSafe(reports) <= CountSafeWithRemoval(reports)
  {
    forall s | Safe(s) ensures SafeWithRemoval(s) {
      SafeImpliesSafeWithRemoval(s);
    }
    CountMonotone(reports, Safe, SafeWithRemoval);
  }

  /** Every token of the line is an `i32` (`Report::from` unwraps the parse). */
  predicate ReportLine(l: string) {
    forall i :: 0 <= i < |Tokens(l)| ==> IsI32(Tokens(l)[i])
  }

  /** `Report::from`: the line's whitespace-separated tokens as `i32` levels. */
  function FromLine(l: string): (r: Report)
    requires ReportLine(l)
    ensures |r.levels| == |Tokens(l)|
    ensures forall i :: 0 <= i < |r.levels| ==> r.levels[i] == I32(Tokens(l)[i])
  {
    var t := Tokens(l);
    Report(seq(|t|, i requires 0 <= i < |t| => I32(t[i])))
  }

  /** `parse`: one report per `'\n'`-separated line. */
  function Parse(input: string): (reports: seq<Report>)
    requires forall l :: l in Split(input, '\n') ==> ReportLine(l)
    ensures |reports| == |Split(input, '\n')|
    ensures forall i :: 0 <= i < |reports| ==> reports[i] == FromLine(Split(input, '\n')[i])
  {
    var lines := Split(input, '\n');
    seq(|lines|, i requires 0 <= i < |lines| => FromLine(lines[i]))
  }

  /** The text of a report: its levels in decimal, separated by single spaces. */
  function RenderLevels(s: seq<int>): (l: string)
    requires |s| >= 1
  {
    Join(seq(|s|, i requires 0 <= i < |s| => ShowSigned(s[i])), ' ')
  }

  /** `Report::from` reads a rendered report back. */
  lemma RenderFromLine(s: seq<int>)
    requires |s| >= 1 && forall i :: 0 <= i < |s| ==> I32_MIN <= s[i] <= I32_MAX
    ensures ReportLine(RenderLevels(s)) && FromLine(RenderLevels(s)) == Report(s)
  {
    var words := seq(|s|, i requires 0 <= i < |s| => ShowSigned(s[i]));
    forall i | 0 <= i < |s| ensures IsWord(words[i]) && ParseSigned(words[i], I32_MIN, I32_MAX) == Some(s[i]) {
      ShowSignedWord(s[i]);
      ParseShowSigned(s[i], I32_MIN, I32_MAX);
    }
    TokensJoin(words);
  }

  /** An empty line, such as the one after a final newline, parses to an empty report, which is safe. */
  lemma EmptyLineIsSafe()
    ensures ReportLine([]) && Safe(FromLine([]).levels)
  {
    assert Tokens([]) == [];
  }

  /** The example's first report, `7 6 4 2 1`, is safe. */
  lemma Sample1(s: seq<int>)
    requires s == [7, 6, 4, 2, 1]
    ensures Safe(s) && SafeWithRemoval(s)
  {
  }

  /** `1 2 7 8 9` is unsafe, and no single removal helps: the step of 5 or 6 stays. */
  lemma Sample2(s: seq<int>)
    requires s == [1, 2, 7, 8, 9]
    ensures !Safe(s) && !SafeWithRemoval(s)
  {
    assert Step(s, 2) == 5;
    forall idx | 0 <= idx < |s| ensures !Safe(Remove(s, idx)) {
      var r := Remove(s, idx);
      if idx == 0 {
        assert Step(r, 1) == 5;
      } else if idx == 1 {
        assert Step(r, 1) == 6;
      } else if idx == 2 {
        assert Step(r, 2) == 6;
      } else {
        assert Step(r, 2) == 5;
      }
    }
  }

  /** `9 7 6 2 1` is unsafe, and no single removal helps. */
  lemma Sample3(s: seq<int>)
    requires s == [9, 7, 6, 2, 1]
    ensures !Safe(s) && !SafeWithRemoval(s)
  {
    assert Step(s, 3) == -4;
    forall idx | 0 <= idx < |s| ensures !Safe(Remove(s, idx)) {
      var r := Remove(s, idx);
      if idx <= 1 {
        assert Step(r, 2) == -4;
      } else if idx == 2 {
        assert Step(r, 2) == -5;
      } else if idx == 3 {
        assert Step(r, 3) == -5;
      } else {
        assert Step(r, 3) == -4;
      }
    }
  }

  /** `1 3 2 4 5` changes direction, but dropping the 3 makes it safe. */
  lemma Sample4(s: seq<int>)
    requires s == [1, 3, 2, 4, 5]
    ensures !Safe(s) && SafeWithRemoval(s)
  {
    assert Step(s, 2) == -1;
    assert Safe(Remove(s, 1));
  }

  /** `8 6 4 4 1` has a zero step, but dropping one 4 makes it safe. */
  lemma Sample5(s: seq<int>)
    requires s == [8, 6, 4, 4, 1]
    ensures !Safe(s) && SafeWithRemoval(s)
  {
    assert Step(s, 3) == 0;
    assert Safe(Remove(s, 2));
  }

  /** `1 3 6 7 9` is safe. */
  lemma Sample6(s: seq<int>)
    requires s == [1, 3, 6, 7, 9]
    ensures Safe(s) && SafeWithRemoval(s)
  {
  }

  lemma CountSnoc(reports: seq<Report>, r: Report, p: seq<int> -> bool)
    ensures Count(reports + [r], p) == Count(reports, p) + if p(r.levels) then 1 else 0
  {
    assert (reports + [r])[..|reports|] == reports;
  }

  /** Six reports with the example's verdicts are counted 2 and 4. */
  lemma CountSix(s1: seq<int>, s2: seq<int>, s3: seq<int>, s4: seq<int>, s5: seq<int>, s6: seq<int>)
    requires Safe(s1) && SafeWithRemoval(s1) && !SafeWithRemoval(s2) && !SafeWithRemoval(s3)
    requires !Safe(s2) && !Safe(s3) && !Safe(s4) && SafeWithRemoval(s4)
    requires !Safe(s5) && SafeWithRemoval(s5) && Safe(s6) && SafeWithRemoval(s6)
    ensures var reports := [Report(s1), Report(s2), Report(s3), Report(s4), Report(s5), Report(s6)];
      CountSafe(reports) == 2 && CountSafeWithRemoval(reports) == 4
  {
    var r0: seq<Report> := [];
    var r1 := r0 + [Report(s1)];
    var r2 := r1 + [Report(s2)];
    var r3 := r2 + [Report(s3)];
    var r4 := r3 + [Report(s4)];
    var r5 := r4 + [Report(s5)];
    var r6 := r5 + [Report(s6)];
    CountSnoc(r0, Report(s1), Safe);
    CountSnoc(r1, Report(s2), Safe);
    CountSnoc(r2, Report(s3), Safe);
    CountSnoc(r3, Report(s4), Safe);
    CountSnoc(r4, Report(s5), Safe);
    CountSnoc(r5, Report(s6), Safe);
    CountSnoc(r0, Report(s1), SafeWithRemoval);
    CountSnoc(r1, Report(s2), SafeWithRemoval);
    CountSnoc(r2, Report(s3), SafeWithRemoval);
    CountSnoc(r3, Report(s4), SafeWithRemoval);
    CountSnoc(r4, Report(s5), SafeWithRemoval);
    CountSnoc(r5, Report(s6), SafeWithRemoval);
    assert r6 == [Report(s1), Report(s2), Report(s3), Report(s4), Report(s5), Report(s6)];
  }

  /** On the example two reports are safe, and four with the dampener. */
  lemma SampleCounts(s1: seq<int>, s2: seq<int>, s3: seq<int>, s4: seq<int>, s5: seq<int>, s6: seq<int>)
    requires s1 == [7, 6, 4, 2, 1] && s2 == [1, 2, 7, 8, 9] && s3 == [9, 7, 6, 2, 1]
    requires s4 == [1, 3, 2, 4, 5] && s5 == [8, 6, 4, 4, 1] && s6 == [1, 3, 6, 7, 9]
    ensures var reports := [Report(s1), Report(s2), Report(s3), Report(s4), Report(s5), Report(s6)];
      CountSafe(reports) == 2 && CountSafeWithRemoval(reports) == 4
  {
    Sample1(s1);
    Sample2(s2);
    Sample3(s3);
    Sample4(s4);
    Sample5(s5);
    Sample6(s6);
    CountSix(s1, s2, s3, s4, s5, s6);
  }
}
