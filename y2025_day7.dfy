/**
 * `y2025/day7.rs`: tachyon beams fall down a manifold grid from the start
 * cell `S`. A beam whose next cell is a splitter `^` continues as two beams,
 * one to each side; any other cell lets it through. `count_beam_splits`
 * counts the splits; `count_quantum_timelines` counts, per cell, how many
 * timelines reach it and adds them up at the end.
 *
 * `Grid::search` and `Point::down/left/right` are not part of this model:
 * the start cell and the three moves are parameters, assumed only to move
 * one row down (`down`) or stay in the row (`left`, `right`). The iteration
 * order of a `HashSet` or `HashMap` is a parameter `order` too, assumed only
 * to list every element once.
 */
module Y2025Day7 {
  import opened Wrappers
  import opened Grids
  import opened CountMaps

  /** The moves of a beam, standing for `Point::down`, `Point::left` and `Point::right`. */
  datatype Moves = Moves(down: Point -> Point, left: Point -> Point, right: Point -> Point) {
    ghost predicate Valid() {
      forall p: Point :: down(p).y == p.y + 1 && left(p).y == p.y && right(p).y == p.y
    }
  }

  /** `order(s)` is the iteration order of a hash set (or a hash map's keys) `s`: each element once. */
  ghost predicate Lists(order: set<Point> -> seq<Point>) {
    forall s: set<Point> :: multiset(order(s)) == multiset(s)
  }

  lemma ListsMembers(order: set<Point> -> seq<Point>, s: set<Point>)
    requires Lists(order)
    ensures forall b :: b in order(s) <==> b in s
  {
    assert multiset(order(s)) == multiset(s);
    forall b ensures b in order(s) <==> b in s {
      assert b in order(s) <==> b in multiset(order(s));
    }
  }

  // ---------------------------------------------------------------------
  // count_beam_splits

  /** The beams after one round, the splits in it, and whether a beam left the grid (`break`). */
  datatype Round = Round(beams: set<Point>, splits: nat, stopped: bool)

  /**
   * One round of `count_beam_splits` over the beams `bs` in iteration
   * order: each beam moves down; on `^` it splits to both sides and counts
   * one split, otherwise it goes on. The first beam whose next cell is off
   * the grid ends the round, and the beams after it are dropped.
   */
  function SplitRound(g: Grid<char>, bs: seq<Point>, mv: Moves): Round
    reads g
    requires g.Valid()
  {
    if bs == [] then Round({}, 0, false)
    else
      var r := SplitRound(g, bs[..|bs| - 1], mv);
      if r.stopped then r
      else
        var next := mv.down(bs[|bs| - 1]);
        match g.Get(next)
        case None => Round(r.beams, r.splits, true)
        case Some(v) =>
          if v == '^' then Round(r.beams + {mv.left(next), mv.right(next)}, r.splits + 1, false)
          else Round(r.beams + {next}, r.splits, false)
  }

  /** The cells a beam at `b` reaches in one step: none off the grid, both sides at a splitter. */
  function Next(g: Grid<char>, b: Point, mv: Moves): set<Point>
    reads g
    requires g.Valid()
  {
    var next := mv.down(b);
    match g.Get(next)
    case None => {}
    case Some(v) => if v == '^' then {mv.left(next), mv.right(next)} else {next}
  }

  /** Once a beam has left the grid, the rest of the round changes nothing. */
  lemma {:induction false} RoundStops(g: Grid<char>, bs: seq<Point>, mv: Moves, i: nat)
    requires g.Valid() && i <= |bs| && SplitRound(g, bs[..i], mv).stopped
    ensures SplitRound(g, bs, mv) == SplitRound(g, bs[..i], mv)
    decreases |bs| - i
  {
    if i < |bs| {
      assert bs[..i + 1][..i] == bs[..i];
      RoundStops(g, bs, mv, i + 1);
    } else {
      assert bs[..i] == bs;
    }
  }

  /**
   * When no beam leaves the grid, a round moves every beam to the cells it
   * reaches: the set of new beams does not depend on the iteration order.
   */
  lemma {:induction false} RoundReaches(g: Grid<char>, bs: seq<Point>, mv: Moves)
    requires g.Valid()
    requires forall i :: 0 <= i < |bs| ==> g.Contains(mv.down(bs[i]))
    ensures !SplitRound(g, bs, mv).stopped
    ensures SplitRound(g, bs, mv).beams == set b, q | b in bs && q in Next(g, b, mv) :: q
  {
    if bs != [] {
      var init := bs[..|bs| - 1];
      RoundReaches(g, init, mv);
      var last := bs[|bs| - 1];
      assert g.Get(mv.down(last)).Some?;
      assert forall b :: b in bs <==> b in init || b == last;
      var reached := set b, q | b in bs && q in Next(g, b, mv) :: q;
      var before := set b, q | b in init && q in Next(g, b, mv) :: q;
      assert reached == before + Next(g, last, mv) by {
        forall q ensures q in reached <==> q in before || q in Next(g, last, mv) {
          if q in reached {
            var b :| b in bs && q in Next(g, b, mv);
            assert b in init || b == last;
          }
        }
      }
    }
  }

  /** The beams of `bs` whose next cell is a splitter. */
  ghost function Splitting(g: Grid<char>, bs: seq<Point>, mv: Moves): set<Point>
    reads g
    requires g.Valid()
  {
    set b | b in bs && g.Get(mv.down(b)) == Some('^')
  }

  /**
   * When no beam leaves the grid, a round over beams listed once each counts
   * one split per beam whose next cell is a splitter.
   */
  lemma {:induction false} RoundSplits(g: Grid<char>, bs: seq<Point>, mv: Moves)
    requires g.Valid()
    requires forall i, j :: 0 <= i < j < |bs| ==> bs[i] != bs[j]
    requires forall i :: 0 <= i < |bs| ==> g.Contains(mv.down(bs[i]))
    ensures !SplitRound(g, bs, mv).stopped
    ensures SplitRound(g, bs, mv).splits == |Splitting(g, bs, mv)|
  {
    if bs != [] {
      var init := bs[..|bs| - 1];
      RoundSplits(g, init, mv);
      SplittingSnoc(g, bs, mv);
    }
  }

  /** The splitting beams of a listing are those of all but its last beam, and the last one if it splits. */
  lemma SplittingSnoc(g: Grid<char>, bs: seq<Point>, mv: Moves)
    requires g.Valid() && bs != []
    requires forall i, j :: 0 <= i < j < |bs| ==> bs[i] != bs[j]
    ensures bs[|bs| - 1] !in Splitting(g, bs[..|bs| - 1], mv)
    ensures Splitting(g, bs, mv) == Splitting(g, bs[..|bs| - 1], mv) +
              if g.Get(mv.down(bs[|bs| - 1])) == Some('^') then {bs[|bs| - 1]} else {}
  {
    var init := bs[..|bs| - 1];
    var last := bs[|bs| - 1];
    assert bs == init + [last];
    forall k | 0 <= k < |init| ensures init[k] != last {
      assert init[k] == bs[k];
    }
  }

  /** An element listed at two positions is counted twice. */
  lemma ListedTwice(bs: seq<Point>, i: nat, j: nat)
    requires i < j < |bs| && bs[i] == bs[j]
    ensures multiset(bs)[bs[i]] >= 2
  {
    assert bs == bs[..j] + bs[j..];
    assert bs[i] in bs[..j] && bs[j] in bs[j..];
  }

  /** An iteration order lists each element once. */
  lemma ListsOnce(order: set<Point> -> seq<Point>, s: set<Point>)
    requires Lists(order)
    ensures forall i, j :: 0 <= i < j < |order(s)| ==> order(s)[i] != order(s)[j]
  {
    var bs := order(s);
    assert multiset(bs) == multiset(s);
    forall i, j | 0 <= i < j < |bs| ensures bs[i] != bs[j] {
      if bs[i] == bs[j] {
        ListedTwice(bs, i, j);
        assert false;
      }
    }
  }

  /**
   * When no beam leaves the grid, the splits of a round are the beams whose
   * next cell is a splitter, whatever the iteration order.
   */
  lemma RoundSplitsOrderFree(g: Grid<char>, beams: set<Point>, mv: Moves, order: set<Point> -> seq<Point>)
    requires g.Valid() && Lists(order)
    requires forall b :: b in beams ==> g.Contains(mv.down(b))
    ensures SplitRound(g, order(beams), mv).splits == |set b | b in beams && g.Get(mv.down(b)) == Some('^')|
  {
    var bs := order(beams);
    ListsMembers(order, beams);
    ListsOnce(order, beams);
    RoundSplits(g, bs, mv);
    assert Splitting(g, bs, mv) == set b | b in beams && g.Get(mv.down(b)) == Some('^');
  }

  /** All new beams are one row down, and inside the grid's rows. */
  lemma {:induction false} RoundLevel(g: Grid<char>, bs: seq<Point>, mv: Moves, y: int)
    requires g.Valid() && mv.Valid()
    requires forall i :: 0 <= i < |bs| ==> bs[i].y == y
    ensures forall q :: q in SplitRound(g, bs, mv).beams ==> q.y == y + 1 && y + 1 < g.Rows()
  {
    if bs != [] {
      RoundLevel(g, bs[..|bs| - 1], mv, y);
    }
  }

  /**
   * The splits `count_beam_splits` counts from the beams `beams`, all in row
   * `y`: the splits of this round, plus those of the following rounds while
   * a round leaves any beam.
   */
  function Splits(g: Grid<char>, beams: set<Point>, y: int, mv: Moves, order: set<Point> -> seq<Point>): nat
    reads g
    requires g.Valid() && mv.Valid() && Lists(order)
    requires forall b :: b in beams ==> b.y == y
    decreases g.Rows() - y
  {
    var bs := order(beams);
    ListsMembers(order, beams);
    var r := SplitRound(g, bs, mv);
    RoundLevel(g, bs, mv, y);
    if r.beams == {} then r.splits
    else
      r.splits + Splits(g, r.beams, y + 1, mv, order)
  }

  /**
   * One pass of the `loop` in `count_beam_splits`: the `for beam in beams`
   * loop, which may `break` at a beam off the grid.
   */
  method BeamRound(g: Grid<char>, beams: set<Point>, mv: Moves, order: set<Point> -> seq<Point>)
    returns (newBeams: set<Point>, splits: nat)
    requires g.Valid()
    ensures newBeams == SplitRound(g, order(beams), mv).beams
    ensures splits == SplitRound(g, order(beams), mv).splits
  {
    newBeams := {};
    splits := 0;
    var bs := order(beams);
    for i := 0 to |bs|
      invariant SplitRound(g, bs[..i], mv) == Round(newBeams, splits, false)
    {
      assert bs[..i + 1][..i] == bs[..i];
      var next := mv.down(bs[i]);
      var v := g.Get(next);
      if v.None? {
        RoundStops(g, bs, mv, i + 1);
        return;
      }
      if v.value == '^' {
        splits := splits + 1;
        newBeams := newBeams + {mv.left(next), mv.right(next)};
      } else {
        newBeams := newBeams + {next};
      }
    }
    assert bs[..|bs|] == bs;
  }

  /** `count_beam_splits`, from the start cell `start` (`search('S').unwrap()`). */
  method CountBeamSplits(g: Grid<char>, start: Point, mv: Moves, order: set<Point> -> seq<Point>)
    returns (numSplits: nat)
    requires g.Valid() && mv.Valid() && Lists(order) && g.Contains(start)
    ensures numSplits == Splits(g, {start}, start.y, mv, order)
  {
    numSplits := 0;
    var beams: set<Point> := {start};
    ghost var y := start.y;
    while true
      invariant forall b :: b in beams ==> b.y == y
      invariant y < g.Rows()
      invariant numSplits + Splits(g, beams, y, mv, order) == Splits(g, {start}, start.y, mv, order)
      decreases g.Rows() - y
    {
      var newBeams, splits := BeamRound(g, beams, mv, order);
      numSplits := numSplits + splits;
      ListsMembers(order, beams);
      RoundLevel(g, order(beams), mv, y);
      if newBeams == {} {
        break;
      }
      beams := newBeams;
      y := y + 1;
    }
  }

  // ---------------------------------------------------------------------
  // count_quantum_timelines

  /** Every key listed in `ks` has a count in `m`. */
  predicate KeysIn(ks: seq<Point>, m: map<Point, nat>) {
    forall i :: 0 <= i < |ks| ==> ks[i] in m
  }

  /** The timeline counts after one round, and whether a beam left the grid (`break`). */
  datatype TimeRound = TimeRound(counts: map<Point, nat>, stopped: bool)

  /**
   * One round of `count_quantum_timelines` over the keys `ks` of `m` in
   * iteration order: each beam's count goes, through `insert_or_increment`,
   * to both sides of a splitter or to the cell below; the first beam off
   * the grid ends the round.
   */
  function TimelineRound(g: Grid<char>, ks: seq<Point>, m: map<Point, nat>, mv: Moves): TimeRound
    reads g
    requires g.Valid() && KeysIn(ks, m)
  {
    if ks == [] then TimeRound(map[], false)
    else
      var r := TimelineRound(g, ks[..|ks| - 1], m, mv);
      if r.stopped then r
      else
        var b := ks[|ks| - 1];
        var next := mv.down(b);
        match g.Get(next)
        case None => TimeRound(r.counts, true)
        case Some(v) =>
          if v == '^' then TimeRound(Incremented(Incremented(r.counts, mv.left(next), m[b]), mv.right(next), m[b]), false)
          else TimeRound(Incremented(r.counts, next, m[b]), false)
  }

  /** The timelines sit exactly where `count_beam_splits` puts the beams, and stop in the same round. */
  lemma {:induction false} TimelinesFollowBeams(g: Grid<char>, ks: seq<Point>, m: map<Point, nat>, mv: Moves)
    requires g.Valid() && KeysIn(ks, m)
    ensures TimelineRound(g, ks, m, mv).counts.Keys == SplitRound(g, ks, mv).beams
    ensures TimelineRound(g, ks, m, mv).stopped == SplitRound(g, ks, mv).stopped
  {
    if ks != [] {
      TimelinesFollowBeams(g, ks[..|ks| - 1], m, mv);
    }
  }

  /** The timelines a round carries on: each processed beam's count, twice where it splits. */
  function Carried(g: Grid<char>, ks: seq<Point>, m: map<Point, nat>, mv: Moves): nat
    reads g
    requires g.Valid() && KeysIn(ks, m)
  {
    if ks == [] then 0
    else
      var init := ks[..|ks| - 1];
      if TimelineRound(g, init, m, mv).stopped then Carried(g, init, m, mv)
      else
        var b := ks[|ks| - 1];
        match g.Get(mv.down(b))
        case None => Carried(g, init, m, mv)
        case Some(v) => Carried(g, init, m, mv) + (if v == '^' then 2 * m[b] else m[b])
  }

  /** The total of the new counts is what the round carries on: no timeline is lost or made up. */
  lemma {:induction false} TimelineRoundSum(g: Grid<char>, ks: seq<Point>, m: map<Point, nat>, mv: Moves)
    requires g.Valid() && KeysIn(ks, m)
    ensures MapSum(TimelineRound(g, ks, m, mv).counts) == Carried(g, ks, m, mv)
  {
    if ks != [] {
      var init := ks[..|ks| - 1];
      var r := TimelineRound(g, init, m, mv);
      TimelineRoundSum(g, init, m, mv);
      if !r.stopped {
        var b := ks[|ks| - 1];
        var next := mv.down(b);
        if g.Get(next).Some? {
          if g.Get(next).value == '^' {
            IncrementedSum(r.counts, mv.left(next), m[b]);
            IncrementedSum(Incremented(r.counts, mv.left(next), m[b]), mv.right(next), m[b]);
          } else {
            IncrementedSum(r.counts, next, m[b]);
          }
        }
      }
    }
  }

  /** The counts of the keys `ks`, added up. */
  function SeqSum(ks: seq<Point>, m: map<Point, nat>): nat
    requires KeysIn(ks, m)
  {
    if ks == [] then 0 else SeqSum(ks[..|ks| - 1], m) + m[ks[|ks| - 1]]
  }

  /** Adding up the counts in iteration order gives the sum of the whole map. */
  lemma {:induction false} SeqSumListing(ks: seq<Point>, m: map<Point, nat>)
    requires multiset(ks) == multiset(m.Keys)
    ensures KeysIn(ks, m)
    ensures SeqSum(ks, m) == MapSum(m)
    decreases |ks|
  {
    forall i | 0 <= i < |ks| ensures ks[i] in m {
      assert ks[i] in multiset(ks);
    }
    if ks == [] {
      assert |m.Keys| == |multiset(m.Keys)| == 0;
      assert m == map[];
    } else {
      var n := |ks| - 1;
      var k := ks[n];
      var rest := m - {k};
      assert ks == ks[..n] + [k];
      assert multiset(ks[..n]) == multiset(rest.Keys) by {
        assert rest.Keys == m.Keys - {k};
        assert multiset(ks[..n]) == multiset(ks) - multiset{k};
      }
      SeqSumListing(ks[..n], rest);
      forall i | 0 <= i < n ensures m[ks[i]] == rest[ks[i]] {
        assert ks[i] in multiset(ks[..n]);
      }
      SeqSumSame(ks[..n], m, rest);
      MapSumRemove(m, k);
    }
  }

  lemma {:induction false} SeqSumSame(ks: seq<Point>, m: map<Point, nat>, m': map<Point, nat>)
    requires forall i :: 0 <= i < |ks| ==> ks[i] in m && ks[i] in m' && m[ks[i]] == m'[ks[i]]
    ensures SeqSum(ks, m) == SeqSum(ks, m')
  {
    if ks != [] {
      SeqSumSame(ks[..|ks| - 1], m, m');
    }
  }

  /** In a round where no beam leaves the grid, every processed timeline is carried on at least once. */
  lemma {:induction false} CarriedCovers(g: Grid<char>, ks: seq<Point>, m: map<Point, nat>, mv: Moves)
    requires g.Valid() && KeysIn(ks, m)
    requires forall i :: 0 <= i < |ks| ==> g.Contains(mv.down(ks[i]))
    ensures !TimelineRound(g, ks, m, mv).stopped
    ensures Carried(g, ks, m, mv) >= SeqSum(ks, m)
  {
    if ks != [] {
      CarriedCovers(g, ks[..|ks| - 1], m, mv);
      assert g.Get(mv.down(ks[|ks| - 1])).Some?;
    }
  }

  /** Timelines only multiply while the beams stay inside the grid: a full round never lowers the total. */
  lemma TimelinesNeverShrink(g: Grid<char>, m: map<Point, nat>, mv: Moves, order: set<Point> -> seq<Point>)
    requires g.Valid() && Lists(order)
    requires forall k :: k in m ==> g.Contains(mv.down(k))
    ensures KeysIn(order(m.Keys), m)
    ensures MapSum(TimelineRound(g, order(m.Keys), m, mv).counts) >= MapSum(m)
  {
    var ks := order(m.Keys);
    SeqSumListing(ks, m);
    CarriedCovers(g, ks, m, mv);
    TimelineRoundSum(g, ks, m, mv);
  }

  /**
   * The final counts of `count_quantum_timelines` from the counts `m`, all
   * in row `y`: the rounds go on while a round leaves any timeline.
   */
  function Timelines(g: Grid<char>, m: map<Point, nat>, y: int, mv: Moves, order: set<Point> -> seq<Point>): map<Point, nat>
    reads g
    requires g.Valid() && mv.Valid() && Lists(order)
    requires forall b :: b in m ==> b.y == y
    decreases g.Rows() - y
  {
    var ks := order(m.Keys);
    ListsMembers(order, m.Keys);
    var r := TimelineRound(g, ks, m, mv);
    TimelinesFollowBeams(g, ks, m, mv);
    RoundLevel(g, ks, mv, y);
    if r.counts == map[] then m
    else
      Timelines(g, r.counts, y + 1, mv, order)
  }

  /** A round that leaves timelines: `Timelines` goes on from them, one row down. */
  lemma TimelinesNext(g: Grid<char>, m: map<Point, nat>, y: int, mv: Moves, order: set<Point> -> seq<Point>, r: map<Point, nat>)
    requires g.Valid() && mv.Valid() && Lists(order)
    requires forall b :: b in m ==> b.y == y
    requires KeysIn(order(m.Keys), m)
    requires r == TimelineRound(g, order(m.Keys), m, mv).counts && r != map[]
    ensures forall b :: b in r ==> b.y == y + 1
    ensures y + 1 < g.Rows() && Timelines(g, m, y, mv, order) == Timelines(g, r, y + 1, mv, order)
    ensures MapSum(Timelines(g, m, y, mv, order)) == MapSum(Timelines(g, r, y + 1, mv, order))
  {
    ListsMembers(order, m.Keys);
    TimelinesFollowBeams(g, order(m.Keys), m, mv);
    RoundLevel(g, order(m.Keys), mv, y);
  }

  /** A round that leaves no timeline: `Timelines` ends with the counts before it. */
  lemma TimelinesLast(g: Grid<char>, m: map<Point, nat>, y: int, mv: Moves, order: set<Point> -> seq<Point>)
    requires g.Valid() && mv.Valid() && Lists(order)
    requires forall b :: b in m ==> b.y == y
    requires KeysIn(order(m.Keys), m)
    requires TimelineRound(g, order(m.Keys), m, mv).counts == map[]
    ensures Timelines(g, m, y, mv, order) == m
  {
  }

  /** The number of timelines from `start`: the sum of the final counts. */
  ghost function QuantumTimelines(g: Grid<char>, start: Point, mv: Moves, order: set<Point> -> seq<Point>): nat
    reads g
    requires g.Valid() && mv.Valid() && Lists(order)
  {
    MapSum(Timelines(g, map[start := 1], start.y, mv, order))
  }

  /**
   * `count_quantum_timelines`: one timeline starts at `start`; the result is
   * the sum of the counts once a round leaves no timeline.
   */
  method CountQuantumTimelines(g: Grid<char>, start: Point, mv: Moves, order: set<Point> -> seq<Point>)
    returns (total: nat)
    requires g.Valid() && mv.Valid() && Lists(order) && g.Contains(start)
    ensures total == QuantumTimelines(g, start, mv, order)
  {
    var timelines: map<Point, nat> := map[start := 1];
    ghost var y := start.y;
    ghost var count := QuantumTimelines(g, start, mv, order);
    while true
      invariant forall b :: b in timelines ==> b.y == y
      invariant y < g.Rows()
      invariant MapSum(Timelines(g, timelines, y, mv, order)) == count
      decreases g.Rows() - y
    {
      var newTimelines := TimelineStep(g, timelines, mv, order);
      if newTimelines == map[] {
        TimelinesLast(g, timelines, y, mv, order);
        break;
      }
      TimelinesNext(g, timelines, y, mv, order, newTimelines);
      timelines := newTimelines;
      y := y + 1;
    }
    total := SumCounts(timelines, order);
  }

  /**
   * One pass of the `loop` in `count_quantum_timelines`: the
   * `for (beam, count) in &timelines` loop into an empty map, each update an
   * `insert_or_increment` (`Incremented`), which may `break` at a beam off
   * the grid.
   */
  method TimelineStep(g: Grid<char>, timelines: map<Point, nat>, mv: Moves, order: set<Point> -> seq<Point>)
    returns (newTimelines: map<Point, nat>)
    requires g.Valid() && Lists(order)
    ensures KeysIn(order(timelines.Keys), timelines)
    ensures newTimelines == TimelineRound(g, order(timelines.Keys), timelines, mv).counts
  {
    newTimelines := map[];
    var ks := order(timelines.Keys);
    ListsMembers(order, timelines.Keys);
    for i := 0 to |ks|
      invariant TimelineRound(g, ks[..i], timelines, mv) == TimeRound(newTimelines, false)
    {
      assert ks[..i + 1][..i] == ks[..i];
      var b := ks[i];
      var next := mv.down(b);
      var v := g.Get(next);
      if v.None? {
        RoundStopsTimelines(g, ks, timelines, mv, i + 1);
        return;
      }
      if v.value == '^' {
        newTimelines := Incremented(newTimelines, mv.left(next), timelines[b]);
        newTimelines := Incremented(newTimelines, mv.right(next), timelines[b]);
      } else {
        newTimelines := Incremented(newTimelines, next, timelines[b]);
      }
    }
    assert ks[..|ks|] == ks;
  }

  /** `timelines.iter().map(|(_, v)| *v).sum()`, in iteration order. */
  method SumCounts(m: map<Point, nat>, order: set<Point> -> seq<Point>) returns (total: nat)
    requires Lists(order)
    ensures total == MapSum(m)
  {
    var ks := order(m.Keys);
    assert multiset(ks) == multiset(m.Keys);
    SeqSumListing(ks, m);
    total := 0;
    for i := 0 to |ks|
      invariant total == SeqSum(ks[..i], m)
    {
      assert ks[..i + 1][..i] == ks[..i];
      total := total + m[ks[i]];
    }
    assert ks[..|ks|] == ks;
  }

  /** Once a timeline has left the grid, the rest of the round changes nothing. */
  lemma {:induction false} RoundStopsTimelines(g: Grid<char>, ks: seq<Point>, m: map<Point, nat>, mv: Moves, i: nat)
    requires g.Valid() && i <= |ks| && forall j :: 0 <= j < |ks| ==> ks[j] in m
    requires TimelineRound(g, ks[..i], m, mv).stopped
    ensures TimelineRound(g, ks, m, mv) == TimelineRound(g, ks[..i], m, mv)
    decreases |ks| - i
  {
    if i < |ks| {
      assert ks[..i + 1][..i] == ks[..i];
      RoundStopsTimelines(g, ks, m, mv, i + 1);
    } else {
      assert ks[..i] == ks;
    }
  }
}
