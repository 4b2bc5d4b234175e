/**
 * `y2025/day4.rs`: rolls of paper (`'@'`) on a character grid. A roll is
 * accessible when fewer than four of its eight neighbours are rolls;
 * accessible rolls are counted, and then removed round after round until
 * none is left accessible.
 */
module Y2025Day4 {
  import opened Wrappers
  import opened Grids

  const ROLL: char := '@'
  const EMPTY: char := '.'

  /** `is_roll`: `p` lies in the grid and holds a roll. */
  predicate IsRoll(g: Grid<char>, p: Point)
    reads g
    requires g.Valid()
  {
    g.Get(p) == Some(ROLL)
  }

  /** `IsRoll` reads the cell at `p` and is false outside the grid. */
  lemma IsRollCell(g: Grid<char>, p: Point)
    requires g.Valid()
    ensures IsRoll(g, p) <==> g.Contains(p) && g.cells[p.y][p.x] == ROLL
  {
  }

  /** The number of offsets in `ds` that lead from `p` to a roll. */
  function RollsAlong(g: Grid<char>, p: Point, ds: seq<Point>): (n: nat)
    reads g
    requires g.Valid()
    ensures n <= |ds|
  {
    if ds == [] then 0
    else (if IsRoll(g, p.Add(ds[0])) then 1 else 0) + RollsAlong(g, p, ds[1..])
  }

  /** `is_accessible`: fewer than four of the eight directions from `p` lead to a roll. */
  predicate IsAccessible(g: Grid<char>, p: Point)
    reads g
    requires g.Valid()
  {
    RollsAlong(g, p, Offsets()) < 4
  }

  /** The rolls among the eight cells around `p`. */
  ghost function RollsAround(g: Grid<char>, p: Point): set<Point>
    reads g
    requires g.Valid()
  {
    set x: int, y: int | p.x - 1 <= x <= p.x + 1 && p.y - 1 <= y <= p.y + 1
                         && Point(x, y) != p && IsRoll(g, Point(x, y)) :: Point(x, y)
  }

  /** The rolls reached from `p` along the offsets in `ds`. */
  ghost function RollSteps(g: Grid<char>, p: Point, ds: seq<Point>): set<Point>
    reads g
    requires g.Valid()
  {
    set d | d in ds && IsRoll(g, p.Add(d)) :: p.Add(d)
  }

  /** Along offsets without repeats, `RollsAlong` counts the distinct rolls reached. */
  lemma {:induction false} RollsAlongCounts(g: Grid<char>, p: Point, ds: seq<Point>)
    requires g.Valid() && forall i, j :: 0 <= i < j < |ds| ==> ds[i] != ds[j]
    ensures RollsAlong(g, p, ds) == |RollSteps(g, p, ds)|
  {
    if ds != [] {
      var rest := ds[1..];
      RollsAlongCounts(g, p, rest);
      var q := p.Add(ds[0]);
      forall d | d in rest ensures p.Add(d) != q {
        var k :| 0 <= k < |rest| && rest[k] == d;
        assert ds[k + 1] == d;
      }
      if IsRoll(g, q) {
        assert RollSteps(g, p, ds) == {q} + RollSteps(g, p, rest);
      } else {
        assert RollSteps(g, p, ds) == RollSteps(g, p, rest);
      }
    }
  }

  /** The offsets lead from `p` exactly to the eight cells around it. */
  lemma RollStepsAround(g: Grid<char>, p: Point)
    requires g.Valid()
    ensures RollSteps(g, p, Offsets()) == RollsAround(g, p)
  {
    OffsetsAreNeighbours();
    forall q | q in RollsAround(g, p) ensures q in RollSteps(g, p, Offsets()) {
      var d := Point(q.x - p.x, q.y - p.y);
      assert d in Offsets() && p.Add(d) == q;
    }
  }

  /** `is_accessible` holds exactly when fewer than four of the cells around `p` are rolls. */
  lemma AccessibleAround(g: Grid<char>, p: Point)
    requires g.Valid()
    ensures IsAccessible(g, p) <==> |RollsAround(g, p)| < 4
  {
    OffsetsAreNeighbours();
    RollsAlongCounts(g, p, Offsets());
    RollStepsAround(g, p);
  }

  /** The accessible rolls among the walked cells `w`, in the order of `w`. */
  function AccessibleAlong(g: Grid<char>, w: seq<(Point, char)>): (r: seq<Point>)
    reads g
    requires g.Valid()
    ensures |r| <= |w|
    ensures forall q :: q in r ==> IsRoll(g, q) && IsAccessible(g, q)
  {
    if w == [] then []
    else
      var p := w[0].0;
      (if IsRoll(g, p) && IsAccessible(g, p) then [p] else []) + AccessibleAlong(g, w[1..])
  }

  /** `iter_accessible_rolls`: the cells of `walk` that are accessible rolls, in row-major order. */
  function AccessibleRolls(g: Grid<char>): seq<Point>
    reads g
    requires g.Valid()
  {
    AccessibleAlong(g, g.Walk())
  }

  /** `count_accessible_rolls`. */
  function CountAccessibleRolls(g: Grid<char>): nat
    reads g
    requires g.Valid()
  {
    |AccessibleRolls(g)|
  }

  /** The accessible rolls of the grid, as a set of cells. */
  ghost function AccessibleSet(g: Grid<char>): set<Point>
    reads g
    requires g.Valid()
  {
    set x: int, y: int | 0 <= x < g.Cols() && 0 <= y < g.Rows()
                         && IsRoll(g, Point(x, y)) && IsAccessible(g, Point(x, y)) :: Point(x, y)
  }

  /** A sequence in strictly increasing row-major order lists each point once. */
  predicate Ascending(s: seq<Point>) {
    forall i, j :: 0 <= i < j < |s| ==> RowMajorBefore(s[i], s[j])
  }

  /** Filtering an ascending walk keeps it ascending, and keeps every accessible roll it lists. */
  lemma {:induction false} AccessibleAlongFilter(g: Grid<char>, w: seq<(Point, char)>)
    requires g.Valid()
    requires forall i, j :: 0 <= i < j < |w| ==> RowMajorBefore(w[i].0, w[j].0)
    ensures Ascending(AccessibleAlong(g, w))
    ensures forall q :: q in AccessibleAlong(g, w) ==> exists e :: e in w && e.0 == q
    ensures forall e :: e in w && IsRoll(g, e.0) && IsAccessible(g, e.0) ==> e.0 in AccessibleAlong(g, w)
  {
    if w != [] {
      var rest := w[1..];
      AccessibleAlongFilter(g, rest);
      var r := AccessibleAlong(g, rest);
      forall q | q in r ensures RowMajorBefore(w[0].0, q) {
        var e :| e in rest && e.0 == q;
        var k :| 0 <= k < |rest| && rest[k] == e;
        assert w[k + 1] == e;
      }
      forall e | e in w && IsRoll(g, e.0) && IsAccessible(g, e.0) ensures e.0 in AccessibleAlong(g, w) {
        if e != w[0] {
          assert e in rest;
        }
      }
      forall q | q in AccessibleAlong(g, w) ensures exists e :: e in w && e.0 == q {
        if q != w[0].0 {
          var e :| e in rest && e.0 == q;
          assert e in w;
        } else {
          assert w[0] in w;
        }
      }
    }
  }

  /** A strictly ascending sequence has as many elements as its set. */
  lemma {:induction false} AscendingCard(s: seq<Point>)
    requires Ascending(s)
    ensures |set q | q in s| == |s|
  {
    if s != [] {
      AscendingCard(s[1..]);
      assert (set q | q in s) == {s[0]} + (set q | q in s[1..]);
      forall k | 0 <= k < |s[1..]| ensures s[1..][k] != s[0] {
        assert RowMajorBefore(s[0], s[k + 1]);
      }
    }
  }

  /**
   * `iter_accessible_rolls` lists every accessible roll of the grid exactly
   * once, in row-major order, so `count_accessible_rolls` is their number.
   */
  lemma AccessibleRollsExact(g: Grid<char>)
    requires g.Valid()
    ensures Ascending(AccessibleRolls(g))
    ensures forall q :: q in AccessibleRolls(g) <==> IsRoll(g, q) && IsAccessible(g, q)
    ensures CountAccessibleRolls(g) == |AccessibleSet(g)|
  {
    AccessibleRollsMembers(g);
    var s := AccessibleRolls(g);
    assert (set q | q in s) == AccessibleSet(g);
    AscendingCard(s);
  }

  lemma AccessibleRollsMembers(g: Grid<char>)
    requires g.Valid()
    ensures Ascending(AccessibleRolls(g))
    ensures forall q :: q in AccessibleRolls(g) <==> IsRoll(g, q) && IsAccessible(g, q)
  {
    g.WalkRowMajor();
    var w := g.Walk();
    AccessibleAlongFilter(g, w);
    forall q | IsRoll(g, q) && IsAccessible(g, q) ensures q in AccessibleAlong(g, w) {
      var e := (q, g.Get(q).value);
      assert e in w;
    }
  }

  // ---------------------------------------------------------------------
  // Counting the rolls of the cells

  /** The rolls in one row. */
  function RowRolls(row: seq<char>): nat {
    multiset(row)[ROLL]
  }

  /** The rolls in all the rows. */
  function CountRolls(cells: seq<seq<char>>): nat {
    if cells == [] then 0 else CountRolls(cells[..|cells| - 1]) + RowRolls(cells[|cells| - 1])
  }

  /** `cells` with the roll at `p` cleared. */
  function Clear(cells: seq<seq<char>>, p: Point): seq<seq<char>>
    requires 0 <= p.y < |cells| && 0 <= p.x < |cells[p.y]|
  {
    cells[p.y := cells[p.y][p.x := EMPTY]]
  }

  /** Replacing one row changes the count by the rolls of the two rows. */
  lemma {:induction false} CountRollsUpdate(cells: seq<seq<char>>, y: nat, row: seq<char>)
    requires y < |cells|
    ensures CountRolls(cells[y := row]) + RowRolls(cells[y]) == CountRolls(cells) + RowRolls(row)
  {
    var n := |cells| - 1;
    var c := cells[y := row];
    assert c[..n] == if y == n then cells[..n] else cells[..n][y := row];
    if y < n {
      CountRollsUpdate(cells[..n], y, row);
    }
  }

  /** Clearing a roll leaves one roll fewer. */
  lemma ClearRoll(cells: seq<seq<char>>, p: Point)
    requires 0 <= p.y < |cells| && 0 <= p.x < |cells[p.y]| && cells[p.y][p.x] == ROLL
    ensures CountRolls(Clear(cells, p)) + 1 == CountRolls(cells)
  {
    var row := cells[p.y];
    assert multiset(row[p.x := EMPTY]) == multiset(row) - multiset{ROLL} + multiset{EMPTY};
    CountRollsUpdate(cells, p.y, row[p.x := EMPTY]);
  }

  // ---------------------------------------------------------------------
  // Removing rolls

  /** `remove_roll`: writes `'.'` at `p`, which must lie in the grid (the source unwraps). */
  method RemoveRoll(g: Grid<char>, p: Point)
    requires g.Valid() && g.Contains(p)
    modifies g
    ensures g.Valid() && g.Rows() == old(g.Rows()) && g.Cols() == old(g.Cols())
    ensures g.cells == Clear(old(g.cells), p)
    ensures forall q :: g.Get(q) == if q == p then Some(EMPTY) else old(g.Get(q))
  {
    var r := g.Update(p, EMPTY);
  }

  /** No two entries of `ps` are the same point. */
  predicate Distinct(ps: seq<Point>) {
    forall i, j :: 0 <= i < j < |ps| ==> ps[i] != ps[j]
  }

  lemma AscendingDistinct(ps: seq<Point>)
    requires Ascending(ps)
    ensures Distinct(ps)
  {
  }

  // ---------------------------------------------------------------------
  // The rounds of `remove_accessible_rolls`, stated on the cells

  /** `cells` holds a roll at `p`. */
  predicate RollAt(cells: seq<seq<char>>, p: Point) {
    0 <= p.y < |cells| && 0 <= p.x < |cells[p.y]| && cells[p.y][p.x] == ROLL
  }

  /** The eight cells around `p`. */
  ghost function Around(p: Point): set<Point> {
    set x: int, y: int | p.x - 1 <= x <= p.x + 1 && p.y - 1 <= y <= p.y + 1 && Point(x, y) != p :: Point(x, y)
  }

  /** The rolls of `cells`. */
  ghost function Rolls(cells: seq<seq<char>>): set<Point> {
    set y: int, x: int | 0 <= y < |cells| && 0 <= x < |cells[y]| && cells[y][x] == ROLL :: Point(x, y)
  }

  lemma RollsMembers(cells: seq<seq<char>>)
    ensures forall p :: p in Rolls(cells) <==> RollAt(cells, p)
  {
    forall p | RollAt(cells, p) ensures p in Rolls(cells) {
      assert cells[p.y][p.x] == ROLL && Point(p.x, p.y) == p;
    }
  }

  /** The rolls among the eight cells around `p`. */
  ghost function RollsNear(cells: seq<seq<char>>, p: Point): set<Point> {
    set q | q in Around(p) && RollAt(cells, q)
  }

  /** The accessible rolls of `cells`: rolls with fewer than four rolls around them. */
  ghost function Accessible(cells: seq<seq<char>>): set<Point> {
    set p | p in Rolls(cells) && |RollsNear(cells, p)| < 4
  }

  /** A grid's accessible rolls are the accessible rolls of its cells. */
  lemma AccessibleSetCells(g: Grid<char>)
    requires g.Valid()
    ensures AccessibleSet(g) == Accessible(g.cells)
  {
    RollsMembers(g.cells);
    forall q ensures IsRoll(g, q) <==> RollAt(g.cells, q) {
      IsRollCell(g, q);
    }
    forall p ensures p in AccessibleSet(g) <==> p in Accessible(g.cells) {
      AccessibleAround(g, p);
      assert RollsAround(g, p) == RollsNear(g.cells, p);
      if p in Accessible(g.cells) {
        assert IsRoll(g, Point(p.x, p.y));
      }
    }
  }

  /** `cells` with every point of `s` made empty. */
  function ClearAll(cells: seq<seq<char>>, s: set<Point>): (r: seq<seq<char>>)
    ensures |r| == |cells| && forall y :: 0 <= y < |cells| ==> |r[y]| == |cells[y]|
  {
    seq(|cells|, y requires 0 <= y < |cells| =>
      seq(|cells[y]|, x requires 0 <= x < |cells[y]| => if Point(x, y) in s then EMPTY else cells[y][x]))
  }

  /** Clearing the points of `s` removes exactly the rolls in `s`. */
  lemma ClearAllRolls(cells: seq<seq<char>>, s: set<Point>)
    ensures Rolls(ClearAll(cells, s)) == Rolls(cells) - s
  {
    RollsMembers(cells);
    RollsMembers(ClearAll(cells, s));
  }

  /** Clearing twice is clearing the union. */
  lemma ClearAllTwice(cells: seq<seq<char>>, a: set<Point>, b: set<Point>)
    ensures ClearAll(ClearAll(cells, a), b) == ClearAll(cells, a + b)
  {
    var l := ClearAll(ClearAll(cells, a), b);
    var r := ClearAll(cells, a + b);
    forall y | 0 <= y < |cells| ensures l[y] == r[y] {
    }
  }

  /** Clearing one more point of the cells. */
  lemma ClearAllSnoc(cells: seq<seq<char>>, s: set<Point>, p: Point)
    requires 0 <= p.y < |cells| && 0 <= p.x < |cells[p.y]|
    ensures Clear(ClearAll(cells, s), p) == ClearAll(cells, s + {p})
  {
    var l := Clear(ClearAll(cells, s), p);
    var r := ClearAll(cells, s + {p});
    forall y | 0 <= y < |cells| ensures l[y] == r[y] {
    }
  }

  /** Cells that read empty on `s` and as `before` elsewhere are `before` with `s` cleared. */
  lemma ClearAllByCells(cells: seq<seq<char>>, before: seq<seq<char>>, s: set<Point>)
    requires |cells| == |before| && forall y :: 0 <= y < |cells| ==> |cells[y]| == |before[y]|
    requires forall y, x :: 0 <= y < |cells| && 0 <= x < |cells[y]| ==>
               cells[y][x] == if Point(x, y) in s then EMPTY else before[y][x]
    ensures cells == ClearAll(before, s)
  {
    var r := ClearAll(before, s);
    forall y | 0 <= y < |cells| ensures cells[y] == r[y] {
    }
  }

  /** One round: every roll accessible at its start cleared. */
  ghost function Round(cells: seq<seq<char>>): seq<seq<char>> {
    ClearAll(cells, Accessible(cells))
  }

  /** The cells left after the rounds, and the number of rolls the rounds cleared. */
  datatype Swept = Swept(cells: seq<seq<char>>, count: nat)

  /**
   * What `remove_accessible_rolls` computes: round after round, every roll
   * accessible at the start of the round is cleared, until a round finds
   * none. The cells at the end, and the number of rolls cleared.
   */
  ghost function Rounds(cells: seq<seq<char>>): Swept
    decreases Rolls(cells)
  {
    if Accessible(cells) == {} then Swept(cells, 0)
    else
      ClearAllRolls(cells, Accessible(cells));
      var next := Rounds(Round(cells));
      Swept(next.cells, |Accessible(cells)| + next.count)
  }

  /** A round that finds no accessible roll ends the rounds. */
  lemma RoundsDone(cells: seq<seq<char>>)
    requires Accessible(cells) == {}
    ensures Rounds(cells) == Swept(cells, 0)
  {
  }

  /** A round that finds accessible rolls clears them, counts them and goes on. */
  lemma RoundsStep(cells: seq<seq<char>>)
    requires Accessible(cells) != {}
    ensures Accessible(cells) <= Rolls(cells)
    ensures Rolls(Round(cells)) == Rolls(cells) - Accessible(cells)
    ensures Rounds(cells) == Swept(Rounds(Round(cells)).cells, |Accessible(cells)| + Rounds(Round(cells)).count)
  {
    ClearAllRolls(cells, Accessible(cells));
  }

  /** The rounds end with no roll accessible, and they only clear rolls. */
  lemma {:induction false} RoundsSettle(cells: seq<seq<char>>)
    ensures Accessible(Rounds(cells).cells) == {}
    ensures Rolls(Rounds(cells).cells) <= Rolls(cells)
    decreases Rolls(cells)
  {
    if Accessible(cells) == {} {
      RoundsDone(cells);
    } else {
      RoundsStep(cells);
      RoundsSettle(Round(cells));
    }
  }

  /** The cells the rounds leave are the starting cells with the rolls they removed cleared. */
  lemma {:induction false} RoundsClear(cells: seq<seq<char>>)
    ensures Rounds(cells).cells == ClearAll(cells, Rolls(cells) - Rolls(Rounds(cells).cells))
    decreases Rolls(cells)
  {
    if Accessible(cells) == {} {
      RoundsDone(cells);
      ClearNothing(cells);
    } else {
      RoundsStep(cells);
      RoundsClear(Round(cells));
      RoundClearStep(cells);
    }
  }

  /** Clearing no roll leaves the cells as they are. */
  lemma ClearNothing(cells: seq<seq<char>>)
    ensures ClearAll(cells, Rolls(cells) - Rolls(cells)) == cells
  {
    assert Rolls(cells) - Rolls(cells) == {};
    ClearAllByCells(cells, cells, {});
  }

  /** The clearing of one round followed by that of the later rounds. */
  lemma RoundClearStep(cells: seq<seq<char>>)
    requires Accessible(cells) != {}
    requires Rounds(Round(cells)).cells ==
               ClearAll(Round(cells), Rolls(Round(cells)) - Rolls(Rounds(Round(cells)).cells))
    ensures Rounds(cells).cells == ClearAll(cells, Rolls(cells) - Rolls(Rounds(cells).cells))
  {
    var acc := Accessible(cells);
    RoundsStep(cells);
    var next := Round(cells);
    RoundsSettle(next);
    var left := Rolls(Rounds(next).cells);
    ClearAllTwice(cells, acc, Rolls(next) - left);
    ClearedSets(Rolls(cells), acc, Rolls(next), left);
  }

  /** The rolls cleared by one round and by the later rounds are the rolls not left. */
  lemma ClearedSets(all: set<Point>, acc: set<Point>, next: set<Point>, left: set<Point>)
    requires acc <= all && next == all - acc && left <= next
    ensures acc + (next - left) == all - left
  {
  }

  /** The rounds count exactly the rolls they remove. */
  lemma {:induction false} RoundsCount(cells: seq<seq<char>>)
    ensures Rounds(cells).count == |Rolls(cells)| - |Rolls(Rounds(cells).cells)|
    decreases Rolls(cells)
  {
    var acc := Accessible(cells);
    if acc == {} {
      RoundsDone(cells);
    } else {
      RoundsStep(cells);
      var next := Round(cells);
      RoundsCount(next);
      RoundsSettle(next);
      ClearedCount(Rolls(cells), acc, Rolls(next), Rolls(Rounds(next).cells));
    }
  }

  /** The rolls counted by one round and by the later rounds are the rolls not left. */
  lemma ClearedCount(all: set<Point>, acc: set<Point>, next: set<Point>, left: set<Point>)
    requires acc <= all && next == all - acc && left <= next
    ensures |left| <= |next| && |left| <= |all| && |acc| + (|next| - |left|) == |all| - |left|
  {
    assert all == next + acc && next * acc == {};
    assert next == left + (next - left);
  }

  /** Every roll of `k` has at least four rolls of `k` around it. */
  ghost predicate Braced(k: set<Point>) {
    forall p :: p in k ==> |set q | q in Around(p) && q in k| >= 4
  }

  /** No roll of a braced set of rolls is accessible. */
  lemma BracedInaccessible(cells: seq<seq<char>>, k: set<Point>, p: Point)
    requires k <= Rolls(cells) && Braced(k) && p in k
    ensures p !in Accessible(cells)
  {
    RollsMembers(cells);
    var near := set q | q in Around(p) && q in k;
    var rolls := RollsNear(cells, p);
    assert rolls == near + (rolls - near);
  }

  /** A braced set of rolls survives every round. */
  lemma {:induction false} RoundsKeepBraced(cells: seq<seq<char>>, k: set<Point>)
    requires k <= Rolls(cells) && Braced(k)
    ensures k <= Rolls(Rounds(cells).cells)
    decreases Rolls(cells)
  {
    var acc := Accessible(cells);
    if acc == {} {
      RoundsDone(cells);
    } else {
      forall p | p in k ensures p !in acc {
        BracedInaccessible(cells, k, p);
      }
      RoundsStep(cells);
      RoundsKeepBraced(Round(cells), k);
    }
  }

  /**
   * The rolls the rounds leave are braced, so by `RoundsKeepBraced` they are
   * the largest braced set of rolls of the starting cells.
   */
  lemma RoundsLeaveBraced(cells: seq<seq<char>>)
    ensures Braced(Rolls(Rounds(cells).cells))
  {
    var f := Rounds(cells).cells;
    RoundsSettle(cells);
    RollsMembers(f);
    forall p | p in Rolls(f) ensures |set q | q in Around(p) && q in Rolls(f)| >= 4 {
      assert p !in Accessible(f);
      assert (set q | q in Around(p) && q in Rolls(f)) == RollsNear(f, p);
    }
  }

  /**
   * The `for roll in rolls` loop of one round: clears every listed roll and
   * nothing else, removing `|rolls|` rolls.
   */
  method RemoveRolls(g: Grid<char>, rolls: seq<Point>)
    requires g.Valid() && Distinct(rolls) && forall q :: q in rolls ==> IsRoll(g, q)
    modifies g
    ensures g.Valid() && g.Rows() == old(g.Rows()) && g.Cols() == old(g.Cols())
    ensures CountRolls(g.cells) + |rolls| == CountRolls(old(g.cells))
    ensures g.cells == ClearAll(old(g.cells), set q | q in rolls)
  {
    ghost var done: set<Point> := {};
    ClearAllByCells(g.cells, g.cells, {});
    forall q | q in rolls ensures RollAt(g.cells, q) {
      IsRollCell(g, q);
    }
    for i := 0 to |rolls|
      invariant g.Valid() && g.Rows() == old(g.Rows()) && g.Cols() == old(g.Cols())
      invariant CountRolls(g.cells) + i == CountRolls(old(g.cells))
      invariant done == set q | q in rolls[..i]
      invariant g.cells == ClearAll(old(g.cells), done)
    {
      var p := rolls[i];
      assert rolls[..i + 1] == rolls[..i] + [p];
      RemoveNextRoll(g, p, old(g.cells), done);
      done := done + {p};
    }
    assert rolls[..|rolls|] == rolls;
  }

  /** `remove_roll` on cells that are `before` with `done` cleared, for a roll of `before` not yet cleared. */
  method RemoveNextRoll(g: Grid<char>, p: Point, ghost before: seq<seq<char>>, ghost done: set<Point>)
    requires g.Valid() && g.cells == ClearAll(before, done) && RollAt(before, p) && p !in done
    modifies g
    ensures g.Valid() && g.Rows() == old(g.Rows()) && g.Cols() == old(g.Cols())
    ensures g.cells == ClearAll(before, done + {p})
    ensures CountRolls(g.cells) + 1 == CountRolls(old(g.cells))
  {
    ClearRoll(g.cells, p);
    ClearAllSnoc(before, done, p);
    RemoveRoll(g, p);
  }

  /** Reading cleared cells gives empty on the cleared points and the old value elsewhere. */
  lemma GetClearAll(g: Grid<char>, before: seq<seq<char>>, s: set<Point>, q: Point)
    requires g.Valid() && g.cells == ClearAll(before, s)
    ensures g.Get(q) == if !g.Contains(q) then None
                        else if q in s then Some(EMPTY) else Some(before[q.y][q.x])
  {
  }

  /**
   * `remove_accessible_rolls`: removes the accessible rolls of the grid,
   * all of one round at once, until none is accessible. Returns how many
   * were removed, which is how many rolls the grid lost; only rolls change,
   * each into an empty cell.
   */
  method RemoveAccessibleRolls(g: Grid<char>) returns (count: nat)
    requires g.Valid()
    modifies g
    ensures g.Valid() && g.Rows() == old(g.Rows()) && g.Cols() == old(g.Cols())
    ensures Swept(g.cells, count) == Rounds(old(g.cells))
    ensures count + CountRolls(g.cells) == CountRolls(old(g.cells))
    ensures AccessibleSet(g) == {}
    ensures forall q :: g.Get(q) == old(g.Get(q)) || (old(IsRoll(g, q)) && g.Get(q) == Some(EMPTY))
  {
    count := 0;
    var rolls := AccessibleRolls(g);
    AccessibleRollsExact(g);
    while |rolls| > 0
      invariant g.Valid() && g.Rows() == old(g.Rows()) && g.Cols() == old(g.Cols())
      invariant rolls == AccessibleRolls(g)
      invariant Rounds(g.cells).cells == Rounds(old(g.cells)).cells
      invariant count + Rounds(g.cells).count == Rounds(old(g.cells)).count
      invariant count + CountRolls(g.cells) == CountRolls(old(g.cells))
      decreases CountRolls(g.cells)
    {
      AccessibleRollsExact(g);
      AscendingDistinct(rolls);
      ghost var before := g.cells;
      AccessibleListed(g);
      RoundsStep(before);
      RemoveRolls(g, rolls);
      count := count + |rolls|;
      rolls := AccessibleRolls(g);
    }
    AccessibleRollsExact(g);
    AccessibleSetCells(g);
    RoundsDone(g.cells);
    ghost var removed := Rolls(old(g.cells)) - Rolls(g.cells);
    RoundsClear(old(g.cells));
    RollsMembers(old(g.cells));
    forall q ensures g.Get(q) == old(g.Get(q)) || (old(IsRoll(g, q)) && g.Get(q) == Some(EMPTY)) {
      GetClearAll(g, old(g.cells), removed, q);
      if g.Contains(q) && q in removed {
        assert old(IsRoll(g, q));
      }
    }
  }

  /** `iter_accessible_rolls` lists the accessible rolls of the cells, each once. */
  lemma AccessibleListed(g: Grid<char>)
    requires g.Valid()
    ensures (set q | q in AccessibleRolls(g)) == Accessible(g.cells)
    ensures |AccessibleRolls(g)| == |Accessible(g.cells)|
  {
    AccessibleRollsExact(g);
    AccessibleSetCells(g);
  }
}
