/**
 * `helpers/grid.rs`: integer points, the eight compass directions and a
 * bounds-checked rectangular grid that is read through `get`/`walk`/
 * `iter_adjacent` and written in place through `update`/`swap`.
 */
module Grids {
  import opened Wrappers
  import opened Strings

  /** A point; `x` grows to the east and `y` to the south. */
  datatype Point = Point(x: int, y: int) {
    /** `impl Add for Point` (and `AddAssign`, which stores the same sum). */
    function Add(q: Point): Point {
      Point(x + q.x, y + q.y)
    }
  }

  datatype Direction = North | NorthEast | East | SouthEast | South | SouthWest | West | NorthWest {
    /** `Direction::point`: the unit step in this direction. */
    function Offset(): (d: Point)
      ensures -1 <= d.x <= 1 && -1 <= d.y <= 1 && d != Point(0, 0)
    {
      match this
      case North => Point(0, -1)
      case NorthEast => Point(1, -1)
      case East => Point(1, 0)
      case SouthEast => Point(1, 1)
      case South => Point(0, 1)
      case SouthWest => Point(-1, 1)
      case West => Point(-1, 0)
      case NorthWest => Point(-1, -1)
    }
  }

  /** `Direction::iter`: the offsets clockwise from north. */
  function Offsets(): (ds: seq<Point>)
    ensures |ds| == 8
  {
    [North.Offset(), NorthEast.Offset(), East.Offset(), SouthEast.Offset(),
     South.Offset(), SouthWest.Offset(), West.Offset(), NorthWest.Offset()]
  }

  /** The offsets are the eight distinct unit steps to the neighbouring cells. */
  lemma OffsetsAreNeighbours()
    ensures forall i, j :: 0 <= i < j < 8 ==> Offsets()[i] != Offsets()[j]
    ensures forall i :: 0 <= i < 8 ==>
              -1 <= Offsets()[i].x <= 1 && -1 <= Offsets()[i].y <= 1 && Offsets()[i] != Point(0, 0)
    ensures forall d: Point :: -1 <= d.x <= 1 && -1 <= d.y <= 1 && d != Point(0, 0) ==> d in Offsets()
  {
    forall d: Point | -1 <= d.x <= 1 && -1 <= d.y <= 1 && d != Point(0, 0)
      ensures d in Offsets()
    {
      if d.y == -1 {
        assert d == Offsets()[0] || d == Offsets()[1] || d == Offsets()[7];
      } else if d.y == 0 {
        assert d == Offsets()[2] || d == Offsets()[6];
      } else {
        assert d == Offsets()[3] || d == Offsets()[4] || d == Offsets()[5];
      }
    }
  }

  datatype GridError = MismatchedColumns | PointNotInGrid

  /** Every row as long as the first one. */
  predicate Rectangular<T>(rows: seq<seq<T>>) {
    forall i :: 0 <= i < |rows| ==> |rows[i]| == |rows[0]|
  }

  /** `a` comes before `b` in row-major order. */
  predicate RowMajorBefore(a: Point, b: Point) {
    a.y < b.y || (a.y == b.y && a.x < b.x)
  }

  class Grid<T> {
    var cells: seq<seq<T>>

    ghost predicate Valid()
      reads this
    {
      Rectangular(cells)
    }

    constructor (rows: seq<seq<T>>)
      requires Rectangular(rows)
      ensures Valid() && cells == rows
    {
      cells := rows;
    }

    /** `Grid::new`: rejects rows whose length differs from the first row's. */
    static method New(rows: seq<seq<T>>) returns (r: Result<Grid<T>, GridError>)
      ensures r.Ok? <==> Rectangular(rows)
      ensures r.Err? ==> r.error == MismatchedColumns
      ensures r.Ok? ==> fresh(r.value) && r.value.Valid() && r.value.cells == rows
    {
      var colNum := if |rows| > 0 then |rows[0]| else 0;
      var i := 0;
      while i < |rows|
        invariant 0 <= i <= |rows|
        invariant forall k :: 0 <= k < i ==> |rows[k]| == colNum
      {
        if |rows[i]| != colNum {
          return Err(MismatchedColumns);
        }
        i := i + 1;
      }
      var g := new Grid(rows);
      return Ok(g);
    }

    function Rows(): nat
      reads this
    {
      |cells|
    }

    /** The length of the first row, or 0 for a grid without rows. */
    function Cols(): nat
      reads this
    {
      if |cells| > 0 then |cells[0]| else 0
    }

    predicate Contains(p: Point)
      reads this
    {
      0 <= p.x < Cols() && 0 <= p.y < Rows()
    }

    /** The value at `p`, or nothing when `p` lies outside the grid. */
    function Get(p: Point): (r: Option<T>)
      reads this
      requires Valid()
      ensures r.None? <==> !Contains(p)
      ensures r.Some? ==> p.y < |cells| && p.x < |cells[p.y]| && r.value == cells[p.y][p.x]
    {
      if !Contains(p) then None else Some(cells[p.y][p.x])
    }

    /** The cells of row `r`, west to east, each with its value. */
    function RowWalk(r: nat): (w: seq<(Point, T)>)
      reads this
      requires Valid() && r < Rows()
      ensures |w| == Cols()
      ensures forall i :: 0 <= i < |w| ==> w[i].0 == Point(i, r) && Get(w[i].0) == Some(w[i].1)
    {
      var row := cells[r];
      seq(|row|, c requires 0 <= c < |row| => (Point(c, r), row[c]))
    }

    /** The cells of rows `r` onwards in row-major order: `walk` is `WalkFrom(0)`. */
    function WalkFrom(r: nat): (w: seq<(Point, T)>)
      reads this
      requires Valid() && r <= Rows()
      ensures |w| == (Rows() - r) * Cols()
      ensures forall e :: e in w ==> Contains(e.0) && e.0.y >= r && Get(e.0) == Some(e.1)
      decreases Rows() - r
    {
      if r == Rows() then []
      else
        assert (Rows() - r) * Cols() == Cols() + (Rows() - (r + 1)) * Cols();
        RowWalk(r) + WalkFrom(r + 1)
    }

    /** `WalkFrom(r)` lists the cells in strictly increasing row-major order. */
    lemma {:induction false} WalkFromOrdered(r: nat)
      requires Valid() && r <= Rows()
      ensures forall i, j :: 0 <= i < j < |WalkFrom(r)| ==> RowMajorBefore(WalkFrom(r)[i].0, WalkFrom(r)[j].0)
      decreases Rows() - r
    {
      if r < Rows() {
        WalkFromOrdered(r + 1);
        var a, b := RowWalk(r), WalkFrom(r + 1);
        var w: seq<(Point, T)> := a + b;
        forall i, j | 0 <= i < j < |w| ensures RowMajorBefore(w[i].0, w[j].0) {
          if j < |a| {
          } else if i < |a| {
            assert w[j] in b;
          } else {
            assert w[i] == b[i - |a|] && w[j] == b[j - |a|];
          }
        }
      }
    }

    /** Every cell of rows `r` onwards is listed by `WalkFrom(r)`. */
    lemma {:induction false} WalkFromComplete(r: nat, q: Point)
      requires Valid() && r <= Rows() && Contains(q) && q.y >= r
      ensures (q, Get(q).value) in WalkFrom(r)
      decreases Rows() - r
    {
      if q.y == r {
        assert RowWalk(r)[q.x].0 == q;
      } else {
        WalkFromComplete(r + 1, q);
      }
    }

    /** `Grid::walk`: every cell once, rows outer and columns inner, with its value. */
    function Walk(): (w: seq<(Point, T)>)
      reads this
      requires Valid()
      ensures |w| == Rows() * Cols()
      ensures forall e :: e in w ==> Contains(e.0) && Get(e.0) == Some(e.1)
    {
      WalkFrom(0)
    }

    /** `Walk` is in strictly increasing row-major order and lists every cell. */
    lemma WalkRowMajor()
      requires Valid()
      ensures forall i, j :: 0 <= i < j < |Walk()| ==> RowMajorBefore(Walk()[i].0, Walk()[j].0)
      ensures forall q :: Contains(q) ==> (q, Get(q).value) in Walk()
    {
      WalkFromOrdered(0);
      forall q | Contains(q) ensures (q, Get(q).value) in Walk() {
        WalkFromComplete(0, q);
      }
    }

    /** The neighbours of `p` along the offsets `ds` that lie inside the grid, with their values. */
    function AdjacentAlong(p: Point, ds: seq<Point>): (r: seq<(Point, T)>)
      reads this
      requires Valid()
      ensures |r| <= |ds|
    {
      if ds == [] then []
      else
        var rest := AdjacentAlong(p, ds[1..]);
        var q := p.Add(ds[0]);
        if Contains(q) then [(q, Get(q).value)] + rest else rest
    }

    /** `AdjacentAlong` lists exactly the in-grid steps from `p` along `ds`, each with its value. */
    lemma {:induction false} AdjacentAlongMembers(p: Point, ds: seq<Point>)
      requires Valid()
      ensures forall e :: e in AdjacentAlong(p, ds) ==>
                Point(e.0.x - p.x, e.0.y - p.y) in ds && Get(e.0) == Some(e.1)
      ensures forall d :: d in ds && Contains(p.Add(d)) ==> (p.Add(d), Get(p.Add(d)).value) in AdjacentAlong(p, ds)
    {
      if ds != [] {
        AdjacentAlongMembers(p, ds[1..]);
      }
    }

    /** `Grid::iter_adjacent`: the in-grid neighbours of `p`, clockwise from north. */
    function Adjacent(p: Point): (r: seq<(Point, T)>)
      reads this
      requires Valid()
      ensures |r| <= 8
    {
      AdjacentAlong(p, Offsets())
    }

    /** `Adjacent(p)` lists exactly the in-grid cells one step from `p`, each with its value. */
    lemma AdjacentMembers(p: Point)
      requires Valid()
      ensures forall e :: e in Adjacent(p) ==> Point(e.0.x - p.x, e.0.y - p.y) in Offsets() && Get(e.0) == Some(e.1)
      ensures forall d :: d in Offsets() && Contains(p.Add(d)) ==> (p.Add(d), Get(p.Add(d)).value) in Adjacent(p)
    {
      AdjacentAlongMembers(p, Offsets());
    }

    /** `Grid::update`: writes `v` at `p`; out of bounds it fails and writes nothing. */
    method Update(p: Point, v: T) returns (r: Result<(), GridError>)
      requires Valid()
      modifies this
      ensures Valid() && Rows() == old(Rows()) && Cols() == old(Cols())
      ensures r.Err? <==> !old(Contains(p))
      ensures r.Err? ==> r.error == PointNotInGrid && cells == old(cells)
      ensures r.Ok? ==> cells == old(cells)[p.y := old(cells)[p.y][p.x := v]]
      ensures forall q :: Get(q) == if q == p && r.Ok? then Some(v) else old(Get(q))
    {
      if !Contains(p) {
        return Err(PointNotInGrid);
      }
      cells := cells[p.y := cells[p.y][p.x := v]];
      return Ok(());
    }

    /** `Grid::swap`: exchanges the values at `p` and `q`; if either is outside, nothing changes. */
    method Swap(p: Point, q: Point) returns (r: Result<(), GridError>)
      requires Valid()
      modifies this
      ensures Valid() && Rows() == old(Rows()) && Cols() == old(Cols())
      ensures r.Err? <==> !old(Contains(p)) || !old(Contains(q))
      ensures r.Err? ==> r.error == PointNotInGrid && cells == old(cells)
      ensures r.Ok? ==> Get(p) == old(Get(q)) && Get(q) == old(Get(p))
      ensures forall s :: s != p && s != q ==> Get(s) == old(Get(s))
    {
      var a := Get(p);
      if a.None? {
        return Err(PointNotInGrid);
      }
      var b := Get(q);
      if b.None? {
        return Err(PointNotInGrid);
      }
      var _ := Update(p, b.value);
      var _ := Update(q, a.value);
      return Ok(());
    }
  }

  /** When every step of `ds` from `p` stays inside the grid, every step yields a neighbour, in order. */
  lemma {:induction false} AdjacentAlongInside<T>(g: Grid<T>, p: Point, ds: seq<Point>)
    requires g.Valid() && forall i :: 0 <= i < |ds| ==> g.Contains(p.Add(ds[i]))
    ensures |g.AdjacentAlong(p, ds)| == |ds|
    ensures forall i :: 0 <= i < |ds| ==> g.AdjacentAlong(p, ds)[i].0 == p.Add(ds[i])
  {
    if ds != [] {
      AdjacentAlongInside(g, p, ds[1..]);
    }
  }

  /** When every step of `ds` from `p` leaves the grid, there are no neighbours. */
  lemma {:induction false} AdjacentAlongOutside<T>(g: Grid<T>, p: Point, ds: seq<Point>)
    requires g.Valid() && forall i :: 0 <= i < |ds| ==> !g.Contains(p.Add(ds[i]))
    ensures g.AdjacentAlong(p, ds) == []
  {
    if ds != [] {
      AdjacentAlongOutside(g, p, ds[1..]);
    }
  }

  /** The neighbours along two runs of offsets are those along the first, then those along the second. */
  lemma {:induction false} AdjacentAlongAppend<T>(g: Grid<T>, p: Point, a: seq<Point>, b: seq<Point>)
    requires g.Valid()
    ensures g.AdjacentAlong(p, a + b) == g.AdjacentAlong(p, a) + g.AdjacentAlong(p, b)
  {
    if a != [] {
      assert (a + b)[1..] == a[1..] + b;
      AdjacentAlongAppend(g, p, a[1..], b);
    } else {
      assert a + b == b;
    }
  }

  /** A grid cell strictly inside the border has all eight neighbours. */
  lemma InteriorHasEightNeighbours<T>(g: Grid<T>, p: Point)
    requires g.Valid() && 1 <= p.x < g.Cols() - 1 && 1 <= p.y < g.Rows() - 1
    ensures |g.Adjacent(p)| == 8
  {
    var ds := Offsets();
    forall i | 0 <= i < |ds| ensures g.Contains(p.Add(ds[i])) {
      assert -1 <= ds[i].x <= 1 && -1 <= ds[i].y <= 1;
    }
    AdjacentAlongInside(g, p, ds);
  }

  /** Of the eight steps from the top-left corner only east, south-east and south can stay in the grid. */
  lemma CornerAdjacent<T>(g: Grid<T>, middle: seq<Point>)
    requires g.Valid()
    requires middle == [Point(1, 0), Point(1, 1), Point(0, 1)]
    ensures g.Adjacent(Point(0, 0)) == g.AdjacentAlong(Point(0, 0), middle)
  {
    var o := Point(0, 0);
    var north := [Point(0, -1), Point(1, -1)];
    var west := [Point(-1, 1), Point(-1, 0), Point(-1, -1)];
    AdjacentAlongOutside(g, o, north);
    AdjacentAlongOutside(g, o, west);
    AdjacentAlongAppend(g, o, north, middle);
    AdjacentAlongAppend(g, o, north + middle, west);
    OffsetsSplit();
  }

  /** The top-left corner of a grid of at least 2 x 2 cells has three neighbours: east, south-east, south. */
  lemma CornerHasThreeNeighbours<T>(g: Grid<T>)
    requires g.Valid() && g.Rows() >= 2 && g.Cols() >= 2
    ensures |g.Adjacent(Point(0, 0))| == 3
    ensures g.Adjacent(Point(0, 0))[0].0 == Point(1, 0)
    ensures g.Adjacent(Point(0, 0))[1].0 == Point(1, 1)
    ensures g.Adjacent(Point(0, 0))[2].0 == Point(0, 1)
  {
    var middle := [Point(1, 0), Point(1, 1), Point(0, 1)];
    CornerAdjacent(g, middle);
    CornerSteps(g, middle);
  }

  lemma CornerSteps<T>(g: Grid<T>, ds: seq<Point>)
    requires g.Valid() && g.Rows() >= 2 && g.Cols() >= 2
    requires ds == [Point(1, 0), Point(1, 1), Point(0, 1)]
    ensures |g.AdjacentAlong(Point(0, 0), ds)| == 3
    ensures forall i :: 0 <= i < 3 ==> g.AdjacentAlong(Point(0, 0), ds)[i].0 == ds[i]
  {
    assert g.Contains(ds[0]) && g.Contains(ds[1]) && g.Contains(ds[2]);
    AdjacentAlongInside(g, Point(0, 0), ds);
  }

  lemma OffsetsSplit()
    ensures Offsets() == [Point(0, -1), Point(1, -1)] + [Point(1, 0), Point(1, 1), Point(0, 1)]
                         + [Point(-1, 1), Point(-1, 0), Point(-1, -1)]
  {
    assert Offsets() == [Point(0, -1), Point(1, -1), Point(1, 0), Point(1, 1), Point(0, 1),
                         Point(-1, 1), Point(-1, 0), Point(-1, -1)];
  }

  /** The rows of a char grid: one per `'\n'`-separated line, trimmed. */
  function CharRows(input: string): (rows: seq<seq<char>>)
    ensures |rows| == |Split(input, '\n')| >= 1
    ensures forall i :: 0 <= i < |rows| ==> rows[i] == Trim(Split(input, '\n')[i])
  {
    var lines := Split(input, '\n');
    seq(|lines|, i requires 0 <= i < |lines| => Trim(lines[i]))
  }

  /** `FromStr for Grid<char>`: fails exactly when the trimmed lines differ in length. */
  method ParseCharGrid(input: string) returns (r: Result<Grid<char>, GridError>)
    ensures r.Ok? <==> Rectangular(CharRows(input))
    ensures r.Err? ==> r.error == MismatchedColumns
    ensures r.Ok? ==> fresh(r.value) && r.value.Valid() && r.value.cells == CharRows(input)
  {
    r := Grid.New(CharRows(input));
  }

  /** A string that `Trim` leaves as it is. */
  predicate Trimmed(s: string) {
    s == [] || (!IsWhitespace(s[0]) && !IsWhitespace(s[|s| - 1]))
  }

  lemma TrimTrimmed(s: string)
    requires Trimmed(s)
    ensures Trim(s) == s
  {
    assert s == [] || LeadingWhitespace(s) == 0;
    var t := s[LeadingWhitespace(s)..];
    assert t == s;
    assert t == [] || TrailingWhitespace(t) == 0;
  }

  /** Writing trimmed rows one per line and parsing them back gives the rows. */
  lemma CharRowsJoin(rows: seq<seq<char>>)
    requires |rows| >= 1
    requires forall i :: 0 <= i < |rows| ==> '\n' !in rows[i] && Trimmed(rows[i])
    ensures CharRows(Join(rows, '\n')) == rows
  {
    SplitJoin(rows, '\n');
    forall i | 0 <= i < |rows| ensures Trim(rows[i]) == rows[i] {
      TrimTrimmed(rows[i]);
    }
  }

  /** The rows of a digit grid: one per `'\n'`-separated line, each char read as a digit. */
  function DigitRows(input: string): (rows: seq<seq<nat>>)
    requires forall i :: 0 <= i < |input| ==> input[i] == '\n' || IsDigit(input[i])
    ensures |rows| == |Split(input, '\n')| >= 1
    ensures forall i :: 0 <= i < |rows| ==> |rows[i]| == |Split(input, '\n')[i]|
    ensures forall i, j :: 0 <= i < |rows| && 0 <= j < |rows[i]| ==>
              rows[i][j] < 10 && DigitChar(rows[i][j]) == Split(input, '\n')[i][j]
  {
    var lines := Split(input, '\n');
    DigitLines(input);
    seq(|lines|, i requires 0 <= i < |lines| =>
      seq(|lines[i]|, j requires 0 <= j < |lines[i]| => DigitValue(lines[i][j])))
  }

  /** Every char of every line of a string of digits and line feeds is a digit. */
  lemma DigitLines(input: string)
    requires forall i :: 0 <= i < |input| ==> input[i] == '\n' || IsDigit(input[i])
    ensures forall i, j :: 0 <= i < |Split(input, '\n')| && 0 <= j < |Split(input, '\n')[i]| ==>
              IsDigit(Split(input, '\n')[i][j])
  {
    var lines := Split(input, '\n');
    forall i, j | 0 <= i < |lines| && 0 <= j < |lines[i]| ensures IsDigit(lines[i][j]) {
      JoinMember(lines, '\n', i, j);
    }
  }

  /** Each char of a piece is a char of the joined string. */
  lemma {:induction false} JoinMember(pieces: seq<string>, sep: char, i: nat, j: nat)
    requires |pieces| >= 1 && i < |pieces| && j < |pieces[i]|
    ensures pieces[i][j] in Join(pieces, sep)
  {
    if i > 0 {
      JoinMember(pieces[1..], sep, i - 1, j);
      assert pieces[1..][i - 1] == pieces[i];
    } else {
      assert Join(pieces, sep)[j] == pieces[0][j];
    }
  }

  /**
   * `FromStr for Grid<u32>`: no trimming; a char other than a digit or a line
   * feed makes `to_digit(10).expect(..)` panic, so it is excluded here.
   */
  method ParseDigitGrid(input: string) returns (r: Result<Grid<nat>, GridError>)
    requires forall i :: 0 <= i < |input| ==> input[i] == '\n' || IsDigit(input[i])
    ensures r.Ok? <==> Rectangular(DigitRows(input))
    ensures r.Err? ==> r.error == MismatchedColumns
    ensures r.Ok? ==> fresh(r.value) && r.value.Valid() && r.value.cells == DigitRows(input)
  {
    r := Grid.New(DigitRows(input));
  }
}
