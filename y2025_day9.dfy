/**
 * `y2025/day9.rs`: red tiles on a theater floor. Any two tiles are
 * opposite corners of a rectangle of tiles; `max_rectangle` is the largest
 * such rectangle over every pair of tiles.
 */
module Y2025Day9 {
  import opened Strings
  import opened Grids
  import Decimal

  function Abs(d: int): nat {
    if d < 0 then -d else d
  }

  /** The number of tiles in the rectangle with corners `p` and `q`, as a mathematical integer. */
  function Tiles(p: Point, q: Point): nat {
    (Abs(p.x - q.x) + 1) * (Abs(p.y - q.y) + 1)
  }

  /**
   * The `i64` arithmetic of `area` does not overflow: the product is at
   * least 1, so this also bounds both factors and the differences, and the
   * conversion to `u64` cannot fail.
   */
  predicate AreaFits(p: Point, q: Point) {
    Tiles(p, q) <= I64_MAX
  }

  /** `area`: the tiles covered by the rectangle with corners `p` and `q`, edges included. */
  function Area(p: Point, q: Point): (a: nat)
    requires AreaFits(p, q)
    ensures 1 <= a <= I64_MAX
    ensures a >= Abs(p.x - q.x) + 1 && a >= Abs(p.y - q.y) + 1
  {
    var w, h := Abs(p.x - q.x) + 1, Abs(p.y - q.y) + 1;
    assert w * h >= w * 1 && w * h >= 1 * h by {
      Decimal.MulMono(1, h, w);
      Decimal.MulMono(1, w, h);
    }
    w * h
  }

  /** `area` does not depend on the order of the corners. */
  lemma AreaSymmetric(p: Point, q: Point)
    ensures AreaFits(p, q) <==> AreaFits(q, p)
    ensures AreaFits(p, q) ==> Area(p, q) == Area(q, p)
  {
    assert Abs(p.x - q.x) == Abs(q.x - p.x) && Abs(p.y - q.y) == Abs(q.y - p.y);
  }

  /** A single tile is a rectangle of area 1. */
  lemma AreaSelf(p: Point)
    ensures AreaFits(p, p) && Area(p, p) == 1
  {
  }

  /** Every pair of tiles, first before second, has an area that fits. */
  predicate AllFit(tiles: seq<Point>) {
    forall i, j :: 0 <= i < j < |tiles| ==> AreaFits(tiles[i], tiles[j])
  }

  /** The largest rectangle with corner `p` and the other corner in `rest`. */
  function MaxWith(p: Point, rest: seq<Point>): (m: nat)
    requires |rest| >= 1 && forall j :: 0 <= j < |rest| ==> AreaFits(p, rest[j])
    ensures forall j :: 0 <= j < |rest| ==> Area(p, rest[j]) <= m
    ensures exists j :: 0 <= j < |rest| && m == Area(p, rest[j])
  {
    if |rest| == 1 then Area(p, rest[0])
    else
      var m := MaxWith(p, rest[1..]);
      assert forall j :: 1 <= j < |rest| ==> rest[1..][j - 1] == rest[j];
      if Area(p, rest[0]) >= m then Area(p, rest[0]) else m
  }

  /**
   * `max_rectangle`: the largest area over all pairs of tiles, which
   * `combinations(2)` lists; `max().unwrap()` panics when there are fewer
   * than two tiles, and `area` when a product overflows.
   */
  function MaxRectangle(tiles: seq<Point>): (m: nat)
    requires |tiles| >= 2 && AllFit(tiles)
    ensures forall i, j :: 0 <= i < j < |tiles| ==> Area(tiles[i], tiles[j]) <= m
    ensures exists i, j :: 0 <= i < j < |tiles| && m == Area(tiles[i], tiles[j])
  {
    var rest := tiles[1..];
    assert forall j :: 0 <= j < |rest| ==> rest[j] == tiles[j + 1];
    var first := MaxWith(tiles[0], rest);
    if |tiles| == 2 then first
    else
      var others := MaxRectangle(rest);
      var m := if first >= others then first else others;
      assert forall i, j :: 0 <= i < j < |tiles| ==> Area(tiles[i], tiles[j]) <= m by {
        forall i, j | 0 <= i < j < |tiles| ensures Area(tiles[i], tiles[j]) <= m {
          if i == 0 {
            assert Area(tiles[0], rest[j - 1]) <= first;
          } else {
            assert Area(rest[i - 1], rest[j - 1]) <= others;
          }
        }
      }
      if first >= others then
        var j :| 0 <= j < |rest| && first == Area(tiles[0], rest[j]);
        assert 0 < j + 1 < |tiles| && m == Area(tiles[0], tiles[j + 1]);
        m
      else
        var i, j :| 0 <= i < j < |rest| && others == Area(rest[i], rest[j]);
        assert 0 <= i + 1 < j + 1 < |tiles| && m == Area(tiles[i + 1], tiles[j + 1]);
        m
  }

  /** The red tiles of the unit test. */
  function SampleTiles(): seq<Point> {
    [Point(7, 1), Point(11, 1), Point(11, 7), Point(9, 7), Point(9, 5), Point(2, 5), Point(2, 3), Point(7, 3)]
  }

  /** The largest rectangle of the unit test covers 50 tiles, between `2,5` and `11,1`. */
  lemma MaxRectangleSample()
    ensures |SampleTiles()| >= 2 && AllFit(SampleTiles())
    ensures MaxRectangle(SampleTiles()) == 50
  {
    var t := SampleTiles();
    forall i, j | 0 <= i < j < |t| ensures Tiles(t[i], t[j]) <= 50 {
      SampleBound(t, i, j);
    }
    assert Area(t[1], t[5]) == 50;
  }

  lemma SampleBound(t: seq<Point>, i: nat, j: nat)
    requires t == SampleTiles() && 0 <= i < j < |t|
    ensures Tiles(t[i], t[j]) <= 50
  {
    if i == 0 {
      assert j == 1 || j == 2 || j == 3 || j == 4 || j == 5 || j == 6 || j == 7;
    } else if i == 1 {
      assert j == 2 || j == 3 || j == 4 || j == 5 || j == 6 || j == 7;
    } else if i == 2 {
      assert j == 3 || j == 4 || j == 5 || j == 6 || j == 7;
    } else if i == 3 {
      assert j == 4 || j == 5 || j == 6 || j == 7;
    } else if i == 4 {
      assert j == 5 || j == 6 || j == 7;
    } else if i == 5 {
      assert j == 6 || j == 7;
    } else {
      assert i == 6 && j == 7;
    }
  }
}
