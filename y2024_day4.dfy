/**
 * `y2024/day4.rs`: a word search on a character grid. `find_words` counts
 * the readings of a word in any of the eight directions; `find_x_mas`
 * counts the cells where two diagonal `MAS` cross on an `A`.
 */
module Y2024Day4 {
  import opened Wrappers
  import opened Grids

  /** `p + k·d`: the cell `k` steps from `p` in direction `d`. */
  function Along(p: Point, d: Point, k: nat): Point {
    if k == 0 then p else Along(p, d, k - 1).Add(d)
  }

  /** `w[i]` sits `from + i` steps from `p` in direction `d`, for every `i`. */
  predicate ReadsAlong(g: Grid<char>, p: Point, d: Point, w: string, from: nat)
    reads g
    requires g.Valid()
  {
    forall i :: 0 <= i < |w| ==> g.Get(Along(p, d, from + i)) == Some(w[i])
  }

  /** The whole of `w` reads from `p` (its first letter on `p`) in direction `d`. */
  predicate WordAt(g: Grid<char>, p: Point, d: Point, w: string)
    reads g
    requires g.Valid()
  {
    ReadsAlong(g, p, d, w, 0)
  }

  /**
   * `direction_is_word`: the empty word always matches; otherwise steps
   * from `p` along `d`, failing at the first cell that is off the grid or
   * holds the wrong letter.
   */
  method DirectionIsWord(g: Grid<char>, p: Point, d: Point, word: string) returns (b: bool)
    requires g.Valid()
    ensures b == ReadsAlong(g, p, d, word, 1)
  {
    if |word| == 0 {
      return true;
    }
    var place := p.Add(d);
    assert place == Along(p, d, 1);
    var first := g.Get(place);
    if !(first.Some? && first.value == word[0]) {
      assert g.Get(Along(p, d, 1 + 0)) != Some(word[0]);
      return false;
    }
    var i := 1;
    while i < |word|
      invariant 1 <= i <= |word|
      invariant place == Along(p, d, i)
      invariant forall k :: 0 <= k < i ==> g.Get(Along(p, d, 1 + k)) == Some(word[k])
    {
      place := place.Add(d);
      assert place == Along(p, d, 1 + i);
      var v := g.Get(place);
      if !(v.Some? && v.value == word[i]) {
        assert g.Get(Along(p, d, 1 + i)) != Some(word[i]);
        return false;
      }
      i := i + 1;
    }
    return true;
  }

  /** The number of offsets in `ds` along which `w` reads from `p`, starting `from` steps out. */
  function CountDirections(g: Grid<char>, p: Point, w: string, ds: seq<Point>, from: nat): (n: nat)
    reads g
    requires g.Valid()
    ensures n <= |ds|
  {
    if ds == [] then 0
    else (if ReadsAlong(g, p, ds[0], w, from) then 1 else 0) + CountDirections(g, p, w, ds[1..], from)
  }

  /** `find_words_at_point`: the directions in which the rest of the word follows `p`. */
  function FindWordsAtPoint(g: Grid<char>, p: Point, w: string): (n: nat)
    reads g
    requires g.Valid()
    ensures n <= 8
  {
    CountDirections(g, p, w, Offsets(), 1)
  }

  /** The sum, over the cells of `walk` that hold `word[0]`, of the directions in which `word[1..]` follows. */
  function SumStarts(g: Grid<char>, walk: seq<(Point, char)>, word: string): nat
    reads g
    requires g.Valid() && |word| >= 1
  {
    if walk == [] then 0
    else (if walk[0].1 == word[0] then FindWordsAtPoint(g, walk[0].0, word[1..]) else 0)
         + SumStarts(g, walk[1..], word)
  }

  /** `find_words`: panics on an empty word, otherwise `SumStarts` over `walk`. */
  function FindWords(g: Grid<char>, word: string): nat
    reads g
    requires g.Valid() && |word| >= 1
  {
    SumStarts(g, g.Walk(), word)
  }

  /** The number of (cell of `walk`, direction) pairs from which the whole word reads. */
  function Readings(g: Grid<char>, walk: seq<(Point, char)>, word: string): nat
    reads g
    requires g.Valid()
  {
    if walk == [] then 0 else CountDirections(g, walk[0].0, word, Offsets(), 0) + Readings(g, walk[1..], word)
  }

  /** The whole word reads from `p` exactly when `p` holds its first letter and the rest follows. */
  lemma WordAtSplit(g: Grid<char>, p: Point, d: Point, w: string)
    requires g.Valid() && |w| >= 1
    ensures WordAt(g, p, d, w) <==> g.Get(p) == Some(w[0]) && ReadsAlong(g, p, d, w[1..], 1)
  {
    assert Along(p, d, 0) == p;
    if g.Get(p) == Some(w[0]) && ReadsAlong(g, p, d, w[1..], 1) {
      forall i | 0 <= i < |w| ensures g.Get(Along(p, d, i)) == Some(w[i]) {
        if i > 0 {
          assert w[1..][i - 1] == w[i];
        }
      }
    }
  }

  lemma {:induction false} CountDirectionsSplit(g: Grid<char>, p: Point, w: string, ds: seq<Point>)
    requires g.Valid() && |w| >= 1
    ensures CountDirections(g, p, w, ds, 0)
         == if g.Get(p) == Some(w[0]) then CountDirections(g, p, w[1..], ds, 1) else 0
  {
    if ds != [] {
      WordAtSplit(g, p, ds[0], w);
      CountDirectionsSplit(g, p, w, ds[1..]);
    }
  }

  lemma {:induction false} SumStartsReadings(g: Grid<char>, walk: seq<(Point, char)>, word: string)
    requires g.Valid() && |word| >= 1
    requires forall e :: e in walk ==> g.Get(e.0) == Some(e.1)
    ensures SumStarts(g, walk, word) == Readings(g, walk, word)
  {
    if walk != [] {
      CountDirectionsSplit(g, walk[0].0, word, Offsets());
      assert walk[0] in walk;
      assert forall e :: e in walk[1..] ==> e in walk;
      SumStartsReadings(g, walk[1..], word);
    }
  }

  /**
   * `find_words` counts the readings of the word: the (cell, direction)
   * pairs from which the whole word reads, the first letter on the cell.
   */
  lemma FindWordsCountsReadings(g: Grid<char>, word: string)
    requires g.Valid() && |word| >= 1
    ensures FindWords(g, word) == Readings(g, g.Walk(), word)
  {
    SumStartsReadings(g, g.Walk(), word);
  }

  function Reverse(w: string): (r: string)
    ensures |r| == |w| && forall i :: 0 <= i < |w| ==> r[i] == w[|w| - 1 - i]
  {
    if w == [] then [] else Reverse(w[1..]) + [w[0]]
  }

  function Opposite(d: Point): Point {
    Point(-d.x, -d.y)
  }

  lemma {:induction false} AlongBack(p: Point, d: Point, n: nat, i: nat)
    requires i <= n
    ensures Along(Along(p, d, n), Opposite(d), i) == Along(p, d, n - i)
  {
    if i > 0 {
      AlongBack(p, d, n, i - 1);
    }
  }

  /**
   * A word reads from `p` along `d` exactly when its reverse reads back from
   * the last letter's cell along the opposite direction: a word backwards
   * is found as often as forwards.
   */
  lemma WordAtReverse(g: Grid<char>, p: Point, d: Point, w: string)
    requires g.Valid() && |w| >= 1
    ensures WordAt(g, p, d, w) <==> WordAt(g, Along(p, d, |w| - 1), Opposite(d), Reverse(w))
  {
    var n := |w| - 1;
    var q := Along(p, d, n);
    var r := Reverse(w);
    forall i | 0 <= i <= n ensures Along(q, Opposite(d), i) == Along(p, d, n - i) {
      AlongBack(p, d, n, i);
    }
    if WordAt(g, p, d, w) {
      forall i | 0 <= i < |r| ensures g.Get(Along(q, Opposite(d), i)) == Some(r[i]) {
        assert g.Get(Along(p, d, n - i)) == Some(w[n - i]);
      }
    }
    if WordAt(g, q, Opposite(d), r) {
      forall i | 0 <= i < |w| ensures g.Get(Along(p, d, i)) == Some(w[i]) {
        assert g.Get(Along(q, Opposite(d), n - i)) == Some(r[n - i]);
      }
    }
  }

  /**
   * `is_x_mas`: `p` holds `A`, its four diagonal neighbours are in the
   * grid, and each opposite pair (north-west/south-east and
   * north-east/south-west) is an `M` and an `S` in either order.
   */
  function IsXMas(g: Grid<char>, p: Point): bool
    reads g
    requires g.Valid()
  {
    if g.Get(p) != Some('A') then false
    else
      var corners := [g.Get(p.Add(NorthWest.Offset())), g.Get(p.Add(NorthEast.Offset())),
                      g.Get(p.Add(SouthEast.Offset())), g.Get(p.Add(SouthWest.Offset()))];
      if corners[0].None? || corners[1].None? || corners[2].None? || corners[3].None? then false
      else
        var c := [corners[0].value, corners[1].value, corners[2].value, corners[3].value];
        ((c[0] == 'M' && c[2] == 'S') || (c[0] == 'S' && c[2] == 'M'))
        && ((c[1] == 'M' && c[3] == 'S') || (c[1] == 'S' && c[3] == 'M'))
  }

  /** `MAS` or `SAM` reads along `d` starting at `p`. */
  predicate MasAt(g: Grid<char>, p: Point, d: Point)
    reads g
    requires g.Valid()
  {
    WordAt(g, p, d, "MAS") || WordAt(g, p, d, "SAM")
  }

  /** A three-letter word reads from `p` when `p`, `p + d` and `p + 2d` hold its letters. */
  lemma WordAtThree(g: Grid<char>, p: Point, d: Point, w: string)
    requires g.Valid() && |w| == 3
    ensures WordAt(g, p, d, w) <==>
              g.Get(p) == Some(w[0]) && g.Get(p.Add(d)) == Some(w[1]) && g.Get(p.Add(d).Add(d)) == Some(w[2])
  {
    assert Along(p, d, 0) == p && Along(p, d, 1) == p.Add(d) && Along(p, d, 2) == p.Add(d).Add(d);
  }

  /** `MAS` or `SAM` through `c + d` along `d`: `c + d` is `A` and `c`, `c + 2d` are `M` and `S` in either order. */
  lemma MasAtCorners(g: Grid<char>, c: Point, d: Point)
    requires g.Valid()
    ensures MasAt(g, c, d) <==>
              g.Get(c.Add(d)) == Some('A')
              && ((g.Get(c) == Some('M') && g.Get(c.Add(d).Add(d)) == Some('S'))
                  || (g.Get(c) == Some('S') && g.Get(c.Add(d).Add(d)) == Some('M')))
  {
    WordAtThree(g, c, d, "MAS");
    WordAtThree(g, c, d, "SAM");
  }

  /**
   * An X-MAS is two diagonal readings of `MAS`, forwards or backwards, that
   * cross on `p`: one from the north-west corner going south-east, one from
   * the north-east corner going south-west.
   */
  lemma IsXMasIffCrossingMas(g: Grid<char>, p: Point)
    requires g.Valid()
    ensures IsXMas(g, p) <==>
              MasAt(g, p.Add(NorthWest.Offset()), SouthEast.Offset())
              && MasAt(g, p.Add(NorthEast.Offset()), SouthWest.Offset())
  {
    var nw, ne := p.Add(NorthWest.Offset()), p.Add(NorthEast.Offset());
    var se, sw := SouthEast.Offset(), SouthWest.Offset();
    MasAtCorners(g, nw, se);
    MasAtCorners(g, ne, sw);
    assert nw.Add(se) == p && ne.Add(sw) == p;
  }

  /** The number of cells of `walk` that are the centre of an X-MAS. */
  function CountXMas(g: Grid<char>, walk: seq<(Point, char)>): (n: nat)
    reads g
    requires g.Valid()
    ensures n <= |walk|
  {
    if walk == [] then 0 else (if IsXMas(g, walk[0].0) then 1 else 0) + CountXMas(g, walk[1..])
  }

  /** `find_x_mas`. */
  function FindXMas(g: Grid<char>): nat
    reads g
    requires g.Valid()
  {
    CountXMas(g, g.Walk())
  }

  /** The centre of an X-MAS has a cell on every side, so it is not on the border. */
  lemma XMasInterior(g: Grid<char>, p: Point)
    requires g.Valid() && IsXMas(g, p)
    ensures 1 <= p.x && p.x + 1 < g.Cols() && 1 <= p.y && p.y + 1 < g.Rows()
  {
    assert g.Get(p.Add(NorthWest.Offset())).Some? && g.Get(p.Add(SouthEast.Offset())).Some?;
  }

  lemma {:induction false} CountXMasNone(g: Grid<char>, walk: seq<(Point, char)>)
    requires g.Valid() && forall e :: e in walk ==> !IsXMas(g, e.0)
    ensures CountXMas(g, walk) == 0
  {
    if walk != [] {
      assert walk[0] in walk;
      assert forall e :: e in walk[1..] ==> e in walk;
      CountXMasNone(g, walk[1..]);
    }
  }

  /** A grid narrower or lower than three cells holds no X-MAS. */
  lemma NoXMasInThinGrid(g: Grid<char>)
    requires g.Valid() && (g.Rows() < 3 || g.Cols() < 3)
    ensures FindXMas(g) == 0
  {
    forall e | e in g.Walk() ensures !IsXMas(g, e.0) {
      if IsXMas(g, e.0) {
        XMasInterior(g, e.0);
      }
    }
    CountXMasNone(g, g.Walk());
  }
}
