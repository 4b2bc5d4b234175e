/**
 * `y2025/day8.rs`: junction boxes at integer points in space. Every pair of
 * boxes becomes a connection weighted by the squared distance; the
 * connections sit in a min-heap and are popped, shortest first, into a
 * disjoint set of circuits. `join_circuits(k)` joins the first `k`,
 * `join_all_circuits` joins until a single circuit holds every box, and
 * `product_top_circuits` multiplies the sizes of the largest circuits.
 */
module Y2025Day8 {
  import opened Wrappers
  import opened Strings
  import Sorting
  import opened DisjointSets

  /** `JunctionBox`: three `i64` coordinates. */
  datatype JunctionBox = JunctionBox(x: int, y: int, z: int)

  datatype JunctionBoxError = NotAnInteger | WrongDimension

  predicate InI64(v: int) {
    I64_MIN <= v <= I64_MAX
  }

  function Coords(b: JunctionBox): seq<int> {
    [b.x, b.y, b.z]
  }

  function Square(d: int): nat {
    if d < 0 then (-d) * (-d) else d * d
  }

  /** The squared Euclidean distance, as a mathematical integer. */
  function SquaredDistance(a: JunctionBox, b: JunctionBox): nat {
    Square(a.x - b.x) + Square(a.y - b.y) + Square(a.z - b.z)
  }

  /**
   * The `i64` arithmetic of `distance` neither overflows nor fails the
   * conversion to `u64`: the three squares are non-negative, so this holds
   * exactly when their sum stays within `i64` (then every difference,
   * square and partial sum does too).
   */
  predicate DistanceFits(a: JunctionBox, b: JunctionBox) {
    SquaredDistance(a, b) <= I64_MAX
  }

  /** `distance`: the squared Euclidean distance. */
  function Distance(a: JunctionBox, b: JunctionBox): (d: nat)
    requires DistanceFits(a, b)
    ensures d <= I64_MAX
  {
    SquaredDistance(a, b)
  }

  lemma SquareNeg(d: int)
    ensures Square(-d) == Square(d)
  {
  }

  lemma SquareZero(d: int)
    ensures Square(d) == 0 <==> d == 0
  {
    if d != 0 {
      var e := if d < 0 then -d else d;
      assert e >= 1;
      assert e * e >= e;
    }
  }

  /** `distance` does not depend on the order of the two boxes. */
  lemma DistanceSymmetric(a: JunctionBox, b: JunctionBox)
    ensures DistanceFits(a, b) <==> DistanceFits(b, a)
    ensures DistanceFits(a, b) ==> Distance(a, b) == Distance(b, a)
  {
    SquareNeg(a.x - b.x);
    SquareNeg(a.y - b.y);
    SquareNeg(a.z - b.z);
  }

  /** The distance is zero exactly between a box and itself. */
  lemma DistanceZero(a: JunctionBox, b: JunctionBox)
    requires DistanceFits(a, b)
    ensures Distance(a, b) == 0 <==> a == b
  {
    SquareZero(a.x - b.x);
    SquareZero(a.y - b.y);
    SquareZero(a.z - b.z);
  }

  /** The unit test's pair of boxes is 103401 apart. */
  lemma DistanceSample()
    ensures DistanceFits(JunctionBox(162, 817, 812), JunctionBox(431, 825, 988))
    ensures Distance(JunctionBox(162, 817, 812), JunctionBox(431, 825, 988)) == 103401
  {
    assert Square(162 - 431) == 72361;
    assert Square(817 - 825) == 64;
    assert Square(812 - 988) == 30976;
  }

  /**
   * `wall_distance`: the product of the two `x` coordinates, which must
   * fit in `i64` and, for the conversion to `u64`, be non-negative.
   */
  function WallDistance(a: JunctionBox, b: JunctionBox): (w: nat)
    requires 0 <= a.x * b.x <= I64_MAX
  {
    a.x * b.x
  }

  /** `wall_distance` does not depend on the order of the two boxes. */
  lemma WallDistanceSymmetric(a: JunctionBox, b: JunctionBox)
    requires 0 <= a.x * b.x <= I64_MAX
    ensures 0 <= b.x * a.x <= I64_MAX && WallDistance(a, b) == WallDistance(b, a)
  {
  }

  /** `from_slice`: exactly three values make a box, in the order `x`, `y`, `z`. */
  function FromSlice(vals: seq<int>): (r: Result<JunctionBox, JunctionBoxError>)
    ensures r.Ok? <==> |vals| == 3
    ensures r.Ok? ==> Coords(r.value) == vals
    ensures r.Err? ==> r.error == WrongDimension
  {
    if |vals| != 3 then Err(WrongDimension)
    else Ok(JunctionBox(vals[0], vals[1], vals[2]))
  }

  /** A box is recovered from its coordinates. */
  lemma FromSliceCoords(b: JunctionBox)
    ensures FromSlice(Coords(b)) == Ok(b)
  {
  }

  /** `str::parse::<i64>`. */
  function ParseI64(s: string): (r: Option<int>)
    ensures r.Some? ==> InI64(r.value)
  {
    ParseSigned(s, I64_MIN, I64_MAX)
  }

  /** Every piece parsed as `i64`, or `None` when any piece fails. */
  function ParseAll(pieces: seq<string>): (r: Option<seq<int>>)
    ensures r.Some? <==> forall i :: 0 <= i < |pieces| ==> ParseI64(pieces[i]).Some?
    ensures r.Some? ==> |r.value| == |pieces|
    ensures r.Some? ==> forall i :: 0 <= i < |pieces| ==> ParseI64(pieces[i]) == Some(r.value[i])
  {
    if pieces == [] then Some([])
    else
      match ParseI64(pieces[0])
      case None => None
      case Some(v) =>
        match ParseAll(pieces[1..])
        case None =>
          assert forall i :: 0 <= i < |pieces| - 1 ==> pieces[1..][i] == pieces[i + 1];
          None
        case Some(vs) => Some([v] + vs)
  }

  /**
   * `from_str`: the `,`-separated pieces are parsed as `i64`; any piece
   * that fails gives `NotAnInteger`, otherwise anything but three values
   * gives `WrongDimension`.
   */
  function FromStr(s: string): (r: Result<JunctionBox, JunctionBoxError>)
    ensures r == Err(NotAnInteger) <==>
              exists i :: 0 <= i < |Split(s, ',')| && ParseI64(Split(s, ',')[i]).None?
    ensures r == Err(WrongDimension) <==>
              (forall i :: 0 <= i < |Split(s, ',')| ==> ParseI64(Split(s, ',')[i]).Some?)
              && |Split(s, ',')| != 3
    ensures r.Ok? ==> |Split(s, ',')| == 3
    ensures r.Ok? ==> forall i :: 0 <= i < 3 ==> ParseI64(Split(s, ',')[i]) == Some(Coords(r.value)[i])
  {
    var pieces := Split(s, ',');
    match ParseAll(pieces)
    case None =>
      assert exists i :: 0 <= i < |Split(s, ',')| && ParseI64(Split(s, ',')[i]).None?;
      Err(NotAnInteger)
    case Some(vals) => FromSlice(vals)
  }

  /** The `x,y,z` rendering of a box. */
  function Render(b: JunctionBox): string {
    Join([ShowSigned(b.x), ShowSigned(b.y), ShowSigned(b.z)], ',')
  }

  /** Parsing the rendering of a box with `i64` coordinates gives the box back. */
  lemma FromStrRender(b: JunctionBox)
    requires InI64(b.x) && InI64(b.y) && InI64(b.z)
    ensures FromStr(Render(b)) == Ok(b)
  {
    var pieces := [ShowSigned(b.x), ShowSigned(b.y), ShowSigned(b.z)];
    forall i | 0 <= i < |pieces| ensures ',' !in pieces[i] {
      if ',' in pieces[i] {
        var j :| 0 <= j < |pieces[i]| && pieces[i][j] == ',';
      }
    }
    SplitJoin(pieces, ',');
    ParseShowSigned(b.x, I64_MIN, I64_MAX);
    ParseShowSigned(b.y, I64_MIN, I64_MAX);
    ParseShowSigned(b.z, I64_MIN, I64_MAX);
    assert forall i :: 0 <= i < 3 ==> ParseI64(pieces[i]) == Some(Coords(b)[i]);
  }

  /** `JunctionBoxConnection`: two boxes and the distance between them. */
  datatype Connection = Connection(distance: nat, c1: JunctionBox, c2: JunctionBox)

  /**
   * `JunctionBoxConnection::new`, on boxes whose `distance` fits (which is
   * where it does not panic): the two boxes in order and their distance.
   */
  function Connect(a: JunctionBox, b: JunctionBox): Connection {
    Connection(SquaredDistance(a, b), a, b)
  }

  /** The derived `Ord` of `JunctionBox`: lexicographic on `(x, y, z)`. */
  predicate BoxLe(a: JunctionBox, b: JunctionBox) {
    a.x < b.x || (a.x == b.x && (a.y < b.y || (a.y == b.y && a.z <= b.z)))
  }

  /** The derived `Ord` of `JunctionBoxConnection`: lexicographic on `(distance, c1, c2)`. */
  predicate ConnLe(a: Connection, b: Connection) {
    a.distance < b.distance
    || (a.distance == b.distance
        && ((BoxLe(a.c1, b.c1) && a.c1 != b.c1) || (a.c1 == b.c1 && BoxLe(a.c2, b.c2))))
  }

  /** Both derived orders are total orders. */
  lemma ConnLeOrder()
    ensures Sorting.TotalPreorder(BoxLe)
    ensures forall a, b :: BoxLe(a, b) && BoxLe(b, a) ==> a == b
    ensures Sorting.TotalPreorder(ConnLe)
    ensures forall a, b :: ConnLe(a, b) && ConnLe(b, a) ==> a == b
  {
  }

  /** Each connection is `ConnLe` its successor. */
  predicate Ordered(q: seq<Connection>) {
    |q| <= 1 || (ConnLe(q[0], q[1]) && Ordered(q[1..]))
  }

  /** Ordered neighbours are the same as an ordered sequence, the order being transitive. */
  lemma {:induction false} OrderedSorted(q: seq<Connection>)
    ensures Ordered(q) <==> Sorting.SortedBy(q, ConnLe)
  {
    ConnLeOrder();
    if |q| > 1 {
      OrderedSorted(q[1..]);
      if Ordered(q) {
        forall i, j | 0 <= i < j < |q| ensures ConnLe(q[i], q[j]) {
          if i > 0 {
            assert q[1..][i - 1] == q[i] && q[1..][j - 1] == q[j];
          } else if j > 1 {
            assert q[1..][j - 1] == q[j];
            assert ConnLe(q[1], q[j]);
          }
        }
      }
      if Sorting.SortedBy(q, ConnLe) {
        assert ConnLe(q[0], q[1]);
        assert Sorting.SortedBy(q[1..], ConnLe) by {
          forall i, j | 0 <= i < j < |q| - 1 ensures ConnLe(q[1..][i], q[1..][j]) {
            assert q[1..][i] == q[i + 1] && q[1..][j] == q[j + 1];
          }
        }
      }
    }
  }

  /**
   * `BinaryHeap<Reverse<JunctionBoxConnection>>`, seen through what it
   * does: `pop` hands out the least connection under the derived order.
   * The queue holds the connections in the order they will be popped.
   */
  class ConnectionHeap {
    var queue: seq<Connection>

    ghost predicate Valid()
      reads this
    {
      Ordered(queue)
    }

    /** `BinaryHeap::new`. */
    constructor ()
      ensures Valid() && queue == []
    {
      queue := [];
    }

    /** `push`: the connection joins the queue in its place under the order. */
    method Push(c: Connection)
      requires Valid()
      modifies this
      ensures Valid() && queue == Sorting.Insert(c, old(queue), ConnLe)
    {
      ConnLeOrder();
      OrderedSorted(queue);
      Sorting.InsertSorted(c, queue, ConnLe);
      OrderedSorted(Sorting.Insert(c, queue, ConnLe));
      queue := Sorting.Insert(c, queue, ConnLe);
    }

    /** `pop`: `None` on an empty heap, otherwise the least connection, which leaves the heap. */
    method Pop() returns (r: Option<Connection>)
      requires Valid()
      modifies this
      ensures Valid()
      ensures old(queue) == [] ==> r == None && queue == []
      ensures old(queue) != [] ==> r == Some(old(queue)[0]) && queue == old(queue)[1..]
      ensures r.Some? ==> forall c :: c in old(queue) ==> ConnLe(r.value, c)
    {
      if queue == [] {
        return None;
      }
      OrderedSorted(queue);
      ConnLeOrder();
      r := Some(queue[0]);
      queue := queue[1..];
    }

    /** `len`. */
    function Len(): nat
      reads this
    {
      |queue|
    }
  }

  /** Every pair of boxes, first before second, has a distance that fits. */
  predicate AllFit(boxes: seq<JunctionBox>) {
    forall p, q :: 0 <= p < q < |boxes| ==> DistanceFits(boxes[p], boxes[q])
  }

  /** The connections of box `i` to every later box, in order. */
  function Row(boxes: seq<JunctionBox>, i: nat): (r: seq<Connection>)
    requires i < |boxes|
    ensures |r| == |boxes| - i - 1
  {
    seq(|boxes| - i - 1, k requires 0 <= k < |boxes| - i - 1 => Connect(boxes[i], boxes[i + 1 + k]))
  }

  /** The connections of the boxes before `i` to every later box, in `combinations(2)` order. */
  function PairsBefore(boxes: seq<JunctionBox>, i: nat): seq<Connection>
    requires i <= |boxes|
  {
    if i == 0 then []
    else PairsBefore(boxes, i - 1) + Row(boxes, i - 1)
  }

  /** `combinations(2)` mapped through `JunctionBoxConnection::new`. */
  function Pairs(boxes: seq<JunctionBox>): seq<Connection>
  {
    PairsBefore(boxes, |boxes|)
  }

  lemma {:induction false} PairsBeforeCount(boxes: seq<JunctionBox>, i: nat)
    requires i <= |boxes|
    ensures 2 * |PairsBefore(boxes, i)| == i * (2 * |boxes| - i - 1)
  {
    if i > 0 {
      PairsBeforeCount(boxes, i - 1);
      var n := |boxes|;
      calc {
        2 * |PairsBefore(boxes, i)|;
        2 * |PairsBefore(boxes, i - 1)| + 2 * (n - i);
        (i - 1) * (2 * n - i) + 2 * (n - i);
        { assert (i - 1) * (2 * n - i) == i * (2 * n - i) - (2 * n - i); }
        i * (2 * n - i) - i;
        { assert i * (2 * n - i) - i == i * (2 * n - i - 1); }
        i * (2 * n - i - 1);
      }
    }
  }

  /** There are `n(n - 1)/2` connections among `n` boxes. */
  lemma PairsCount(boxes: seq<JunctionBox>)
    ensures 2 * |Pairs(boxes)| == |boxes| * (|boxes| - 1)
  {
    PairsBeforeCount(boxes, |boxes|);
  }

  /** The connection of box `p` to a later box `q` is among those of the boxes before `i > p`. */
  lemma {:induction false} PairsBeforeHas(boxes: seq<JunctionBox>, i: nat, p: nat, q: nat)
    requires i <= |boxes| && p < i && p < q < |boxes|
    ensures Connect(boxes[p], boxes[q]) in PairsBefore(boxes, i)
  {
    if p < i - 1 {
      PairsBeforeHas(boxes, i - 1, p, q);
    } else {
      assert Row(boxes, p)[q - p - 1] == Connect(boxes[p], boxes[q]);
    }
  }

  /** Each connection of the boxes before `i` links one of them to a later box. */
  lemma {:induction false} PairsBeforeFrom(boxes: seq<JunctionBox>, i: nat, c: Connection)
    requires i <= |boxes| && c in PairsBefore(boxes, i)
    ensures exists p, q :: 0 <= p < i && p < q < |boxes| && c == Connect(boxes[p], boxes[q])
  {
    if c in PairsBefore(boxes, i - 1) {
      PairsBeforeFrom(boxes, i - 1, c);
      var p, q :| 0 <= p < i - 1 && p < q < |boxes| && c == Connect(boxes[p], boxes[q]);
      assert 0 <= p < i && p < q < |boxes| && c == Connect(boxes[p], boxes[q]);
    } else {
      var r := Row(boxes, i - 1);
      var k :| 0 <= k < |r| && r[k] == c;
      assert 0 <= i - 1 < i && i - 1 < i + k < |boxes| && c == Connect(boxes[i - 1], boxes[i + k]);
    }
  }

  /** The connections are exactly those from a box to a later box. */
  lemma PairsMembers(boxes: seq<JunctionBox>, c: Connection)
    ensures c in Pairs(boxes) <==>
              exists p, q :: 0 <= p < q < |boxes| && c == Connect(boxes[p], boxes[q])
  {
    if c in Pairs(boxes) {
      PairsBeforeFrom(boxes, |boxes|, c);
    }
    if exists p, q :: 0 <= p < q < |boxes| && c == Connect(boxes[p], boxes[q]) {
      var p, q :| 0 <= p < q < |boxes| && c == Connect(boxes[p], boxes[q]);
      PairsBeforeHas(boxes, |boxes|, p, q);
    }
  }

  /**
   * `all_pairs`: a heap holding one connection per pair of boxes, which
   * therefore pops them in exactly the order of `Pairs` sorted by `ConnLe`.
   */
  method AllPairs(boxes: seq<JunctionBox>) returns (heap: ConnectionHeap)
    requires AllFit(boxes)
    ensures fresh(heap) && heap.Valid()
    ensures multiset(heap.queue) == multiset(Pairs(boxes))
    ensures heap.queue == PopOrder(boxes)
  {
    heap := new ConnectionHeap();
    PushPairs(heap, boxes);
    HeapOrder(heap.queue, boxes);
  }

  /** The loops of `all_pairs`: every pair of boxes pushed, in `combinations(2)` order. */
  method PushPairs(heap: ConnectionHeap, boxes: seq<JunctionBox>)
    requires heap.Valid() && heap.queue == []
    modifies heap
    ensures heap.Valid() && multiset(heap.queue) == multiset(Pairs(boxes))
  {
    for i := 0 to |boxes|
      invariant heap.Valid() && multiset(heap.queue) == multiset(PairsBefore(boxes, i))
    {
      PushRow(heap, boxes, i);
    }
  }

  /** The order in which a heap of every pair of `boxes` hands them out. */
  function PopOrder(boxes: seq<JunctionBox>): seq<Connection> {
    Sorting.Sort(Pairs(boxes), ConnLe)
  }

  /** The heap hands out every pair once, shortest first. */
  lemma PopOrderShortestFirst(boxes: seq<JunctionBox>)
    ensures multiset(PopOrder(boxes)) == multiset(Pairs(boxes))
    ensures forall i, j :: 0 <= i < j < |PopOrder(boxes)| ==>
              PopOrder(boxes)[i].distance <= PopOrder(boxes)[j].distance
  {
    ConnLeOrder();
    Sorting.SortSorted(Pairs(boxes), ConnLe);
  }

  /** A sorted queue holding every pair of `boxes` is `PopOrder`: the pop order is determined. */
  lemma HeapOrder(q: seq<Connection>, boxes: seq<JunctionBox>)
    requires Ordered(q) && multiset(q) == multiset(Pairs(boxes))
    ensures q == PopOrder(boxes)
  {
    OrderedSorted(q);
    var s := Pairs(boxes);
    ConnLeOrder();
    Sorting.SortSorted(s, ConnLe);
    Sorting.SortedUnique(q, Sorting.Sort(s, ConnLe), ConnLe);
  }

  /** The inner loop of `all_pairs`: box `i` connected to every later box. */
  /** Extending a prefix of row `i` by one connection adds the connection to box `j`. */
  lemma RowPrefixStep(boxes: seq<JunctionBox>, i: nat, j: nat)
    requires i < j < |boxes|
    ensures multiset(Row(boxes, i)[..j - i]) == multiset(Row(boxes, i)[..j - i - 1]) + multiset{Connect(boxes[i], boxes[j])}
  {
    var row := Row(boxes, i);
    assert row[..j - i] == row[..j - i - 1] + [Connect(boxes[i], boxes[j])];
  }

  method PushRow(heap: ConnectionHeap, boxes: seq<JunctionBox>, i: nat)
    requires i < |boxes| && heap.Valid()
    modifies heap
    ensures heap.Valid()
    ensures multiset(heap.queue) == multiset(old(heap.queue)) + multiset(Row(boxes, i))
  {
    ghost var start := multiset(heap.queue);
    ghost var row := Row(boxes, i);
    for j := i + 1 to |boxes|
      invariant heap.Valid() && multiset(heap.queue) == start + multiset(row[..j - i - 1])
    {
      heap.Push(Connect(boxes[i], boxes[j]));
      RowPrefixStep(boxes, i, j);
    }
    assert row[..|boxes| - i - 1] == row;
  }

  /** The circuits after inserting the connections of `cs` in order into an empty disjoint set. */
  function Joined(cs: seq<Connection>): seq<set<JunctionBox>> {
    if cs == [] then []
    else Inserted(Joined(cs[..|cs| - 1]), cs[|cs| - 1].c1, cs[|cs| - 1].c2)
  }

  lemma {:induction false} JoinedDisjoint(cs: seq<Connection>)
    ensures PairwiseDisjoint(Joined(cs))
  {
    if cs != [] {
      JoinedDisjoint(cs[..|cs| - 1]);
      InsertedDisjoint(Joined(cs[..|cs| - 1]), cs[|cs| - 1].c1, cs[|cs| - 1].c2);
    }
  }

  /** Every connection joined leaves its two boxes in one circuit. */
  lemma {:induction false} JoinedConnects(cs: seq<Connection>, k: nat)
    requires k < |cs|
    ensures Together(Joined(cs), cs[k].c1, cs[k].c2)
  {
    var init := cs[..|cs| - 1];
    var last := cs[|cs| - 1];
    if k == |cs| - 1 {
      JoinedDisjoint(init);
      InsertedJoins(Joined(init), last.c1, last.c2);
    } else {
      JoinedConnects(init, k);
      assert init[k] == cs[k];
      var a :| 0 <= a < |Joined(init)| && cs[k].c1 in Joined(init)[a] && cs[k].c2 in Joined(init)[a];
      InsertedKeeps(Joined(init), last.c1, last.c2, cs[k].c1, cs[k].c2, a);
    }
  }

  /** A box is in some circuit exactly when it is an end of some connection joined. */
  lemma {:induction false} JoinedCovers(cs: seq<Connection>, e: JunctionBox)
    ensures Covered(Joined(cs), e) <==> exists k :: 0 <= k < |cs| && (e == cs[k].c1 || e == cs[k].c2)
  {
    if cs != [] {
      var init := cs[..|cs| - 1];
      var last := cs[|cs| - 1];
      JoinedCovers(init, e);
      JoinedDisjoint(init);
      InsertedCovers(Joined(init), last.c1, last.c2, e);
      if exists k :: 0 <= k < |cs| && (e == cs[k].c1 || e == cs[k].c2) {
        var k :| 0 <= k < |cs| && (e == cs[k].c1 || e == cs[k].c2);
        if k < |cs| - 1 {
          assert init[k] == cs[k];
        }
      }
    }
  }

  /** `add_connection`: the two boxes of the connection are inserted together. */
  method AddConnection(circuits: DisjointSet<JunctionBox>, conn: Connection)
    requires circuits.Valid()
    modifies circuits
    ensures circuits.Valid() && circuits.sets == Inserted(old(circuits.sets), conn.c1, conn.c2)
  {
    circuits.Insert(conn.c1, conn.c2);
  }

  /**
   * `join_circuits(k)`: the first `k` connections popped, joined into fresh
   * circuits. `pop().unwrap()` panics on an empty heap, so the heap must
   * hold at least `k` connections.
   */
  method JoinCircuits(heap: ConnectionHeap, k: nat) returns (circuits: DisjointSet<JunctionBox>)
    requires heap.Valid() && k <= |heap.queue|
    modifies heap
    ensures fresh(circuits) && circuits.Valid() && heap.Valid()
    ensures circuits.sets == Joined(old(heap.queue)[..k])
    ensures heap.queue == old(heap.queue)[k..]
  {
    circuits := new DisjointSet();
    ghost var q := heap.queue;
    for i := 0 to k
      invariant heap.Valid() && heap.queue == q[i..]
      invariant circuits.Valid() && circuits.sets == Joined(q[..i])
    {
      var conn := heap.Pop();
      AddConnection(circuits, conn.value);
      assert q[..i + 1][..i] == q[..i];
    }
  }

  /** A single circuit holding `n` boxes. */
  predicate OneCircuit(sets: seq<set<JunctionBox>>, n: nat) {
    |sets| == 1 && |sets[0]| == n
  }

  /** No prefix of `q` of length `1 ..= k` joins into a single circuit of `n` boxes. */
  predicate NeverOne(q: seq<Connection>, n: nat, k: nat)
    requires k <= |q|
  {
    forall i :: 1 <= i <= k ==> !OneCircuit(Joined(q[..i]), n)
  }

  lemma NeverOneStep(q: seq<Connection>, n: nat, i: nat)
    requires i < |q| && NeverOne(q, n, i) && !OneCircuit(Joined(q[..i + 1]), n)
    ensures NeverOne(q, n, i + 1)
  {
  }

  /** The `k`-th connection of `q` is the first whose join leaves a single circuit of `n` boxes. */
  predicate FirstCompletion(q: seq<Connection>, n: nat, k: nat) {
    1 <= k <= |q| && OneCircuit(Joined(q[..k]), n) && NeverOne(q, n, k - 1)
  }

  /**
   * `join_all_circuits`: connections are popped and joined until a single
   * circuit holds `boxes.len()` boxes, and the connection that completed it
   * is returned; `None` when the heap runs out first.
   */
  method JoinAllCircuits(heap: ConnectionHeap, boxes: seq<JunctionBox>) returns (r: Option<(JunctionBox, JunctionBox)>)
    requires heap.Valid()
    modifies heap
    ensures heap.Valid()
    ensures r.None? ==> heap.queue == [] && NeverOne(old(heap.queue), |boxes|, |old(heap.queue)|)
    ensures r.Some? ==>
              exists k: nat :: FirstCompletion(old(heap.queue), |boxes|, k) &&
                r.value == (old(heap.queue)[k - 1].c1, old(heap.queue)[k - 1].c2) && heap.queue == old(heap.queue)[k..]
  {
    var circuits := new DisjointSet();
    ghost var q := heap.queue;
    ghost var i := 0;
    while true
      invariant i <= |q| && heap.Valid() && heap.queue == q[i..]
      invariant circuits.Valid() && circuits.sets == Joined(q[..i])
      invariant NeverOne(q, |boxes|, i)
      decreases |heap.queue|
    {
      var conn := heap.Pop();
      if conn.None? {
        assert q[..i] == q;
        return None;
      }
      AddConnection(circuits, conn.value);
      assert q[..i + 1][..i] == q[..i];
      if circuits.Len() == 1 && |circuits.Iter()[0]| == |boxes| {
        assert FirstCompletion(q, |boxes|, i + 1);
        return Some((conn.value.c1, conn.value.c2));
      }
      NeverOneStep(q, |boxes|, i);
      i := i + 1;
    }
  }

  lemma {:induction false} SeqSetCard<T>(s: seq<T>)
    ensures |set x | x in s| <= |s|
  {
    if s != [] {
      SeqSetCard(s[1..]);
      assert (set x | x in s) == {s[0]} + (set x | x in s[1..]);
    }
  }

  /**
   * When the connections joined link only boxes of `boxes` and leave a
   * single circuit of `|boxes|` boxes, that circuit is every box and the
   * boxes are distinct: among boxes with a repeated position
   * `join_all_circuits` can only return `None`.
   */
  lemma OneCircuitSpans(cs: seq<Connection>, boxes: seq<JunctionBox>)
    requires forall k :: 0 <= k < |cs| ==> cs[k].c1 in boxes && cs[k].c2 in boxes
    requires OneCircuit(Joined(cs), |boxes|)
    ensures Joined(cs)[0] == set b | b in boxes
    ensures |set b | b in boxes| == |boxes|
  {
    var all := set b | b in boxes;
    var c := Joined(cs)[0];
    forall e | e in c ensures e in all {
      assert Covered(Joined(cs), e);
      JoinedCovers(cs, e);
    }
    SeqSetCard(boxes);
    assert |all - c| == |all| - |c|;
    assert all - c == {};
    assert all == c;
  }

  /** The product of the sizes of the first `take` circuits (of all of them when there are fewer). */
  function TopProduct(sets: seq<set<JunctionBox>>, take: nat): nat {
    if take == 0 || sets == [] then 1 else |sets[0]| * TopProduct(sets[1..], take - 1)
  }

  /**
   * `product_top_circuits`: the circuits are sorted largest first and the
   * sizes of the first `take` multiplied; the `usize` product must not
   * overflow.
   */
  method ProductTopCircuits(circuits: DisjointSet<JunctionBox>, take: nat) returns (p: nat)
    requires circuits.Valid()
    requires TopProduct(Sorting.Sort(circuits.sets, NoSmaller), take) <= U64_MAX
    modifies circuits
    ensures circuits.Valid() && circuits.sets == Sorting.Sort(old(circuits.sets), NoSmaller)
    ensures p == TopProduct(circuits.sets, take)
  {
    circuits.Sort();
    p := TopProduct(circuits.Iter(), take);
  }

  /**
   * The circuits `product_top_circuits` multiplies are the largest: after
   * the sort they are the same circuits, and each of the first `take` is
   * at least as large as every circuit after it.
   */
  lemma TopCircuitsLargest(sets: seq<set<JunctionBox>>, take: nat)
    ensures multiset(Sorting.Sort(sets, NoSmaller)) == multiset(sets)
    ensures forall i, j :: 0 <= i < take && i < j < |sets| ==>
              |Sorting.Sort(sets, NoSmaller)[i]| >= |Sorting.Sort(sets, NoSmaller)[j]|
  {
    SortBySize(sets, {});
  }

  /** Every factor of the product is the size of a circuit, so a circuit left empty zeroes it. */
  lemma {:induction false} TopProductPositive(sets: seq<set<JunctionBox>>, take: nat)
    ensures (forall i :: 0 <= i < |sets| ==> sets[i] != {}) ==> TopProduct(sets, take) >= 1
    ensures (exists i :: 0 <= i < take && i < |sets| && sets[i] == {}) ==> TopProduct(sets, take) == 0
  {
    if take > 0 && sets != [] {
      TopProductPositive(sets[1..], take - 1);
      if forall i :: 0 <= i < |sets| ==> sets[i] != {} {
        assert sets[0] != {};
        assert forall i :: 0 <= i < |sets[1..]| ==> sets[1..][i] == sets[i + 1];
        assert |sets[0]| >= 1;
      }
      if exists i :: 0 <= i < take && i < |sets| && sets[i] == {} {
        var i :| 0 <= i < take && i < |sets| && sets[i] == {};
        if i > 0 {
          assert sets[1..][i - 1] == {};
        }
      }
    }
  }
}
