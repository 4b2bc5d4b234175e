/**
 * `helpers/dag.rs`: a directed graph kept as a map from a node to its list
 * of children, and `count_paths`, which counts the paths from `start` to
 * `end` by popping and pushing an explicit stack.
 */
module Dags {
  import opened Wrappers

  /**
   * From `v`, every walk that does not stop at `end` only reaches nodes that
   * have an entry, and every edge it takes strictly lowers `rank`: the part
   * of the graph `count_paths` explores is acyclic and never hits the
   * `unwrap` of a missing entry.
   */
  ghost predicate Explorable<T(!new)>(nodes: map<T, seq<T>>, end: T, rank: T -> nat, v: T)
    decreases rank(v)
  {
    v == end ||
    (v in nodes && forall c :: c in nodes[v] ==> rank(c) < rank(v) && Explorable(nodes, end, rank, c))
  }

  /**
   * The number of ways to reach `end` from `v`, weighted: an arrival at `end`
   * scores `leaf`, every other node passed through scores `inner`. With
   * (1, 0) this counts the paths; with (1, 1) it counts the nodes the walk
   * visits, which is the number of pops `count_paths` makes.
   */
  ghost function Tally<T(!new)>(nodes: map<T, seq<T>>, end: T, rank: T -> nat, v: T, leaf: nat, inner: nat): nat
    requires Explorable(nodes, end, rank, v)
    decreases rank(v), 1
  {
    if v == end then leaf else inner + ChildTally(nodes, end, rank, nodes[v], rank(v), leaf, inner)
  }

  /** The sum of `Tally` over `cs`, every one of whose ranks lies below `bound`. */
  ghost function ChildTally<T(!new)>(nodes: map<T, seq<T>>, end: T, rank: T -> nat, cs: seq<T>, bound: nat,
                                     leaf: nat, inner: nat): nat
    requires forall c :: c in cs ==> rank(c) < bound && Explorable(nodes, end, rank, c)
    decreases bound, 0, |cs|
  {
    if cs == [] then 0
    else ChildTally(nodes, end, rank, cs[..|cs| - 1], bound, leaf, inner)
         + Tally(nodes, end, rank, cs[|cs| - 1], leaf, inner)
  }

  /** The number of paths from `v` to `end` that do not pass through `end` before their last node. */
  ghost function Paths<T(!new)>(nodes: map<T, seq<T>>, end: T, rank: T -> nat, v: T): nat
    requires Explorable(nodes, end, rank, v)
  {
    Tally(nodes, end, rank, v, 1, 0)
  }

  /** The sum of `Tally` over a stack of nodes. */
  ghost function StackTally<T(!new)>(nodes: map<T, seq<T>>, end: T, rank: T -> nat, s: seq<T>, leaf: nat, inner: nat): nat
    requires forall i :: 0 <= i < |s| ==> Explorable(nodes, end, rank, s[i])
  {
    if s == [] then 0
    else StackTally(nodes, end, rank, s[..|s| - 1], leaf, inner) + Tally(nodes, end, rank, s[|s| - 1], leaf, inner)
  }

  /** Pushing the children of a node onto a stack adds their `ChildTally`. */
  lemma {:induction false} StackTallyPush<T(!new)>(nodes: map<T, seq<T>>, end: T, rank: T -> nat,
                                                   base: seq<T>, cs: seq<T>, bound: nat, leaf: nat, inner: nat)
    requires forall i :: 0 <= i < |base| ==> Explorable(nodes, end, rank, base[i])
    requires forall c :: c in cs ==> rank(c) < bound && Explorable(nodes, end, rank, c)
    ensures forall i :: 0 <= i < |base + cs| ==> Explorable(nodes, end, rank, (base + cs)[i])
    ensures StackTally(nodes, end, rank, base + cs, leaf, inner)
         == StackTally(nodes, end, rank, base, leaf, inner) + ChildTally(nodes, end, rank, cs, bound, leaf, inner)
  {
    assert forall i :: 0 <= i < |base + cs| ==> (base + cs)[i] in base || (base + cs)[i] in cs;
    if cs != [] {
      var init := cs[..|cs| - 1];
      assert (base + cs)[..|base + cs| - 1] == base + init;
      StackTallyPush(nodes, end, rank, base, init, bound, leaf, inner);
    } else {
      assert base + cs == base;
    }
  }

  /** `Tally` depends on the graph only: any two ranks that witness acyclicity give the same value. */
  lemma {:induction false} TallyRankFree<T(!new)>(nodes: map<T, seq<T>>, end: T, r1: T -> nat, r2: T -> nat,
                                                  v: T, leaf: nat, inner: nat)
    requires Explorable(nodes, end, r1, v) && Explorable(nodes, end, r2, v)
    ensures Tally(nodes, end, r1, v, leaf, inner) == Tally(nodes, end, r2, v, leaf, inner)
    decreases r1(v), 1
  {
    if v != end {
      ChildTallyRankFree(nodes, end, r1, r2, nodes[v], r1(v), r2(v), leaf, inner);
    }
  }

  lemma {:induction false} ChildTallyRankFree<T(!new)>(nodes: map<T, seq<T>>, end: T, r1: T -> nat, r2: T -> nat,
                                                       cs: seq<T>, b1: nat, b2: nat, leaf: nat, inner: nat)
    requires forall c :: c in cs ==> r1(c) < b1 && Explorable(nodes, end, r1, c)
    requires forall c :: c in cs ==> r2(c) < b2 && Explorable(nodes, end, r2, c)
    ensures ChildTally(nodes, end, r1, cs, b1, leaf, inner) == ChildTally(nodes, end, r2, cs, b2, leaf, inner)
    decreases b1, 0, |cs|
  {
    if cs != [] {
      var init := cs[..|cs| - 1];
      assert forall c :: c in init ==> c in cs;
      ChildTallyRankFree(nodes, end, r1, r2, init, b1, b2, leaf, inner);
      TallyRankFree(nodes, end, r1, r2, cs[|cs| - 1], leaf, inner);
    }
  }

  /** From `end` itself there is exactly one path, whatever `end`'s children are. */
  lemma PathsAtEnd<T(!new)>(nodes: map<T, seq<T>>, end: T, rank: T -> nat)
    ensures Explorable(nodes, end, rank, end) && Paths(nodes, end, rank, end) == 1
  {
  }

  /** A node other than `end` has at least as many paths as any one of its children. */
  lemma PathsThroughChildren<T(!new)>(nodes: map<T, seq<T>>, end: T, rank: T -> nat, v: T, c: T)
    requires Explorable(nodes, end, rank, v) && v != end && c in nodes[v]
    ensures Explorable(nodes, end, rank, c)
    ensures Paths(nodes, end, rank, v) >= Paths(nodes, end, rank, c)
  {
    var cs := nodes[v];
    ChildTallyMember(nodes, end, rank, cs, rank(v), c);
  }

  lemma {:induction false} ChildTallyMember<T(!new)>(nodes: map<T, seq<T>>, end: T, rank: T -> nat,
                                                     cs: seq<T>, bound: nat, c: T)
    requires forall d :: d in cs ==> rank(d) < bound && Explorable(nodes, end, rank, d)
    requires c in cs
    ensures ChildTally(nodes, end, rank, cs, bound, 1, 0) >= Tally(nodes, end, rank, c, 1, 0)
  {
    var init := cs[..|cs| - 1];
    if c != cs[|cs| - 1] {
      assert cs == init + [cs[|cs| - 1]];
      assert forall d :: d in init ==> d in cs;
      ChildTallyMember(nodes, end, rank, init, bound, c);
    }
  }

  class Dag<T(==, !new)> {
    var nodes: map<T, seq<T>>

    /** `DirectedAcyclicGraph::new`: no nodes. */
    constructor ()
      ensures nodes == map[]
    {
      nodes := map[];
    }

    /** `DirectedAcyclicGraph::insert`: sets the children of `v`, replacing any earlier list. */
    method Insert(v: T, children: seq<T>)
      modifies this
      ensures nodes == old(nodes)[v := children]
      ensures v in nodes && nodes[v] == children
      ensures forall u :: u != v ==> (u in nodes <==> u in old(nodes)) && (u in nodes ==> nodes[u] == old(nodes)[u])
    {
      nodes := nodes[v := children];
    }

    /** `DirectedAcyclicGraph::get_children`: the stored list, or nothing for a node never inserted. */
    function GetChildren(v: T): (r: Option<seq<T>>)
      reads this
      ensures r.None? <==> v !in nodes
      ensures r.Some? ==> v in nodes && r.value == nodes[v]
    {
      if v in nodes then Some(nodes[v]) else None
    }

    /**
     * `DirectedAcyclicGraph::count_paths`: pops a node; `end` adds one to the
     * count and is not expanded, any other node pushes its children in order.
     */
    method CountPaths(start: T, end: T, ghost rank: T -> nat) returns (res: nat)
      requires Explorable(nodes, end, rank, start)
      ensures res == Paths(nodes, end, rank, start)
    {
      var stack := [start];
      res := 0;
      assert stack[..0] == [];
      while stack != []
        invariant forall i :: 0 <= i < |stack| ==> Explorable(nodes, end, rank, stack[i])
        invariant res + StackTally(nodes, end, rank, stack, 1, 0) == Paths(nodes, end, rank, start)
        decreases StackTally(nodes, end, rank, stack, 1, 1)
      {
        var x := stack[|stack| - 1];
        stack := stack[..|stack| - 1];
        if x == end {
          res := res + 1;
        } else {
          var children := GetChildren(x).value;
          ghost var base := stack;
          StackTallyPush(nodes, end, rank, base, children, rank(x), 1, 0);
          StackTallyPush(nodes, end, rank, base, children, rank(x), 1, 1);
          var k := 0;
          while k < |children|
            invariant 0 <= k <= |children|
            invariant stack == base + children[..k]
          {
            stack := stack + [children[k]];
            k := k + 1;
          }
          assert children[..k] == children;
        }
      }
    }
  }
}
