/**
 * `helpers/disjointset.rs`: clusters of elements kept as a list of disjoint
 * sets. `insert(x, y)` puts `x` and `y` in one cluster, creating, extending
 * or merging clusters; `sort` orders the clusters largest first.
 */
module DisjointSets {
  import opened Wrappers
  import Sorting

  /** A cluster that holds `x` or `y`. */
  predicate Meets<T(==)>(c: set<T>, x: T, y: T) {
    x in c || y in c
  }

  /** The index of the first cluster from `from` on that holds `x` or `y`. */
  function FirstMatch<T(==)>(sets: seq<set<T>>, x: T, y: T, from: nat): (r: Option<nat>)
    requires from <= |sets|
    ensures r.Some? ==> from <= r.value < |sets| && Meets(sets[r.value], x, y)
    ensures forall k :: from <= k < |sets| && (r.None? || k < r.value) ==> !Meets(sets[k], x, y)
    decreases |sets| - from
  {
    if from == |sets| then None
    else if Meets(sets[from], x, y) then Some(from)
    else FirstMatch(sets, x, y, from + 1)
  }

  /** `Vec::remove(j)`: the sequence without its element at `j`, the others in order. */
  function RemoveAt<T>(s: seq<T>, j: nat): (r: seq<T>)
    requires j < |s|
    ensures |r| == |s| - 1
    ensures forall a :: 0 <= a < |r| ==> r[a] == s[if a < j then a else a + 1]
  {
    s[..j] + s[j + 1..]
  }

  /**
   * The clusters after `insert(x, y)`: with no cluster meeting `{x, y}`, the
   * new cluster `{x, y}` is appended; if the first cluster that meets it holds
   * both, nothing changes; if it is the only one, `x` and `y` join it;
   * otherwise the second one is poured into the first and removed.
   */
  function Inserted<T(==)>(sets: seq<set<T>>, x: T, y: T): seq<set<T>> {
    match FirstMatch(sets, x, y, 0)
    case None => sets + [{x, y}]
    case Some(i) =>
      if x in sets[i] && y in sets[i] then sets
      else
        match FirstMatch(sets, x, y, i + 1)
        case None => sets[i := sets[i] + {x, y}]
        case Some(j) => RemoveAt(sets[i := sets[i] + sets[j]], j)
  }

  ghost predicate PairwiseDisjoint<T>(s: seq<set<T>>) {
    forall i, j :: 0 <= i < |s| && 0 <= j < |s| && i != j ==> s[i] * s[j] == {}
  }

  ghost predicate Covered<T>(s: seq<set<T>>, e: T) {
    exists k :: 0 <= k < |s| && e in s[k]
  }

  ghost predicate Together<T>(s: seq<set<T>>, e: T, f: T) {
    exists k :: 0 <= k < |s| && e in s[k] && f in s[k]
  }

  /** The number of clusters from index `from` on that meet `{x, y}`. */
  function MatchesFrom<T(==)>(s: seq<set<T>>, x: T, y: T, from: nat): nat
    requires from <= |s|
    decreases |s| - from
  {
    if from == |s| then 0 else (if Meets(s[from], x, y) then 1 else 0) + MatchesFrom(s, x, y, from + 1)
  }

  /** The number of clusters that meet `{x, y}`. */
  function MatchCount<T(==)>(s: seq<set<T>>, x: T, y: T): nat {
    MatchesFrom(s, x, y, 0)
  }

  /** Counting from `from`: none when there is no match, else one plus those after the first match. */
  lemma {:induction false} FirstMatchCount<T>(s: seq<set<T>>, x: T, y: T, from: nat)
    requires from <= |s|
    ensures FirstMatch(s, x, y, from).None? ==> MatchesFrom(s, x, y, from) == 0
    ensures FirstMatch(s, x, y, from).Some? ==>
              MatchesFrom(s, x, y, from) == 1 + MatchesFrom(s, x, y, FirstMatch(s, x, y, from).value + 1)
    decreases |s| - from
  {
    if from < |s| {
      FirstMatchCount(s, x, y, from + 1);
    }
  }

  /** In disjoint clusters, at most one cluster holds `x` and at most one holds `y`. */
  lemma OnlyHolder<T>(s: seq<set<T>>, e: T, a: nat, b: nat)
    requires PairwiseDisjoint(s) && a < |s| && b < |s| && e in s[a] && e in s[b]
    ensures a == b
  {
    assert e in s[a] * s[b];
  }

  /** In disjoint clusters, no cluster after the second one that meets `{x, y}` meets it. */
  lemma NoThirdMatch<T>(s: seq<set<T>>, x: T, y: T, i: nat, j: nat)
    requires PairwiseDisjoint(s) && i < j < |s| && Meets(s[i], x, y) && Meets(s[j], x, y)
    ensures FirstMatch(s, x, y, j + 1).None?
  {
    var m := FirstMatch(s, x, y, j + 1);
    if m.Some? {
      var k := m.value;
      if x in s[k] {
        if x in s[i] { OnlyHolder(s, x, i, k); }
        else if x in s[j] { OnlyHolder(s, x, j, k); }
        else { OnlyHolder(s, y, i, j); }
      } else {
        if y in s[i] { OnlyHolder(s, y, i, k); }
        else if y in s[j] { OnlyHolder(s, y, j, k); }
        else { OnlyHolder(s, x, i, j); }
      }
    }
  }

  /** Under disjointness, a first match holding both `x` and `y` is the only match. */
  lemma NoSecondMatch<T>(s: seq<set<T>>, x: T, y: T, i: nat)
    requires PairwiseDisjoint(s) && i < |s| && x in s[i] && y in s[i]
    ensures FirstMatch(s, x, y, i + 1).None?
  {
    var m := FirstMatch(s, x, y, i + 1);
    if m.Some? {
      if x in s[m.value] { OnlyHolder(s, x, i, m.value); } else { OnlyHolder(s, y, i, m.value); }
    }
  }

  /** `insert` keeps the clusters pairwise disjoint. */
  lemma InsertedDisjoint<T>(sets: seq<set<T>>, x: T, y: T)
    requires PairwiseDisjoint(sets)
    ensures PairwiseDisjoint(Inserted(sets, x, y))
  {
    var r := Inserted(sets, x, y);
    match FirstMatch(sets, x, y, 0)
    case None =>
      forall a, b | 0 <= a < |r| && 0 <= b < |r| && a != b ensures r[a] * r[b] == {} {
        if a < |sets| && b < |sets| {
          assert r[a] == sets[a] && r[b] == sets[b];
        }
      }
    case Some(i) =>
      if !(x in sets[i] && y in sets[i]) {
        match FirstMatch(sets, x, y, i + 1)
        case None =>
        case Some(j) =>
          var t := sets[i := sets[i] + sets[j]];
          forall a, b | 0 <= a < |t| && 0 <= b < |t| && a != b && a != j && b != j
            ensures t[a] * t[b] == {}
          {
            if a == i {
              assert sets[i] * sets[b] == {} && sets[j] * sets[b] == {};
            } else if b == i {
              assert sets[a] * sets[i] == {} && sets[a] * sets[j] == {};
            } else {
              assert t[a] == sets[a] && t[b] == sets[b];
            }
          }
          forall a, b | 0 <= a < |r| && 0 <= b < |r| && a != b ensures r[a] * r[b] == {} {
            var a', b' := if a < j then a else a + 1, if b < j then b else b + 1;
            assert r[a] == t[a'] && r[b] == t[b'];
          }
      }
  }

  /** Under disjointness, `insert(x, y)` leaves `x` and `y` in one cluster. */
  lemma InsertedJoins<T>(sets: seq<set<T>>, x: T, y: T)
    requires PairwiseDisjoint(sets)
    ensures Together(Inserted(sets, x, y), x, y)
  {
    var r := Inserted(sets, x, y);
    match FirstMatch(sets, x, y, 0)
    case None =>
      assert x in r[|sets|] && y in r[|sets|];
    case Some(i) =>
      if x in sets[i] && y in sets[i] {
        assert x in r[i] && y in r[i];
      } else {
        match FirstMatch(sets, x, y, i + 1)
        case None =>
          assert x in r[i] && y in r[i];
        case Some(j) =>
          if x in sets[i] {
            if x in sets[j] { OnlyHolder(sets, x, i, j); }
          } else {
            if y in sets[j] { OnlyHolder(sets, y, i, j); }
          }
          assert r[i] == sets[i] + sets[j];
          assert x in r[i] && y in r[i];
      }
  }

  /** Under disjointness, `insert(x, y)` covers what was covered before plus `x` and `y`. */
  lemma InsertedCovers<T>(sets: seq<set<T>>, x: T, y: T, e: T)
    requires PairwiseDisjoint(sets)
    ensures Covered(Inserted(sets, x, y), e) <==> Covered(sets, e) || e == x || e == y
  {
    var r := Inserted(sets, x, y);
    InsertedJoins(sets, x, y);
    var k :| 0 <= k < |r| && x in r[k] && y in r[k];
    if e == x || e == y {
      assert e in r[k];
    }
    if Covered(sets, e) {
      var a :| 0 <= a < |sets| && e in sets[a];
      InsertedKeeps(sets, x, y, e, e, a);
    }
    if Covered(r, e) && e != x && e != y {
      InsertedFrom(sets, x, y, e);
    }
  }

  /** Every element of a cluster after `insert(x, y)` other than `x` and `y` was in some cluster before. */
  lemma InsertedFrom<T>(sets: seq<set<T>>, x: T, y: T, e: T)
    requires Covered(Inserted(sets, x, y), e) && e != x && e != y
    ensures Covered(sets, e)
  {
    var r := Inserted(sets, x, y);
    var a :| 0 <= a < |r| && e in r[a];
    match FirstMatch(sets, x, y, 0)
    case None =>
      assert a < |sets| && e in sets[a];
    case Some(i) =>
      if x in sets[i] && y in sets[i] {
        assert e in sets[a];
      } else {
        match FirstMatch(sets, x, y, i + 1)
        case None =>
          assert e in sets[a];
        case Some(j) =>
          var a' := if a < j then a else a + 1;
          assert r[a] == sets[i := sets[i] + sets[j]][a'];
          if a' == i {
            assert e in sets[i] || e in sets[j];
          } else {
            assert e in sets[a'];
          }
      }
  }

  /** `insert` never separates two elements that shared a cluster. */
  lemma InsertedKeeps<T>(sets: seq<set<T>>, x: T, y: T, e: T, f: T, a: nat)
    requires a < |sets| && e in sets[a] && f in sets[a]
    ensures Together(Inserted(sets, x, y), e, f)
  {
    var r := Inserted(sets, x, y);
    match FirstMatch(sets, x, y, 0)
    case None =>
      assert r[a] == sets[a];
    case Some(i) =>
      if x in sets[i] && y in sets[i] {
        assert r[a] == sets[a];
      } else {
        match FirstMatch(sets, x, y, i + 1)
        case None =>
          assert sets[a] <= r[a];
        case Some(j) =>
          var t := sets[i := sets[i] + sets[j]];
          if a == j || a == i {
            assert r[i] == t[i] && sets[a] <= t[i];
          } else if a < j {
            assert r[a] == t[a] == sets[a];
          } else {
            assert r[a - 1] == t[a] == sets[a];
          }
      }
  }

  /**
   * Under disjointness, at most two clusters meet `{x, y}`, and `insert`
   * changes the number of clusters by one minus that number: +1 when none
   * does, 0 when one does, -1 when two do.
   */
  lemma InsertedLen<T>(sets: seq<set<T>>, x: T, y: T)
    requires PairwiseDisjoint(sets)
    ensures MatchCount(sets, x, y) <= 2
    ensures |Inserted(sets, x, y)| + MatchCount(sets, x, y) == |sets| + 1
  {
    MatchCountCases(sets, x, y);
    var r := Inserted(sets, x, y);
    match FirstMatch(sets, x, y, 0)
    case None =>
      assert |r| == |sets| + 1;
    case Some(i) =>
      if x in sets[i] && y in sets[i] {
        assert r == sets;
      } else {
        match FirstMatch(sets, x, y, i + 1)
        case None =>
          assert |r| == |sets|;
        case Some(j) =>
          assert |r| == |sets| - 1;
      }
  }

  /** The number of clusters meeting `{x, y}`, by the cases `insert` distinguishes. */
  lemma MatchCountCases<T>(sets: seq<set<T>>, x: T, y: T)
    requires PairwiseDisjoint(sets)
    ensures FirstMatch(sets, x, y, 0).None? ==> MatchCount(sets, x, y) == 0
    ensures FirstMatch(sets, x, y, 0).Some? ==>
              var i := FirstMatch(sets, x, y, 0).value;
              MatchCount(sets, x, y) == if (x in sets[i] && y in sets[i]) || FirstMatch(sets, x, y, i + 1).None? then 1 else 2
  {
    FirstMatchCount(sets, x, y, 0);
    match FirstMatch(sets, x, y, 0)
    case None =>
    case Some(i) =>
      FirstMatchCount(sets, x, y, i + 1);
      if x in sets[i] && y in sets[i] {
        NoSecondMatch(sets, x, y, i);
      } else {
        match FirstMatch(sets, x, y, i + 1)
        case None =>
        case Some(j) =>
          NoThirdMatch(sets, x, y, i, j);
          FirstMatchCount(sets, x, y, j + 1);
      }
  }

  /** Under disjointness, repeating an `insert` changes nothing. */
  lemma InsertedIdempotent<T>(sets: seq<set<T>>, x: T, y: T)
    requires PairwiseDisjoint(sets)
    ensures Inserted(Inserted(sets, x, y), x, y) == Inserted(sets, x, y)
  {
    var r := Inserted(sets, x, y);
    InsertedDisjoint(sets, x, y);
    InsertedJoins(sets, x, y);
    var k :| 0 <= k < |r| && x in r[k] && y in r[k];
    var m := FirstMatch(r, x, y, 0);
    assert Meets(r[k], x, y);
    if x in r[m.value] { OnlyHolder(r, x, k, m.value); } else { OnlyHolder(r, y, k, m.value); }
  }

  /** The `sort_by_key(|x| Reverse(x.len()))` order: a cluster goes before one that is no larger. */
  predicate NoSmaller<T>(a: set<T>, b: set<T>) {
    |a| >= |b|
  }

  lemma NoSmallerPreorder<T(!new)>()
    ensures Sorting.TotalPreorder(NoSmaller<T>)
  {
  }

  /** Sorting clusters by size: a permutation, sizes non-increasing, ties kept in their order. */
  lemma SortBySize<T(!new)>(sets: seq<set<T>>, k: set<T>)
    ensures multiset(Sorting.Sort(sets, NoSmaller)) == multiset(sets)
    ensures forall i, j :: 0 <= i < j < |sets| ==>
              |Sorting.Sort(sets, NoSmaller)[i]| >= |Sorting.Sort(sets, NoSmaller)[j]|
    ensures Sorting.Equivalents(Sorting.Sort(sets, NoSmaller), NoSmaller, k)
         == Sorting.Equivalents(sets, NoSmaller, k)
  {
    NoSmallerPreorder<T>();
    Sorting.SortSorted(sets, NoSmaller);
    Sorting.SortStable(sets, NoSmaller, k);
  }

  /** The clusters after the first of disjoint clusters are disjoint. */
  lemma TailDisjoint<T>(s: seq<set<T>>)
    requires s != [] && PairwiseDisjoint(s)
    ensures PairwiseDisjoint(s[1..])
  {
    forall a, b | 0 <= a < |s[1..]| && 0 <= b < |s[1..]| && a != b ensures s[1..][a] * s[1..][b] == {} {
      assert s[1..][a] == s[a + 1] && s[1..][b] == s[b + 1];
    }
  }

  /** A cluster disjoint from every one of disjoint clusters can be put in front of them. */
  lemma ConsDisjoint<T>(h: set<T>, t: seq<set<T>>)
    requires PairwiseDisjoint(t) && forall b :: 0 <= b < |t| ==> h * t[b] == {}
    ensures PairwiseDisjoint([h] + t)
  {
    var r := [h] + t;
    forall a, b | 0 <= a < |r| && 0 <= b < |r| && a != b ensures r[a] * r[b] == {} {
      if a == 0 {
        assert r[b] == t[b - 1];
      } else if b == 0 {
        assert r[a] == t[a - 1];
      } else {
        assert r[a] == t[a - 1] && r[b] == t[b - 1];
      }
    }
  }

  /** Inserting a cluster disjoint from all others into disjoint clusters keeps them disjoint. */
  lemma {:induction false} InsertKeepsDisjoint<T>(c: set<T>, s: seq<set<T>>, le: (set<T>, set<T>) -> bool)
    requires PairwiseDisjoint(s) && forall i :: 0 <= i < |s| ==> c * s[i] == {}
    ensures PairwiseDisjoint(Sorting.Insert(c, s, le))
  {
    if s != [] && !le(c, s[0]) {
      var t := Sorting.Insert(c, s[1..], le);
      TailDisjoint(s);
      InsertKeepsDisjoint(c, s[1..], le);
      forall b | 0 <= b < |t| ensures s[0] * t[b] == {} {
        assert t[b] in multiset(t);
        if t[b] == c {
          assert c * s[0] == {};
        } else {
          assert t[b] in multiset(s[1..]);
          var a :| 0 <= a < |s[1..]| && s[1..][a] == t[b];
          assert s[0] * s[a + 1] == {};
        }
      }
      ConsDisjoint(s[0], t);
    } else {
      ConsDisjoint(c, s);
    }
  }

  /** Sorting disjoint clusters keeps them disjoint. */
  lemma {:induction false} SortKeepsDisjoint<T>(s: seq<set<T>>, le: (set<T>, set<T>) -> bool)
    requires PairwiseDisjoint(s)
    ensures PairwiseDisjoint(Sorting.Sort(s, le))
  {
    if s != [] {
      var rest := s[1..];
      TailDisjoint(s);
      SortKeepsDisjoint(rest, le);
      var sorted := Sorting.Sort(rest, le);
      forall i | 0 <= i < |sorted| ensures s[0] * sorted[i] == {} {
        assert sorted[i] in multiset(rest);
        var a :| 0 <= a < |rest| && rest[a] == sorted[i];
        assert s[0] * s[a + 1] == {};
      }
      InsertKeepsDisjoint(s[0], sorted, le);
    }
  }

  class DisjointSet<T(==)> {
    var sets: seq<set<T>>

    ghost predicate Valid()
      reads this
    {
      PairwiseDisjoint(sets)
    }

    /** `DisjointSet::new`: no clusters. */
    constructor ()
      ensures Valid() && sets == [] && Len() == 0
    {
      sets := [];
    }

    /** `DisjointSet::insert`: scans for the first and the second cluster meeting `{x, y}`. */
    method Insert(x: T, y: T)
      requires Valid()
      modifies this
      ensures Valid() && sets == Inserted(old(sets), x, y)
    {
      InsertedDisjoint(sets, x, y);
      var i := 0;
      while i < |sets| && !Meets(sets[i], x, y)
        invariant 0 <= i <= |sets|
        invariant FirstMatch(sets, x, y, i) == FirstMatch(sets, x, y, 0)
      {
        i := i + 1;
      }
      if i == |sets| {
        sets := sets + [{x, y}];
        return;
      }
      if x in sets[i] && y in sets[i] {
        return;
      }
      var j := i + 1;
      while j < |sets| && !Meets(sets[j], x, y)
        invariant i + 1 <= j <= |sets|
        invariant FirstMatch(sets, x, y, j) == FirstMatch(sets, x, y, i + 1)
      {
        j := j + 1;
      }
      if j == |sets| {
        sets := sets[i := sets[i] + {x, y}];
        return;
      }
      sets := sets[i := sets[i] + sets[j]];
      sets := sets[..j] + sets[j + 1..];
    }

    /** `DisjointSet::iter`: the clusters in their current order. */
    function Iter(): seq<set<T>>
      reads this
    {
      sets
    }

    /** `DisjointSet::sort`: largest cluster first, stable among equal sizes. */
    method Sort()
      requires Valid()
      modifies this
      ensures Valid() && sets == Sorting.Sort(old(sets), NoSmaller)
    {
      SortKeepsDisjoint(sets, NoSmaller);
      sets := Sorting.Sort(sets, NoSmaller);
    }

    /** `DisjointSet::len`: the number of clusters. */
    function Len(): nat
      reads this
    {
      |sets|
    }
  }
}
