/**
 * `y2024/day5.rs`: page-ordering rules `b|a` ("page `b` goes before page
 * `a`"), kept in two mirrored maps; an update is a list of pages, valid
 * when no page comes after a page it must precede. `fix` reorders an
 * invalid update; the loop as written loses pages or never ends (see
 * `StepAsWritten`), so the model also gives the evidently intended
 * reordering, `Fixed`, and proves that it obeys the rules.
 */
module Y2024Day5 {
  import opened Wrappers
  import opened Strings

  /** The set stored under `k`, or the empty set (`entry(k).or_insert(HashSet::new())`). */
  function Lookup(m: map<nat, set<nat>>, k: nat): (r: set<nat>)
    ensures k in m ==> r == m[k]
    ensures k !in m ==> r == {}
  {
    if k in m then m[k] else {}
  }

  /** `"b|a"`: the first two `|`-separated pieces as `u32`; anything after them is ignored. */
  function ParseRule(line: string): (r: Option<(nat, nat)>)
    ensures r.Some? ==> r.value.0 <= U32_MAX && r.value.1 <= U32_MAX
  {
    var parts := Split(line, '|');
    if |parts| < 2 then None
    else
      var b := ParseUnsigned(parts[0], U32_MAX);
      var a := ParseUnsigned(parts[1], U32_MAX);
      if b.None? || a.None? then None else Some((b.value, a.value))
  }

  /** Parsing the rendering `b|a` of a rule gives the rule back. */
  lemma ParseRuleShow(b: nat, a: nat)
    requires b <= U32_MAX && a <= U32_MAX
    ensures ParseRule(Show(b) + "|" + Show(a)) == Some((b, a))
  {
    var pieces := [Show(b), Show(a)];
    assert Join(pieces, '|') == Show(b) + "|" + Show(a);
    assert forall i :: 0 <= i < |pieces| ==> '|' !in pieces[i] by {
      forall i, j | 0 <= i < |pieces| && 0 <= j < |pieces[i]| ensures pieces[i][j] != '|' {
        assert IsDigit(pieces[i][j]);
      }
    }
    SplitJoin(pieces, '|');
    ParseShow(b, U32_MAX);
    ParseShow(a, U32_MAX);
  }

  /** `find_middle`: the middle page; panics on an empty update. */
  function FindMiddle(u: seq<nat>): (r: nat)
    requires |u| > 0
  {
    u[|u| / 2]
  }

  /** The middle page of an odd-length update has as many pages before it as after it. */
  lemma FindMiddleBalanced(u: seq<nat>)
    requires |u| % 2 == 1
    ensures exists l, r :: u == l + [FindMiddle(u)] + r && |l| == |r|
  {
    var m := |u| / 2;
    assert u == u[..m] + [FindMiddle(u)] + u[m + 1..];
  }

  class Rules {
    /** `rules_before`: page `b` to the pages `a` with a rule `b|a`. */
    var before: map<nat, set<nat>>
    /** `rules_after`: page `a` to the pages `b` with a rule `b|a`. */
    var after: map<nat, set<nat>>

    /** The rule `b|a` is recorded in `rules_before`. */
    predicate Before(b: nat, a: nat)
      reads this
    {
      b in before && a in before[b]
    }

    /** The rule `b|a` is recorded in `rules_after`. */
    predicate After(b: nat, a: nat)
      reads this
    {
      a in after && b in after[a]
    }

    /** The two maps record the same rules. */
    ghost predicate Mirrored()
      reads this
    {
      forall b, a :: Before(b, a) <==> After(b, a)
    }

    /** `Rules::new`: no rules. */
    constructor ()
      ensures before == map[] && after == map[]
      ensures Mirrored()
    {
      before := map[];
      after := map[];
    }

    /** `add_rule`: records `b|a` in both maps, keeping them mirrored. */
    method AddRule(b: nat, a: nat)
      modifies this
      ensures before == old(before)[b := Lookup(old(before), b) + {a}]
      ensures after == old(after)[a := Lookup(old(after), a) + {b}]
      ensures forall x, y :: Before(x, y) <==> old(Before(x, y)) || (x == b && y == a)
      ensures old(Mirrored()) ==> Mirrored()
    {
      before := before[b := Lookup(before, b) + {a}];
      after := after[a := Lookup(after, a) + {b}];
    }

    /** `parse_and_add_rule`: panics unless the line is `b|a` with two `u32`s. */
    method ParseAndAddRule(input: string)
      requires ParseRule(input).Some?
      modifies this
      ensures var (b, a) := ParseRule(input).value;
              && before == old(before)[b := Lookup(old(before), b) + {a}]
              && after == old(after)[a := Lookup(old(after), a) + {b}]
      ensures old(Mirrored()) ==> Mirrored()
    {
      var rule := ParseRule(input).value;
      AddRule(rule.0, rule.1);
    }

    /** No page of `u` comes after a page that its rules say must follow it. */
    predicate InOrder(u: seq<nat>)
      reads this
    {
      forall i, j :: 0 <= i < j < |u| ==> !Before(u[j], u[i])
    }

    /**
     * `validate`: walks the update keeping the pages seen so far, and fails
     * at the first page that must precede one of them.
     */
    method Validate(u: seq<nat>) returns (ok: bool)
      ensures ok == InOrder(u)
    {
      var visited: set<nat> := {};
      for k := 0 to |u|
        invariant visited == set i | 0 <= i < k :: u[i]
        invariant forall i, j :: 0 <= i < j < k ==> !Before(u[j], u[i])
      {
        if u[k] in before && !(visited !! before[u[k]]) {
          ghost var v :| v in visited && v in before[u[k]];
          ghost var i :| 0 <= i < k && u[i] == v;
          assert Before(u[k], u[i]);
          return false;
        }
        visited := visited + {u[k]};
      }
      return true;
    }

    /**
     * A page of `rem` that no other page of `rem` must precede
     * (`rules_after` holds none of them for it).
     */
    predicate Free(rem: seq<nat>, x: nat)
      reads this
    {
      forall k :: 0 <= k < |rem| ==> !After(rem[k], x)
    }

    /** The first index at or after `k` whose page is free, or `|rem|`. */
    function FirstFree(rem: seq<nat>, k: nat): (i: nat)
      reads this
      requires k <= |rem|
      ensures k <= i <= |rem|
      ensures i < |rem| ==> Free(rem, rem[i])
      ensures forall j :: k <= j < i ==> !Free(rem, rem[j])
      decreases |rem| - k
    {
      if k == |rem| then |rem| else if Free(rem, rem[k]) then k else FirstFree(rem, k + 1)
    }

    /** The first free page of `rem`, or its first page when none is free (a cycle of rules). */
    function Pick(rem: seq<nat>): (i: nat)
      reads this
      requires |rem| > 0
      ensures i < |rem|
      ensures (exists k :: 0 <= k < |rem| && Free(rem, rem[k])) ==> Free(rem, rem[i])
    {
      var i := FirstFree(rem, 0);
      if i < |rem| then i else 0
    }

    /** The corrected `fix`: repeatedly takes out the first page that no remaining page must precede. */
    function Fixed(rem: seq<nat>): (r: seq<nat>)
      reads this
      ensures |r| == |rem|
      decreases |rem|
    {
      if rem == [] then []
      else
        var i := Pick(rem);
        [rem[i]] + Fixed(rem[..i] + rem[i + 1..])
    }

    /** Finds `Pick(rem)` by scanning for the first free page. */
    method FindFree(rem: seq<nat>) returns (i: nat)
      requires |rem| > 0
      ensures i == Pick(rem)
    {
      var k := 0;
      while k < |rem| && !Free(rem, rem[k])
        invariant 0 <= k <= |rem|
        invariant FirstFree(rem, k) == FirstFree(rem, 0)
      {
        k := k + 1;
      }
      i := if k < |rem| then k else 0;
    }

    /**
     * `fix`, corrected: moves the first free page of what remains of the
     * update to the end of the result until nothing remains.
     */
    method Fix(input: seq<nat>) returns (sorted: seq<nat>)
      ensures sorted == Fixed(input)
    {
      var rem := input;
      sorted := [];
      while rem != []
        invariant sorted + Fixed(rem) == Fixed(input)
        decreases |rem|
      {
        var i := FindFree(rem);
        var rest := rem[..i] + rem[i + 1..];
        assert Fixed(rem) == [rem[i]] + Fixed(rest);
        AppendAssoc(sorted, [rem[i]], Fixed(rest));
        sorted := sorted + [rem[i]];
        rem := rest;
      }
    }
  }

  lemma AppendAssoc(a: seq<nat>, b: seq<nat>, c: seq<nat>)
    ensures (a + b) + c == a + (b + c)
  {
  }

  /** The corrected `fix` returns a permutation of the update: no page is lost or repeated. */
  lemma {:induction false} FixedPermutation(rules: Rules, rem: seq<nat>)
    ensures multiset(rules.Fixed(rem)) == multiset(rem)
    decreases |rem|
  {
    if rem != [] {
      var i := rules.Pick(rem);
      var rest := rem[..i] + rem[i + 1..];
      FixedPermutation(rules, rest);
      assert rem == rem[..i] + [rem[i]] + rem[i + 1..];
      assert multiset(rem) == multiset{rem[i]} + multiset(rest);
    }
  }

  /** The pages of an update, as a set. */
  function Pages(u: seq<nat>): (p: set<nat>)
    ensures forall x :: x in p <==> x in u
  {
    set x | x in u
  }

  /** `rank` strictly increases along every rule between pages of `pages`: the rules there have no cycle. */
  ghost predicate Ranked(rules: Rules, pages: set<nat>, rank: nat -> nat)
    reads rules
  {
    forall b, a :: b in pages && a in pages && rules.After(b, a) ==> rank(b) < rank(a)
  }

  /** An index of `rem` whose page has the least rank. */
  lemma {:induction false} LeastRank(rem: seq<nat>, rank: nat -> nat) returns (m: nat)
    requires |rem| > 0
    ensures m < |rem| && forall k :: 0 <= k < |rem| ==> rank(rem[m]) <= rank(rem[k])
  {
    if |rem| == 1 {
      m := 0;
    } else {
      var m' := LeastRank(rem[1..], rank);
      m := if rank(rem[0]) <= rank(rem[m' + 1]) then 0 else m' + 1;
      forall k | 0 <= k < |rem| ensures rank(rem[m]) <= rank(rem[k]) {
        if k > 0 {
          assert rem[k] == rem[1..][k - 1];
        }
      }
    }
  }

  /** When the rules among the pages have no cycle, some remaining page is free. */
  lemma SomeFree(rules: Rules, rem: seq<nat>, rank: nat -> nat)
    requires |rem| > 0 && Ranked(rules, Pages(rem), rank)
    ensures exists k :: 0 <= k < |rem| && rules.Free(rem, rem[k])
  {
    var m := LeastRank(rem, rank);
    forall k | 0 <= k < |rem| ensures !rules.After(rem[k], rem[m]) {
      assert rem[k] in Pages(rem) && rem[m] in Pages(rem);
    }
    assert rules.Free(rem, rem[m]);
  }

  /**
   * When the rules among the pages of an update have no cycle, the
   * corrected `fix` puts every page after every page it must follow.
   */
  lemma {:induction false} FixedValid(rules: Rules, rem: seq<nat>, rank: nat -> nat)
    requires rules.Mirrored() && Ranked(rules, Pages(rem), rank)
    ensures rules.InOrder(rules.Fixed(rem))
    decreases |rem|
  {
    if rem != [] {
      var i := rules.Pick(rem);
      var rest := rem[..i] + rem[i + 1..];
      RestWithin(rem, i);
      SomeFree(rules, rem, rank);
      FixedValid(rules, rest, rank);
      var tail := rules.Fixed(rest);
      FixedPermutation(rules, rest);
      forall y | y in tail ensures !rules.After(y, rem[i]) {
        assert y in multiset(tail);
        assert y in rem;
      }
      HeadInOrder(rules, rem[i], tail);
    }
  }

  /** The pages left after taking out index `i` are pages of `rem`. */
  lemma RestWithin(rem: seq<nat>, i: nat)
    requires i < |rem|
    ensures forall x :: x in rem[..i] + rem[i + 1..] ==> x in rem
    ensures Pages(rem[..i] + rem[i + 1..]) <= Pages(rem)
  {
  }

  /** A page that no page of an ordered `tail` must precede can go in front of it. */
  lemma HeadInOrder(rules: Rules, x: nat, tail: seq<nat>)
    requires rules.Mirrored() && rules.InOrder(tail)
    requires forall y :: y in tail ==> !rules.After(y, x)
    ensures rules.InOrder([x] + tail)
  {
    var r := [x] + tail;
    forall p, q | 0 <= p < q < |r| ensures !rules.Before(r[q], r[p]) {
      assert r[q] == tail[q - 1];
      if p > 0 {
        assert r[p] == tail[p - 1];
      } else {
        assert r[q] in tail;
      }
    }
  }

  /**
   * The example's last three updates are rejected: `[75, 97, ..]` breaks
   * `97|75`, `[61, 13, 29]` breaks `29|13` and `[97, 13, 75, ..]` breaks
   * `75|13`.
   */
  lemma RejectedExamples(rules: Rules, u3: seq<nat>, u4: seq<nat>, u5: seq<nat>)
    requires u3 == [75, 97, 47, 61, 53] && u4 == [61, 13, 29] && u5 == [97, 13, 75, 29, 47]
    requires rules.Before(97, 75) && rules.Before(29, 13) && rules.Before(75, 13)
    ensures !rules.InOrder(u3) && !rules.InOrder(u4) && !rules.InOrder(u5)
  {
    assert rules.Before(u3[1], u3[0]);
    assert rules.Before(u4[2], u4[1]);
    assert rules.Before(u5[2], u5[1]);
  }

  /** `sum_middle_valid_updates`: the sum of the middle pages of the updates in order. */
  function SumMiddleValid(rules: Rules, updates: seq<seq<nat>>): (s: nat)
    reads rules
    requires forall k :: 0 <= k < |updates| && rules.InOrder(updates[k]) ==> |updates[k]| > 0
  {
    if updates == [] then 0
    else
      var u := updates[|updates| - 1];
      SumMiddleValid(rules, updates[..|updates| - 1]) + (if rules.InOrder(u) then FindMiddle(u) else 0)
  }

  /** Only valid updates contribute: removing an invalid one does not change the sum. */
  lemma {:induction false} SumMiddleValidSkips(rules: Rules, a: seq<seq<nat>>, u: seq<nat>, b: seq<seq<nat>>)
    requires forall k :: 0 <= k < |a + [u] + b| && rules.InOrder((a + [u] + b)[k]) ==> |(a + [u] + b)[k]| > 0
    requires !rules.InOrder(u)
    ensures forall k :: 0 <= k < |a + b| && rules.InOrder((a + b)[k]) ==> |(a + b)[k]| > 0
    ensures SumMiddleValid(rules, a + [u] + b) == SumMiddleValid(rules, a + b)
    decreases |b|
  {
    assert forall k :: 0 <= k < |a + b| ==> (a + b)[k] == (a + [u] + b)[if k < |a| then k else k + 1];
    if b == [] {
      assert a + [u] + b == a + [u] && (a + [u])[..|a|] == a && a + b == a;
    } else {
      var b' := b[..|b| - 1];
      assert (a + [u] + b)[..|a + [u] + b| - 1] == a + [u] + b';
      assert (a + b)[..|a + b| - 1] == a + b';
      assert forall k :: 0 <= k < |a + [u] + b'| ==> (a + [u] + b')[k] == (a + [u] + b)[k];
      SumMiddleValidSkips(rules, a, u, b');
    }
  }

  /** `sum_middle_fixed_updates`, with the corrected `fix`: the middle pages of the invalid updates once fixed. */
  function SumMiddleFixed(rules: Rules, updates: seq<seq<nat>>): (s: nat)
    reads rules
  {
    if updates == [] then 0
    else
      var u := updates[|updates| - 1];
      SumMiddleFixed(rules, updates[..|updates| - 1])
      + (if rules.InOrder(u) then 0 else assert |u| >= 2; FindMiddle(rules.Fixed(u)))
  }

  /** The state of the `fix` loop as written: the rest of the input, the stack, and the output. */
  datatype FixState = FixState(input: seq<nat>, stack: seq<nat>, sorted: seq<nat>)

  /** `input.pop_if(|y| y == x)`: drops the last page only, and only when it is `x`. */
  function PopIf(input: seq<nat>, x: nat): (r: seq<nat>)
    ensures r == input || (input != [] && r == input[..|input| - 1] && input[|input| - 1] == x)
  {
    if input != [] && input[|input| - 1] == x then input[..|input| - 1] else input
  }

  /** `for x in xs { stack.push(x); input.pop_if(|y| y == x) }`. */
  function PushAndPopIf(xs: seq<nat>, stack: seq<nat>, input: seq<nat>): (r: (seq<nat>, seq<nat>))
    ensures r.0 == stack + xs
    decreases |xs|
  {
    if xs == [] then (stack, input)
    else PushAndPopIf(xs[1..], stack + [xs[0]], PopIf(input, xs[0]))
  }

  /** `order` lists the elements of a set once each: a `HashSet` iteration order. */
  ghost predicate Enumerates(order: set<nat> -> seq<nat>) {
    forall s: set<nat> :: |order(s)| == |s| && forall x :: x in order(s) <==> x in s
  }

  /** A one-page set has one iteration order. */
  lemma EnumerateSingle(order: set<nat> -> seq<nat>, x: nat)
    requires Enumerates(order)
    ensures order({x}) == [x]
  {
    assert |order({x})| == 1 && order({x})[0] in order({x});
  }

  /** The page to place next: the top of the stack, else the last input page popped off. */
  function Take(st: FixState): (r: (nat, seq<nat>, seq<nat>))
    requires |st.input| > 0
  {
    if st.stack != [] then (st.stack[|st.stack| - 1], st.input, st.stack[..|st.stack| - 1])
    else (st.input[|st.input| - 1], st.input[..|st.input| - 1], st.stack)
  }

  /** The remaining input pages that must precede `current`. */
  function Remainder(rules: Rules, current: nat, input: seq<nat>): (r: set<nat>)
    reads rules
    ensures forall x :: x in r <==> x in input && rules.After(x, current)
  {
    if current in rules.after then set x | x in input && x in rules.after[current] else {}
  }

  /**
   * The body of the loop once `current` is taken: with pages to place first,
   * push them (`pop_if` each) and push `current` back; otherwise emit it.
   */
  function Expand(rules: Rules, order: set<nat> -> seq<nat>, current: nat, input: seq<nat>, stack: seq<nat>,
                  sorted: seq<nat>): FixState
    reads rules
  {
    var remainder := Remainder(rules, current, input);
    if |remainder| > 0 then
      var pushed := PushAndPopIf(order(remainder), stack, input);
      FixState(pushed.1, pushed.0 + [current], sorted)
    else FixState(input, stack, sorted + [current])
  }

  /**
   * One pass of the `fix` loop as written, the `HashSet` iteration order
   * given by `order`.
   */
  function StepAsWritten(rules: Rules, order: set<nat> -> seq<nat>, st: FixState): FixState
    reads rules
    requires |st.input| > 0
  {
    var t := Take(st);
    Expand(rules, order, t.0, t.1, t.2, st.sorted)
  }

  /** With exactly one page `x` to place first, `x` and then `current` are pushed and `x` maybe popped. */
  lemma ExpandSingle(rules: Rules, order: set<nat> -> seq<nat>, current: nat, input: seq<nat>,
                     stack: seq<nat>, sorted: seq<nat>, x: nat)
    requires Enumerates(order) && Remainder(rules, current, input) == {x}
    ensures Expand(rules, order, current, input, stack, sorted) == FixState(PopIf(input, x), stack + [x, current], sorted)
  {
    EnumerateSingle(order, x);
    assert [x][1..] == [];
    assert PushAndPopIf([x], stack, input) == (stack + [x], PopIf(input, x));
  }

  /** The `fix` loop as written, run for at most `fuel` passes: `None` if the input is still not empty. */
  function RunAsWritten(rules: Rules, order: set<nat> -> seq<nat>, st: FixState, fuel: nat): Option<seq<nat>>
    reads rules
    decreases fuel
  {
    if st.input == [] then Some(st.sorted)
    else if fuel == 0 then None
    else RunAsWritten(rules, order, StepAsWritten(rules, order, st), fuel - 1)
  }

  /**
   * As written, `fix` loses pages: with the rule `61|29`, the update
   * `[61, 29]` pushes both pages onto the stack, empties the input, and the
   * loop ends returning nothing.
   */
  lemma FixAsWrittenDropsPages(rules: Rules, order: set<nat> -> seq<nat>, fuel: nat)
    requires Enumerates(order) && rules.After(61, 29)
    ensures StepAsWritten(rules, order, FixState([61, 29], [], [])) == FixState([], [61, 29], [])
    ensures RunAsWritten(rules, order, FixState([61, 29], [], []), fuel + 1) == Some([])
  {
    var input: seq<nat> := [61];
    assert [61, 29][..1] == input;
    assert Take(FixState([61, 29], [], [])) == (29, input, []);
    assert Remainder(rules, 29, input) == {61};
    ExpandSingle(rules, order, 29, input, [], [], 61);
    assert PopIf(input, 61) == [];
  }

  function Repeat(x: nat, n: nat): (r: seq<nat>)
    ensures |r| == n && forall k :: 0 <= k < n ==> r[k] == x
  {
    if n == 0 then [] else Repeat(x, n - 1) + [x]
  }

  /** The looping state: `29` on top of ever more copies of `61`, the input stuck at `[61, 13]`. */
  function Stuck(n: nat): FixState {
    FixState([61, 13], Repeat(61, n) + [29], [])
  }

  /** With `61|29` and no `13|29`, the only page of `[61, 13]` to place before `29` is `61`. */
  lemma RemainderStuck(rules: Rules)
    requires rules.After(61, 29) && !rules.After(13, 29)
    ensures Remainder(rules, 29, [61, 13]) == {61}
    ensures PopIf([61, 13], 61) == [61, 13]
  {
    var r := Remainder(rules, 29, [61, 13]);
    assert forall x :: x in r <==> x == 61;
  }

  lemma StuckStep(rules: Rules, order: set<nat> -> seq<nat>, n: nat)
    requires Enumerates(order) && rules.After(61, 29) && !rules.After(13, 29)
    ensures StepAsWritten(rules, order, Stuck(n)) == Stuck(n + 1)
  {
    var st := Stuck(n);
    assert st.stack[..|st.stack| - 1] == Repeat(61, n);
    assert Take(st) == (29, [61, 13], Repeat(61, n));
    RemainderStuck(rules);
    ExpandSingle(rules, order, 29, [61, 13], Repeat(61, n), [], 61);
    assert Repeat(61, n) + [61, 29] == Repeat(61, n + 1) + [29];
  }

  lemma {:induction false} StuckForever(rules: Rules, order: set<nat> -> seq<nat>, n: nat, fuel: nat)
    requires Enumerates(order) && rules.After(61, 29) && !rules.After(13, 29)
    ensures RunAsWritten(rules, order, Stuck(n), fuel) == None
    decreases fuel
  {
    if fuel > 0 {
      StuckStep(rules, order, n);
      StuckForever(rules, order, n + 1, fuel - 1);
    }
  }

  /**
   * As written, `fix` never ends on `[61, 13, 29]` (the example's fifth
   * update) under rules with `61|29` and without `13|29`: `61` is pushed
   * but never popped from the input, since `13` is its last page.
   */
  lemma FixAsWrittenLoops(rules: Rules, order: set<nat> -> seq<nat>, fuel: nat)
    requires Enumerates(order) && rules.After(61, 29) && !rules.After(13, 29)
    ensures RunAsWritten(rules, order, FixState([61, 13, 29], [], []), fuel) == None
  {
    var st := FixState([61, 13, 29], [], []);
    if fuel > 0 {
      StuckStart(rules, order, st);
      StuckForever(rules, order, 1, fuel - 1);
    }
  }

  /** The first pass on `[61, 13, 29]` reaches the looping state. */
  lemma StuckStart(rules: Rules, order: set<nat> -> seq<nat>, st: FixState)
    requires Enumerates(order) && rules.After(61, 29) && !rules.After(13, 29)
    requires |st.input| == 3 && st.input[0] == 61 && st.input[1] == 13 && st.input[2] == 29
    requires st.stack == [] && st.sorted == []
    ensures StepAsWritten(rules, order, st) == Stuck(1)
  {
    assert st.input[..2] == [61, 13];
    assert Take(st) == (29, [61, 13], []);
    RemainderStuck(rules);
    ExpandSingle(rules, order, 29, [61, 13], [], [], 61);
    assert Repeat(61, 1) == [61];
  }

  /** One unfolding of `Fixed`. */
  lemma FixedStep(rules: Rules, rem: seq<nat>, i: nat)
    requires |rem| > 0 && rules.Pick(rem) == i
    ensures rules.Fixed(rem) == [rem[i]] + rules.Fixed(rem[..i] + rem[i + 1..])
  {
  }

  lemma PickFirst(rules: Rules, rem: seq<nat>)
    requires |rem| > 0 && rules.Free(rem, rem[0])
    ensures rules.Pick(rem) == 0
  {
  }

  lemma PickSecond(rules: Rules, rem: seq<nat>)
    requires |rem| > 1 && !rules.Free(rem, rem[0]) && rules.Free(rem, rem[1])
    ensures rules.Pick(rem) == 1
  {
    assert rules.FirstFree(rem, 0) == rules.FirstFree(rem, 1);
  }

  lemma FixedExampleLast(rules: Rules, r: seq<nat>)
    requires |r| == 1 && r[0] == 13 && !rules.After(13, 13)
    ensures rules.Fixed(r) == [13]
  {
    assert rules.Free(r, r[0]);
    PickFirst(rules, r);
    FixedStep(rules, r, 0);
    assert r[..0] + r[1..] == [];
  }

  lemma FixedExampleRest(rules: Rules, r: seq<nat>)
    requires |r| == 2 && r[0] == 13 && r[1] == 29 && rules.After(29, 13)
    requires !rules.After(13, 29) && !rules.After(29, 29) && !rules.After(13, 13)
    ensures rules.Fixed(r) == [29, 13]
  {
    assert !rules.Free(r, r[0]) by {
      assert rules.After(r[1], r[0]);
    }
    assert rules.Free(r, r[1]);
    PickSecond(rules, r);
    FixedStep(rules, r, 1);
    var r2 := r[..1] + r[2..];
    assert |r2| == 1 && r2[0] == 13;
    FixedExampleLast(rules, r2);
  }

  /**
   * The corrected `fix` gives the expected `[61, 29, 13]` for the example's
   * fifth update under the example's rules between its pages (`61|13`,
   * `29|13`, `61|29`).
   */
  lemma FixedExample(rules: Rules, u: seq<nat>)
    requires u == [61, 13, 29]
    requires rules.After(61, 13) && rules.After(29, 13) && rules.After(61, 29)
    requires !rules.After(13, 61) && !rules.After(29, 61) && !rules.After(61, 61)
    requires !rules.After(13, 29) && !rules.After(29, 29) && !rules.After(13, 13)
    ensures rules.Fixed(u) == [61, 29, 13]
  {
    FixedExampleStart(rules, u);
  }

  lemma FixedExampleStart(rules: Rules, u: seq<nat>)
    requires |u| == 3 && u[0] == 61 && u[1] == 13 && u[2] == 29
    requires rules.After(29, 13)
    requires !rules.After(13, 61) && !rules.After(29, 61) && !rules.After(61, 61)
    requires !rules.After(13, 29) && !rules.After(29, 29) && !rules.After(13, 13)
    ensures rules.Fixed(u) == [61, 29, 13]
  {
    assert rules.Free(u, u[0]);
    PickFirst(rules, u);
    FixedStep(rules, u, 0);
    var r1 := u[..0] + u[1..];
    assert |r1| == 2 && r1[0] == 13 && r1[1] == 29;
    FixedExampleRest(rules, r1);
  }
}
