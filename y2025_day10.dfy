/**
 * `y2025/day10.rs`: machines with up to sixteen indicator lights, held as
 * a `u16` bit mask, and buttons that each toggle a set of lights (an XOR
 * with the button's mask). A mask is modelled here as the set of its set
 * bits: bit `i` is set when `i` is in the set, XOR is the symmetric
 * difference and OR the union. `find_min_presses` tries ever larger sets of
 * distinct buttons, in `combinations` order, until one set turns the
 * lights into the target pattern.
 *
 * The regular expression that splits a machine's line into the light
 * diagram, the button groups and the joltages is not part of this model:
 * the masks are built from those captured pieces on.
 */
module Y2025Day10 {
  import opened Wrappers
  import opened Strings

  /** The lights that are on (the set bits of a `u16`). */
  type Mask = set<nat>

  /** `a ^ b`: the lights on in exactly one of the two. */
  function Xor(a: Mask, b: Mask): (r: Mask)
    ensures forall n :: n in r <==> (n in a) != (n in b)
  {
    (a - b) + (b - a)
  }

  lemma XorSelf(a: Mask, b: Mask)
    ensures Xor(Xor(a, b), b) == a
  {
  }

  lemma XorAssoc(a: Mask, b: Mask, c: Mask)
    ensures Xor(Xor(a, b), c) == Xor(a, Xor(b, c))
  {
  }

  lemma XorEmpty(a: Mask)
    ensures Xor({}, a) == a
  {
  }

  /** Every index of `presses` names a button among `n`. */
  predicate InRange(presses: seq<nat>, n: nat) {
    forall i :: 0 <= i < |presses| ==> presses[i] < n
  }

  /** The lights after pressing `presses` in order, starting from `lights`. */
  function Press(lights: Mask, buttons: seq<Mask>, presses: seq<nat>): Mask
    requires InRange(presses, |buttons|)
  {
    if presses == [] then lights
    else Xor(Press(lights, buttons, presses[..|presses| - 1]), buttons[presses[|presses| - 1]])
  }

  /** Pressing the same button twice in a row changes nothing. */
  lemma PressTwice(lights: Mask, buttons: seq<Mask>, presses: seq<nat>, b: nat)
    requires InRange(presses, |buttons|) && b < |buttons|
    ensures InRange(presses + [b, b], |buttons|)
    ensures Press(lights, buttons, presses + [b, b]) == Press(lights, buttons, presses)
  {
    var once := presses + [b];
    assert (presses + [b, b])[..|presses| + 1] == once;
    assert once[..|presses|] == presses;
    XorSelf(Press(lights, buttons, presses), buttons[b]);
  }

  /** Pressing from any lights is the XOR of those lights with pressing from dark lights. */
  lemma {:induction false} PressFrom(lights: Mask, buttons: seq<Mask>, presses: seq<nat>)
    requires InRange(presses, |buttons|)
    ensures Press(lights, buttons, presses) == Xor(lights, Press({}, buttons, presses))
  {
    if presses == [] {
      assert Xor(lights, {}) == lights;
    } else {
      var init := presses[..|presses| - 1];
      PressFrom(lights, buttons, init);
      XorAssoc(lights, Press({}, buttons, init), buttons[presses[|presses| - 1]]);
    }
  }

  /** How many of `presses` toggle light `n`. */
  function Toggles(buttons: seq<Mask>, presses: seq<nat>, n: nat): nat
    requires InRange(presses, |buttons|)
  {
    if presses == [] then 0
    else
      var last := presses[|presses| - 1];
      Toggles(buttons, presses[..|presses| - 1], n) + (if n in buttons[last] then 1 else 0)
  }

  /**
   * A light ends up on exactly when it started on and was toggled an even
   * number of times, or started off and was toggled an odd number of times:
   * the order of the presses does not matter.
   */
  lemma {:induction false} PressLight(lights: Mask, buttons: seq<Mask>, presses: seq<nat>, n: nat)
    requires InRange(presses, |buttons|)
    ensures n in Press(lights, buttons, presses) <==> (n in lights) != (Toggles(buttons, presses, n) % 2 == 1)
  {
    if presses != [] {
      PressLight(lights, buttons, presses[..|presses| - 1], n);
    }
  }

  /** The buttons of the unit test's first machine: `0b1000, 0b1010, 0b0100, 0b1100, 0b0101, 0b0011`. */
  function SampleButtons(): seq<Mask> {
    [{3}, {1, 3}, {2}, {2, 3}, {0, 2}, {0, 1}]
  }

  /** The lights of the unit test after pressing its six buttons one after the other. */
  lemma PressSample()
    ensures var bs := SampleButtons();
      && Press({}, bs, [0]) == {3}
      && Press({}, bs, [0, 1]) == {1}
      && Press({}, bs, [0, 1, 2]) == {1, 2}
      && Press({}, bs, [0, 1, 2, 3]) == {1, 3}
      && Press({}, bs, [0, 1, 2, 3, 4]) == {0, 1, 2, 3}
      && Press({}, bs, [0, 1, 2, 3, 4, 5]) == {2, 3}
  {
    var bs := SampleButtons();
    assert [0, 1, 2, 3, 4, 5][..5] == [0, 1, 2, 3, 4];
    assert [0, 1, 2, 3, 4][..4] == [0, 1, 2, 3];
    assert [0, 1, 2, 3][..3] == [0, 1, 2];
    assert [0, 1, 2][..2] == [0, 1];
    assert [0, 1][..1] == [0];
    assert [0][..0] == [];
  }

  /** The indices are increasing and lie in `lo..n`. */
  predicate Increasing(c: seq<nat>, lo: nat, n: nat) {
    && (forall i :: 0 <= i < |c| ==> lo <= c[i] < n)
    && (forall i, j :: 0 <= i < j < |c| ==> c[i] < c[j])
  }

  /** An increasing sequence is its first index followed by an increasing sequence above it. */
  lemma IncreasingCons(c: seq<nat>, lo: nat, n: nat)
    requires |c| >= 1
    ensures Increasing(c, lo, n) <==> lo <= c[0] < n && Increasing(c[1..], c[0] + 1, n)
  {
    if lo <= c[0] < n && Increasing(c[1..], c[0] + 1, n) {
      forall i, j | 0 <= i < j < |c| ensures c[i] < c[j] {
        assert c[j] == c[1..][j - 1];
        if i > 0 {
          assert c[i] == c[1..][i - 1];
        }
      }
      forall i | 0 <= i < |c| ensures lo <= c[i] < n {
        if i > 0 {
          assert c[i] == c[1..][i - 1];
        }
      }
    }
  }

  /** `lo` put in front of each of `cs`. */
  function Headed(lo: nat, cs: seq<seq<nat>>): (r: seq<seq<nat>>)
    ensures |r| == |cs| && forall t :: 0 <= t < |r| ==> r[t] == [lo] + cs[t]
  {
    seq(|cs|, t requires 0 <= t < |cs| => [lo] + cs[t])
  }

  lemma HeadedHas(lo: nat, cs: seq<seq<nat>>, c: seq<nat>)
    ensures c in Headed(lo, cs) <==> |c| >= 1 && c[0] == lo && c[1..] in cs
  {
    var r := Headed(lo, cs);
    if c in r {
      var t :| 0 <= t < |r| && r[t] == c;
      assert c[1..] == cs[t];
    }
    if |c| >= 1 && c[0] == lo && c[1..] in cs {
      var t :| 0 <= t < |cs| && cs[t] == c[1..];
      assert r[t] == c;
    }
  }

  /**
   * `(lo..n).combinations(k)`: the increasing `k`-sequences over `lo..n`,
   * in lexicographic order (those starting with `lo` first).
   */
  function Combinations(lo: nat, n: nat, k: nat): (r: seq<seq<nat>>)
    ensures forall t :: 0 <= t < |r| ==> InRange(r[t], n)
    decreases n - lo, k
  {
    if k == 0 then [[]]
    else if lo >= n then []
    else
      var first := Combinations(lo + 1, n, k - 1);
      var headed := Headed(lo, first);
      assert forall t :: 0 <= t < |headed| ==> InRange(headed[t], n) by {
        forall t, i | 0 <= t < |headed| && 0 <= i < |headed[t]| ensures headed[t][i] < n {
          if i > 0 {
            assert headed[t][i] == first[t][i - 1];
          }
        }
      }
      headed + Combinations(lo + 1, n, k)
  }

  /** There is at least one way to choose `k` of the indices `lo..n` when `lo + k <= n`. */
  lemma {:induction false} CombinationsExist(lo: nat, n: nat, k: nat)
    requires lo + k <= n
    ensures |Combinations(lo, n, k)| >= 1
    decreases k
  {
    if k > 0 {
      CombinationsExist(lo + 1, n, k - 1);
    }
  }

  /** Every sequence `Combinations` lists is increasing over `lo..n` and of length `k`. */
  lemma {:induction false} CombinationsSound(lo: nat, n: nat, k: nat, c: seq<nat>)
    requires c in Combinations(lo, n, k)
    ensures |c| == k && Increasing(c, lo, n)
    decreases n - lo, k
  {
    if k > 0 && lo < n {
      var first := Combinations(lo + 1, n, k - 1);
      HeadedHas(lo, first, c);
      if c in Headed(lo, first) {
        CombinationsSound(lo + 1, n, k - 1, c[1..]);
        IncreasingCons(c, lo, n);
      } else {
        CombinationsSound(lo + 1, n, k, c);
        IncreasingWeaken(c, lo + 1, lo, n);
      }
    }
  }

  lemma IncreasingWeaken(c: seq<nat>, lo: nat, lo': nat, n: nat)
    requires Increasing(c, lo, n) && lo' <= lo
    ensures Increasing(c, lo', n)
  {
  }

  /** Every increasing sequence of length `k` over `lo..n` is listed by `Combinations`. */
  lemma {:induction false} CombinationsComplete(lo: nat, n: nat, k: nat, c: seq<nat>)
    requires |c| == k && Increasing(c, lo, n)
    ensures c in Combinations(lo, n, k)
    decreases n - lo, k
  {
    if k > 0 {
      var first := Combinations(lo + 1, n, k - 1);
      HeadedHas(lo, first, c);
      IncreasingCons(c, lo, n);
      if c[0] == lo {
        CombinationsComplete(lo + 1, n, k - 1, c[1..]);
      } else {
        assert Increasing(c, lo + 1, n) by {
          IncreasingCons(c, lo + 1, n);
        }
        CombinationsComplete(lo + 1, n, k, c);
      }
    }
  }

  /**
   * Some combination in `combos` reaches `target`, the first pressed from
   * the lights `first` and every later one from dark lights (the lights
   * are reset after each miss).
   */
  function Hits(buttons: seq<Mask>, target: Mask, first: Mask, combos: seq<seq<nat>>): bool
    requires forall t :: 0 <= t < |combos| ==> InRange(combos[t], |buttons|)
  {
    combos != [] && (Press(first, buttons, combos[0]) == target || Hits(buttons, target, {}, combos[1..]))
  }

  /** From dark lights, `Hits` is "some combination reaches `target`", whatever their order. */
  lemma {:induction false} HitsDark(buttons: seq<Mask>, target: Mask, combos: seq<seq<nat>>)
    requires forall t :: 0 <= t < |combos| ==> InRange(combos[t], |buttons|)
    ensures Hits(buttons, target, {}, combos) <==>
              exists t :: 0 <= t < |combos| && Press({}, buttons, combos[t]) == target
  {
    if combos != [] {
      HitsDark(buttons, target, combos[1..]);
      if exists t :: 0 <= t < |combos| && Press({}, buttons, combos[t]) == target {
        var t :| 0 <= t < |combos| && Press({}, buttons, combos[t]) == target;
        if t > 0 {
          assert combos[1..][t - 1] == combos[t];
        }
      }
      if Hits(buttons, target, {}, combos[1..]) {
        var t :| 0 <= t < |combos| - 1 && Press({}, buttons, combos[1..][t]) == target;
        assert combos[t + 1] == combos[1..][t];
      }
    }
  }

  /**
   * The search of `find_min_presses` from set size `k` on, the first set
   * pressed from the lights `first`: `Some(k)` at the first size below the
   * number of buttons that hits, `None` when none does.
   */
  function Search(buttons: seq<Mask>, target: Mask, first: Mask, k: nat): Option<nat>
    decreases |buttons| - k
  {
    if k >= |buttons| then None
    else if Hits(buttons, target, first, Combinations(0, |buttons|, k)) then Some(k)
    else Search(buttons, target, {}, k + 1)
  }

  /** The answer of `find_min_presses` on a machine whose lights are `lights`. */
  function MinPresses(buttons: seq<Mask>, target: Mask, lights: Mask): Option<nat> {
    Search(buttons, target, lights, 1)
  }

  /** `k` distinct buttons, pressed from dark lights, reach `target`. */
  ghost predicate Reaches(buttons: seq<Mask>, target: Mask, k: nat) {
    exists c :: |c| == k && Increasing(c, 0, |buttons|) && Press({}, buttons, c) == target
  }

  lemma HitsReaches(buttons: seq<Mask>, target: Mask, k: nat)
    ensures Hits(buttons, target, {}, Combinations(0, |buttons|, k)) <==> Reaches(buttons, target, k)
  {
    var combos := Combinations(0, |buttons|, k);
    HitsDark(buttons, target, combos);
    if Hits(buttons, target, {}, combos) {
      var t :| 0 <= t < |combos| && Press({}, buttons, combos[t]) == target;
      CombinationsSound(0, |buttons|, k, combos[t]);
    }
    if Reaches(buttons, target, k) {
      var c :| |c| == k && Increasing(c, 0, |buttons|) && Press({}, buttons, c) == target;
      CombinationsComplete(0, |buttons|, k, c);
    }
  }

  lemma {:induction false} SearchLeast(buttons: seq<Mask>, target: Mask, k: nat, from: nat)
    requires 1 <= from
    ensures Search(buttons, target, {}, from) == Some(k) <==>
              from <= k < |buttons| && Reaches(buttons, target, k)
              && forall j :: from <= j < k ==> !Reaches(buttons, target, j)
    decreases |buttons| - from
  {
    if from < |buttons| {
      HitsReaches(buttons, target, from);
      if !Reaches(buttons, target, from) {
        SearchLeast(buttons, target, k, from + 1);
      }
    }
  }

  /**
   * From dark lights, `find_min_presses` gives `Some(k)` exactly when `k`
   * is the least number of distinct buttons, at least one and fewer than
   * all of them, that reach the target.
   */
  lemma MinPressesLeast(buttons: seq<Mask>, target: Mask, k: nat)
    ensures MinPresses(buttons, target, {}) == Some(k) <==>
              1 <= k < |buttons| && Reaches(buttons, target, k)
              && forall j :: 1 <= j < k ==> !Reaches(buttons, target, j)
  {
    SearchLeast(buttons, target, k, 1);
  }

  lemma {:induction false} SearchNone(buttons: seq<Mask>, target: Mask, from: nat)
    requires 1 <= from
    ensures Search(buttons, target, {}, from) == None <==>
              forall j :: from <= j < |buttons| ==> !Reaches(buttons, target, j)
    decreases |buttons| - from
  {
    if from < |buttons| {
      HitsReaches(buttons, target, from);
      SearchNone(buttons, target, from + 1);
    }
  }

  /**
   * From dark lights, `find_min_presses` gives `None` exactly when no set
   * of distinct buttons, from one up to all but one, reaches the target;
   * pressing every button is never tried.
   */
  lemma MinPressesNone(buttons: seq<Mask>, target: Mask)
    ensures MinPresses(buttons, target, {}) == None <==>
              forall j :: 1 <= j < |buttons| ==> !Reaches(buttons, target, j)
  {
    SearchNone(buttons, target, 1);
  }

  /** Pressing one button from dark lights gives that button's mask. */
  lemma PressOne(buttons: seq<Mask>, a: nat)
    requires a < |buttons|
    ensures InRange([a], |buttons|) && Press({}, buttons, [a]) == buttons[a]
  {
    assert [a][..0] == [];
    XorEmpty(buttons[a]);
  }

  /** Pressing two buttons from dark lights gives the XOR of their masks. */
  lemma PressTwo(buttons: seq<Mask>, a: nat, b: nat)
    requires a < |buttons| && b < |buttons|
    ensures InRange([a, b], |buttons|) && Press({}, buttons, [a, b]) == Xor(buttons[a], buttons[b])
  {
    assert [a, b][..1] == [a];
    PressOne(buttons, a);
  }

  lemma PressThree(buttons: seq<Mask>, a: nat, b: nat, c: nat)
    requires a < |buttons| && b < |buttons| && c < |buttons|
    ensures InRange([a, b, c], |buttons|)
    ensures Press({}, buttons, [a, b, c]) == Xor(Xor(buttons[a], buttons[b]), buttons[c])
  {
    assert [a, b, c][..2] == [a, b];
    PressTwo(buttons, a, b);
  }

  /** No single button reaches `target` when no button's mask is `target`. */
  lemma NoneOfOne(buttons: seq<Mask>, target: Mask)
    requires forall a :: 0 <= a < |buttons| ==> buttons[a] != target
    ensures !Reaches(buttons, target, 1)
  {
    forall c | |c| == 1 && Increasing(c, 0, |buttons|) ensures Press({}, buttons, c) != target {
      assert c == [c[0]];
      PressOne(buttons, c[0]);
    }
  }

  /** No two distinct buttons reach `target` when no two masks XOR to `target`. */
  lemma NoneOfTwo(buttons: seq<Mask>, target: Mask)
    requires forall a, b :: 0 <= a < b < |buttons| ==> Xor(buttons[a], buttons[b]) != target
    ensures !Reaches(buttons, target, 2)
  {
    forall c | |c| == 2 && Increasing(c, 0, |buttons|) ensures Press({}, buttons, c) != target {
      assert c == [c[0], c[1]];
      PressTwo(buttons, c[0], c[1]);
    }
  }

  /** The first machine of the unit test needs two presses: `(1,3)` then `(2,3)`. */
  lemma MinPressesSample1()
    ensures MinPresses(SampleButtons(), {1, 2}, {}) == Some(2)
  {
    var bs := SampleButtons();
    assert 3 in bs[0] && 3 in bs[1] && 1 !in bs[2] && 3 in bs[3] && 0 in bs[4] && 0 in bs[5];
    NoneOfOne(bs, {1, 2});
    PressTwo(bs, 1, 3);
    assert Increasing([1, 3], 0, |bs|);
    MinPressesLeast(bs, {1, 2}, 2);
  }

  /** The second machine of the unit test needs three presses: `(0,4)`, `(0,1,2)` and `(1,2,3,4)`. */
  lemma MinPressesSample2()
    ensures MinPresses([{0, 2, 3, 4}, {2, 3}, {0, 4}, {0, 1, 2}, {1, 2, 3, 4}], {3}, {}) == Some(3)
  {
    var bs: seq<Mask> := [{0, 2, 3, 4}, {2, 3}, {0, 4}, {0, 1, 2}, {1, 2, 3, 4}];
    assert 0 in bs[0] && 2 in bs[1] && 0 in bs[2] && 0 in bs[3] && 1 in bs[4];
    NoneOfOne(bs, {3});
    forall a, b | 0 <= a < b < |bs| ensures Xor(bs[a], bs[b]) != {3} {
      PairSample2(bs, a, b);
    }
    NoneOfTwo(bs, {3});
    TripleSample2(bs);
    assert Increasing([2, 3, 4], 0, |bs|);
    MinPressesLeast(bs, {3}, 3);
  }

  lemma TripleSample2(bs: seq<Mask>)
    requires bs == [{0, 2, 3, 4}, {2, 3}, {0, 4}, {0, 1, 2}, {1, 2, 3, 4}]
    ensures InRange([2, 3, 4], |bs|) && Press({}, bs, [2, 3, 4]) == {3}
  {
    PressThree(bs, 2, 3, 4);
    assert Xor(bs[2], bs[3]) == {1, 2, 4};
  }

  lemma PairSample2(bs: seq<Mask>, a: nat, b: nat)
    requires bs == [{0, 2, 3, 4}, {2, 3}, {0, 4}, {0, 1, 2}, {1, 2, 3, 4}] && a < b < |bs|
    ensures Xor(bs[a], bs[b]) != {3}
  {
    var x := Xor(bs[a], bs[b]);
    if a == 0 {
      assert 0 in x || 1 in x || 2 in x;
    } else if a == 1 {
      assert 0 in x || 1 in x;
    } else {
      assert 0 in x || 1 in x || 2 in x;
    }
  }

  /** The third machine of the unit test needs two presses: `(0,3,4)` and `(0,1,2,4,5)`. */
  lemma MinPressesSample3()
    ensures MinPresses([{0, 1, 2, 3, 4}, {0, 3, 4}, {0, 1, 2, 4, 5}, {1, 2}], {1, 2, 3, 5}, {}) == Some(2)
  {
    var bs: seq<Mask> := [{0, 1, 2, 3, 4}, {0, 3, 4}, {0, 1, 2, 4, 5}, {1, 2}];
    assert 0 in bs[0] && 0 in bs[1] && 0 in bs[2] && 3 !in bs[3];
    NoneOfOne(bs, {1, 2, 3, 5});
    PressTwo(bs, 1, 2);
    assert Xor(bs[1], bs[2]) == {1, 2, 3, 5};
    assert Increasing([1, 2], 0, |bs|);
    MinPressesLeast(bs, {1, 2, 3, 5}, 2);
  }

  /** `Machine`: the lights, the target pattern, the button masks and the joltages. */
  class Machine {
    var lights: Mask
    var target: Mask
    var buttons: seq<Mask>
    var joltages: seq<nat>

    /** The machine as `from_str` returns it: lights dark. */
    constructor (target: Mask, buttons: seq<Mask>, joltages: seq<nat>)
      ensures this.lights == {} && this.target == target
      ensures this.buttons == buttons && this.joltages == joltages
    {
      this.lights := {};
      this.target := target;
      this.buttons := buttons;
      this.joltages := joltages;
    }

    /** `push_button`: the lights toggled by the button's mask. */
    method PushButton(idx: nat)
      requires idx < |buttons|
      modifies this
      ensures target == old(target) && buttons == old(buttons) && joltages == old(joltages)
      ensures lights == Xor(old(lights), buttons[idx])
    {
      lights := Xor(lights, buttons[idx]);
    }

    /** `reset`: every light off. */
    method Reset()
      modifies this
      ensures target == old(target) && buttons == old(buttons) && joltages == old(joltages)
      ensures lights == {}
    {
      lights := {};
    }

    /** `is_at_target`. */
    function IsAtTarget(): (b: bool)
      reads this
      ensures b <==> lights == target
    {
      lights == target
    }

    /** The innermost loop: every button of `presses` pushed in turn. */
    method PushAll(presses: seq<nat>)
      requires InRange(presses, |buttons|)
      modifies this
      ensures target == old(target) && buttons == old(buttons) && joltages == old(joltages)
      ensures lights == Press(old(lights), buttons, presses)
    {
      for b := 0 to |presses|
        invariant target == old(target) && buttons == old(buttons) && joltages == old(joltages)
        invariant lights == Press(old(lights), buttons, presses[..b])
      {
        PushButton(presses[b]);
        assert presses[..b + 1][..b] == presses[..b];
      }
      assert presses[..|presses|] == presses;
    }

    /**
     * One set size of `find_min_presses`: each combination pushed, stopping
     * at the first that reaches the target and resetting after each miss.
     */
    method TryCombinations(combos: seq<seq<nat>>) returns (hit: bool)
      requires forall t :: 0 <= t < |combos| ==> InRange(combos[t], |buttons|)
      modifies this
      ensures target == old(target) && buttons == old(buttons) && joltages == old(joltages)
      ensures hit == Hits(buttons, target, old(lights), combos)
      ensures hit ==> lights == target
      ensures !hit ==> lights == (if combos == [] then old(lights) else {})
    {
      for t := 0 to |combos|
        invariant target == old(target) && buttons == old(buttons) && joltages == old(joltages)
        invariant Hits(buttons, target, old(lights), combos) == Hits(buttons, target, lights, combos[t..])
        invariant lights == (if t == 0 then old(lights) else {})
      {
        PushAll(combos[t]);
        if IsAtTarget() {
          return true;
        }
        Reset();
        assert combos[t..][1..] == combos[t + 1..];
      }
      return false;
    }

    /**
     * `find_min_presses`: set sizes `1 .. buttons.len()` in turn; the lights
     * are left at the target after a hit and dark after a search that
     * pressed anything.
     */
    method FindMinPresses() returns (r: Option<nat>)
      modifies this
      ensures target == old(target) && buttons == old(buttons) && joltages == old(joltages)
      ensures r == MinPresses(buttons, target, old(lights))
      ensures r.Some? ==> lights == target
      ensures r.None? ==> lights == (if |buttons| <= 1 then old(lights) else {})
    {
      if |buttons| == 0 {
        return None;
      }
      for idx := 1 to |buttons|
        invariant target == old(target) && buttons == old(buttons) && joltages == old(joltages)
        invariant MinPresses(buttons, target, old(lights)) == Search(buttons, target, lights, idx)
        invariant lights == (if idx == 1 then old(lights) else {})
      {
        CombinationsExist(0, |buttons|, idx);
        var hit := TryCombinations(Combinations(0, |buttons|, idx));
        if hit {
          return Some(idx);
        }
      }
      return None;
    }
  }

  /** Every machine's search, from its current lights, succeeds (`unwrap` in `sum_min_presses`). */
  predicate AllSolvable(machines: seq<Machine>)
    reads machines
  {
    forall i :: 0 <= i < |machines| ==> MinPresses(machines[i].buttons, machines[i].target, machines[i].lights).Some?
  }

  /** The least presses of every machine, added up. */
  function TotalPresses(machines: seq<Machine>): nat
    reads machines
    requires AllSolvable(machines)
  {
    if machines == [] then 0
    else
      var m := machines[|machines| - 1];
      TotalPresses(machines[..|machines| - 1]) + MinPresses(m.buttons, m.target, m.lights).value
  }

  /**
   * `sum_min_presses` over already parsed machines: each machine's least
   * number of presses, added up in a `u64`, which must not overflow.
   */
  method SumMinPresses(machines: seq<Machine>) returns (s: nat)
    requires forall i, j :: 0 <= i < j < |machines| ==> machines[i] != machines[j]
    requires AllSolvable(machines) && TotalPresses(machines) <= U64_MAX
    modifies machines
    ensures s == old(TotalPresses(machines))
  {
    s := 0;
    for i := 0 to |machines|
      invariant forall j :: 0 <= j < |machines| ==>
        machines[j].buttons == old(machines[j].buttons) && machines[j].target == old(machines[j].target)
      invariant forall j :: i <= j < |machines| ==> machines[j].lights == old(machines[j].lights)
      invariant s == old(TotalPresses(machines[..i]))
    {
      assert machines[..i + 1][..i] == machines[..i];
      var r := machines[i].FindMinPresses();
      s := s + r.value;
    }
    assert machines[..|machines|] == machines;
  }

  /**
   * `1 << idx` on a `u16` overflows, and panics, for a `#` at position 16
   * or later; a `.` there is never shifted.
   */
  predicate DiagramFits(diagram: string) {
    forall i :: 0 <= i < |diagram| && diagram[i] == '#' ==> i < 16
  }

  /** The target of a light diagram: light `i` for each `#` at position `i`. */
  function LightsMask(diagram: string): Mask
    requires DiagramFits(diagram)
  {
    if diagram == [] then {}
    else
      var i := |diagram| - 1;
      LightsMask(diagram[..i]) + (if diagram[i] == '#' then {i} else {})
  }

  /** Light `j` of the target is on exactly when position `j` of the diagram is `#`; all are below 16. */
  lemma {:induction false} LightsMaskBits(diagram: string, j: nat)
    requires DiagramFits(diagram)
    ensures j in LightsMask(diagram) <==> j < |diagram| && diagram[j] == '#'
    ensures j in LightsMask(diagram) ==> j < 16
  {
    if diagram != [] {
      LightsMaskBits(diagram[..|diagram| - 1], j);
    }
  }

  lemma LightsMaskStep(diagram: string, idx: nat)
    requires DiagramFits(diagram) && idx < |diagram|
    ensures DiagramFits(diagram[..idx]) && DiagramFits(diagram[..idx + 1])
    ensures LightsMask(diagram[..idx + 1]) == LightsMask(diagram[..idx]) + (if diagram[idx] == '#' then {idx} else {})
  {
    assert diagram[..idx + 1][..idx] == diagram[..idx];
  }

  /** The target loop of `from_str`: one OR per `#` of the diagram. */
  method TargetMask(diagram: string) returns (target: Mask)
    requires DiagramFits(diagram)
    ensures target == LightsMask(diagram)
  {
    target := {};
    for idx := 0 to |diagram|
      invariant target == LightsMask(diagram[..idx])
    {
      LightsMaskStep(diagram, idx);
      if diagram[idx] == '#' {
        target := target + {idx};
      } else {
        assert target + {} == target;
      }
    }
    assert diagram[..|diagram|] == diagram;
  }

  /** The mask of a button that toggles the lights `indices`. */
  function IndicesMask(indices: seq<nat>): Mask
    requires InRange(indices, 16)
  {
    if indices == [] then {}
    else IndicesMask(indices[..|indices| - 1]) + {indices[|indices| - 1]}
  }

  /** A button toggles light `j` exactly when `j` is one of its indices. */
  lemma {:induction false} IndicesMaskBits(indices: seq<nat>, j: nat)
    requires InRange(indices, 16)
    ensures j in IndicesMask(indices) <==> j in indices
  {
    if indices != [] {
      var init := indices[..|indices| - 1];
      IndicesMaskBits(init, j);
      assert indices == init + [indices[|indices| - 1]];
    }
  }

  /**
   * A button group's comma-separated indices: each must parse as `u16`
   * (`unwrap`) and be below 16 (`1 << c` on a `u16`).
   */
  predicate ButtonParses(group: string) {
    forall i :: 0 <= i < |Split(group, ',')| ==>
      ParseUnsigned(Split(group, ',')[i], 0xFFFF).Some? && ParseUnsigned(Split(group, ',')[i], 0xFFFF).value < 16
  }

  function ButtonIndices(group: string): (r: seq<nat>)
    requires ButtonParses(group)
    ensures |r| == |Split(group, ',')| && InRange(r, 16)
    ensures forall i :: 0 <= i < |r| ==> ParseUnsigned(Split(group, ',')[i], 0xFFFF) == Some(r[i])
  {
    var pieces := Split(group, ',');
    seq(|pieces|, i requires 0 <= i < |pieces| => ParseUnsigned(pieces[i], 0xFFFF).value)
  }

  lemma IndicesMaskStep(indices: seq<nat>, k: nat)
    requires InRange(indices, 16) && k < |indices|
    ensures InRange(indices[..k], 16) && InRange(indices[..k + 1], 16)
    ensures IndicesMask(indices[..k + 1]) == IndicesMask(indices[..k]) + {indices[k]}
  {
    assert indices[..k + 1][..k] == indices[..k];
  }

  /** The OR loop over one button group's indices in `from_str`. */
  method ButtonMask(indices: seq<nat>) returns (b: Mask)
    requires InRange(indices, 16)
    ensures b == IndicesMask(indices)
  {
    b := {};
    for k := 0 to |indices|
      invariant b == IndicesMask(indices[..k])
    {
      IndicesMaskStep(indices, k);
      b := b + {indices[k]};
    }
    assert indices[..|indices|] == indices;
  }

  /** The joltages: comma-separated, each must parse as `u32` (`unwrap`). */
  predicate JoltagesParse(s: string) {
    forall i :: 0 <= i < |Split(s, ',')| ==> ParseUnsigned(Split(s, ',')[i], 0xFFFF_FFFF).Some?
  }

  function Joltages(s: string): (r: seq<nat>)
    requires JoltagesParse(s)
    ensures |r| == |Split(s, ',')|
    ensures forall i :: 0 <= i < |r| ==> ParseUnsigned(Split(s, ',')[i], 0xFFFF_FFFF) == Some(r[i])
  {
    var pieces := Split(s, ',');
    seq(|pieces|, i requires 0 <= i < |pieces| => ParseUnsigned(pieces[i], 0xFFFF_FFFF).value)
  }

  /** Every button group parses. */
  predicate GroupsParse(groups: seq<string>) {
    forall g :: 0 <= g < |groups| ==> ButtonParses(groups[g])
  }

  /** The parsed indices of every button group. */
  function GroupIndices(groups: seq<string>): (r: seq<seq<nat>>)
    requires GroupsParse(groups)
    ensures |r| == |groups| && forall g :: 0 <= g < |r| ==> InRange(r[g], 16)
  {
    seq(|groups|, g requires 0 <= g < |groups| => ButtonIndices(groups[g]))
  }

  /** The loop over the button groups of `from_str`: one mask per group, in order. */
  method ButtonMasks(parsed: seq<seq<nat>>) returns (buttons: seq<Mask>)
    requires forall g :: 0 <= g < |parsed| ==> InRange(parsed[g], 16)
    ensures |buttons| == |parsed|
    ensures forall g :: 0 <= g < |parsed| ==> buttons[g] == IndicesMask(parsed[g])
  {
    buttons := [];
    for g := 0 to |parsed|
      invariant |buttons| == g
      invariant forall h :: 0 <= h < g ==> buttons[h] == IndicesMask(parsed[h])
    {
      var b := ButtonMask(parsed[g]);
      buttons := buttons + [b];
    }
  }

  /**
   * `from_str` after the regular expression: the diagram becomes the target
   * mask, each button group a button mask, and the lights start dark.
   */
  method FromCaptures(diagram: string, groups: seq<string>, joltages: string) returns (m: Machine)
    requires DiagramFits(diagram) && GroupsParse(groups) && JoltagesParse(joltages)
    ensures fresh(m) && m.lights == {} && m.target == LightsMask(diagram)
    ensures |m.buttons| == |groups| && m.joltages == Joltages(joltages)
    ensures forall g :: 0 <= g < |groups| ==> m.buttons[g] == IndicesMask(ButtonIndices(groups[g]))
  {
    var target := TargetMask(diagram);
    var buttons := ButtonMasks(GroupIndices(groups));
    m := new Machine(target, buttons, Joltages(joltages));
  }

  /** The masks of the unit test's first machine: `[.##.] (3) (1,3) (2) (2,3) (0,2) (0,1)`. */
  lemma MasksSample()
    ensures LightsMask(".##.") == {1, 2}
    ensures [IndicesMask([3]), IndicesMask([1, 3]), IndicesMask([2]), IndicesMask([2, 3]), IndicesMask([0, 2]), IndicesMask([0, 1])]
            == SampleButtons()
  {
    assert ".##."[..3] == ".##" && ".##"[..2] == ".#" && ".#"[..1] == "." && "."[..0] == "";
    assert [1, 3][..1] == [1] && [2, 3][..1] == [2] && [0, 2][..1] == [0] && [0, 1][..1] == [0];
    assert [3][..0] == [] && [1][..0] == [] && [2][..0] == [] && [0][..0] == [];
    assert LightsMask(".") == {};
    assert LightsMask(".#") == {1};
    assert LightsMask(".##") == {1, 2};
    assert IndicesMask([1]) == {1} && IndicesMask([2]) == {2} && IndicesMask([0]) == {0};
    assert IndicesMask([3]) == {3} && IndicesMask([1, 3]) == {1, 3} && IndicesMask([2, 3]) == {2, 3};
    assert IndicesMask([0, 2]) == {0, 2} && IndicesMask([0, 1]) == {0, 1};
  }
}
