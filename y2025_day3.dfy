/**
 * `y2025/day3.rs`: battery banks. Each line is a bank of single-digit
 * batteries; turning on `num_batteries` of them, in bank order, gives the
 * joltage spelled by their digits. `calculate_joltage` chooses them
 * greedily with a stack of digits.
 */
module Y2025Day3 {
  import opened Strings
  import opened Decimal

  const SAFE_NUM_BATTERIES: nat := 2
  const UNSAFE_NUM_BATTERIES: nat := 12

  type Digit = d: nat | d < 10

  // ---------------------------------------------------------------------
  // Joltage of a digit sequence

  /** The number the digits spell, first digit most significant: `Σ ds[i] * 10^(|ds| - 1 - i)`. */
  function Joltage(ds: seq<Digit>): nat {
    if ds == [] then 0 else 10 * Joltage(ds[..|ds| - 1]) + ds[|ds| - 1]
  }

  /** Appending one digit shifts the joltage by one place. */
  lemma JoltageSnoc(a: seq<Digit>, d: Digit)
    ensures Joltage(a + [d]) == 10 * Joltage(a) + d
  {
    assert (a + [d])[..|a|] == a;
  }

  /** `|ds|` digits spell a number below `10^|ds|`. */
  lemma {:induction false} JoltageBound(ds: seq<Digit>)
    ensures Joltage(ds) < Pow10(|ds|)
  {
    if ds != [] {
      JoltageBound(ds[..|ds| - 1]);
    }
  }

  /** Appending digits: `Joltage(a + b) == Joltage(a) * 10^|b| + Joltage(b)`. */
  lemma {:induction false} JoltageAppend(a: seq<Digit>, b: seq<Digit>)
    ensures Joltage(a + b) == Joltage(a) * Pow10(|b|) + Joltage(b)
  {
    if b == [] {
      assert a + b == a;
    } else {
      var c := b[..|b| - 1];
      assert (a + b)[..|a + b| - 1] == a + c;
      assert (a + b)[|a + b| - 1] == b[|b| - 1];
      JoltageAppend(a, c);
      var x, y := Joltage(a), Pow10(|c|);
      assert Pow10(|b|) == 10 * y;
      ScaleTen(x, y);
    }
  }

  /**
   * Among digit sequences of one length the first difference decides:
   * a larger digit there gives the larger joltage whatever follows.
   */
  lemma JoltageFirstDifference(a: seq<Digit>, b: seq<Digit>, i: nat)
    requires |a| == |b| && i < |a| && a[..i] == b[..i] && a[i] < b[i]
    ensures Joltage(a) < Joltage(b)
  {
    JoltageAt(a, i);
    JoltageAt(b, i);
    JoltageBound(a[i + 1..]);
    var p := Pow10(|a| - i - 1);
    var x, y := Joltage(a[..i + 1]), Joltage(b[..i + 1]);
    MulSucc(x, p);
    MulMono(x + 1, y, p);
  }

  /** A joltage split after digit `i`: the prefix through `i`, shifted, plus the rest. */
  lemma JoltageAt(a: seq<Digit>, i: nat)
    requires i < |a|
    ensures Joltage(a) == Joltage(a[..i + 1]) * Pow10(|a| - i - 1) + Joltage(a[i + 1..])
    ensures Joltage(a[..i + 1]) == 10 * Joltage(a[..i]) + a[i]
  {
    assert a == a[..i + 1] + a[i + 1..];
    JoltageAppend(a[..i + 1], a[i + 1..]);
    assert a[..i + 1] == a[..i] + [a[i]];
    JoltageSnoc(a[..i], a[i]);
  }

  // ---------------------------------------------------------------------
  // The greedy selection

  /**
   * The first slot a battery may take: with `distance` batteries left
   * (itself included), it must not sit so early that fewer than
   * `num_batteries` could still be chosen.
   */
  function Lower(n: nat, numBatteries: nat, idx: nat): nat
    requires idx < n
  {
    var distance := n - idx;
    if distance < numBatteries then numBatteries - distance else 0
  }

  /** The first slot at or after `place` whose digit `d` beats, or `|m|` when there is none. */
  function Slot(m: seq<Digit>, d: Digit, place: nat): (q: nat)
    ensures q == |m| || (place <= q < |m| && d > m[q])
    ensures forall i :: place <= i < q && i < |m| ==> d <= m[i]
    decreases |m| - place
  {
    if place >= |m| then |m|
    else if d > m[place] then place
    else Slot(m, d, place + 1)
  }

  /**
   * One step of `calculate_joltage`: `d` replaces the digit in its slot and
   * everything after it is dropped; without a slot it is pushed when there
   * is room.
   */
  function Insert(m: seq<Digit>, d: Digit, place: nat, numBatteries: nat): seq<Digit> {
    var q := Slot(m, d, place);
    if q < |m| || |m| < numBatteries then m[..q] + [d] else m
  }

  /** The digits held after the first `k` batteries of the bank. */
  function Selected(bank: seq<Digit>, numBatteries: nat, k: nat): seq<Digit>
    requires k <= |bank|
  {
    if k == 0 then []
    else
      var m := Selected(bank, numBatteries, k - 1);
      Insert(m, bank[k - 1], Lower(|bank|, numBatteries, k - 1), numBatteries)
  }

  /**
   * The number of digits held never exceeds `num_batteries` nor the
   * batteries seen, and is never so low that the batteries still to come
   * could not fill the rest.
   */
  lemma {:induction false} SelectedLength(bank: seq<Digit>, numBatteries: nat, k: nat)
    requires k <= |bank|
    ensures |Selected(bank, numBatteries, k)| <= numBatteries && |Selected(bank, numBatteries, k)| <= k
    ensures |Selected(bank, numBatteries, k)| >= k || |Selected(bank, numBatteries, k)| + (|bank| - k) >= numBatteries
  {
    if k > 0 {
      SelectedLength(bank, numBatteries, k - 1);
    }
  }

  /** After the whole bank exactly `min(num_batteries, |bank|)` digits are held. */
  lemma SelectedFull(bank: seq<Digit>, numBatteries: nat)
    ensures |Selected(bank, numBatteries, |bank|)| == if |bank| < numBatteries then |bank| else numBatteries
  {
    SelectedLength(bank, numBatteries, |bank|);
  }

  // ---------------------------------------------------------------------
  // Lexicographic order on digit sequences

  predicate IsPrefix(a: seq<Digit>, b: seq<Digit>) {
    |a| <= |b| && b[..|a|] == a
  }

  /** `a` and `b` agree before position `j`, where `a` has the smaller digit. */
  predicate LessAt(a: seq<Digit>, b: seq<Digit>, j: nat) {
    j < |a| && j < |b| && a[..j] == b[..j] && a[j] < b[j]
  }

  /** Lexicographic order in which a prefix comes first. */
  ghost predicate LexLe(a: seq<Digit>, b: seq<Digit>) {
    IsPrefix(a, b) || exists j: nat :: LessAt(a, b, j)
  }

  lemma LexLeTrans(a: seq<Digit>, b: seq<Digit>, c: seq<Digit>)
    requires LexLe(a, b) && LexLe(b, c)
    ensures LexLe(a, c)
  {
    if IsPrefix(a, b) {
      if IsPrefix(b, c) {
        assert c[..|a|] == c[..|b|][..|a|];
      } else {
        var j: nat :| LessAt(b, c, j);
        if j < |a| {
          assert a[..j] == b[..j] && a[j] == b[j];
          assert LessAt(a, c, j);
        } else {
          assert c[..|a|] == c[..j][..|a|] && b[..|a|] == b[..j][..|a|];
        }
      }
    } else {
      var i: nat :| LessAt(a, b, i);
      if IsPrefix(b, c) {
        assert c[..i] == c[..|b|][..i] && c[i] == b[i];
        assert LessAt(a, c, i);
      } else {
        var j: nat :| LessAt(b, c, j);
        if i <= j {
          assert c[..i] == c[..j][..i] && b[..i] == b[..j][..i];
          assert LessAt(a, c, i);
        } else {
          assert a[..j] == a[..i][..j] && b[..j] == b[..i][..j];
          assert LessAt(a, c, j);
        }
      }
    }
  }

  /** Two sequences of one length in lexicographic order are in joltage order. */
  lemma LexLeJoltage(a: seq<Digit>, b: seq<Digit>)
    requires |a| == |b| && LexLe(a, b)
    ensures Joltage(a) <= Joltage(b)
  {
    if !IsPrefix(a, b) {
      var j: nat :| LessAt(a, b, j);
      JoltageFirstDifference(a, b, j);
    }
  }

  // ---------------------------------------------------------------------
  // Why the greedy choice is the best one

  /** One step never moves the held digits down the order. */
  lemma InsertGrows(m: seq<Digit>, d: Digit, place: nat, numBatteries: nat)
    ensures LexLe(m, Insert(m, d, place, numBatteries))
  {
    var q := Slot(m, d, place);
    var m' := Insert(m, d, place, numBatteries);
    if q < |m| {
      assert m'[..q] == m[..q];
      assert LessAt(m, m', q);
    } else if |m| < numBatteries {
      assert m'[..|m|] == m;
    } else {
      assert m'[..|m|] == m;
    }
  }

  /**
   * The heart of the greedy argument: if a choice `s` of earlier batteries
   * is at most the held digits `m`, then `s` followed by the new battery is
   * at most the digits held after it, provided the new battery may sit at
   * position `|s|` and there is room for it.
   */
  lemma InsertBeats(m: seq<Digit>, d: Digit, lower: nat, numBatteries: nat, s: seq<Digit>)
    requires LexLe(s, m) && lower <= |s| < numBatteries && lower <= |m|
    ensures LexLe(s + [d], Insert(m, d, lower, numBatteries))
  {
    var p := |s|;
    var q := Slot(m, d, lower);
    var m' := Insert(m, d, lower, numBatteries);
    var t := s + [d];
    assert t[..p] == s && t[p] == d;
    if IsPrefix(s, m) {
      if q < p {
        assert t[..q] == m[..q] == m'[..q] && t[q] == m[q];
        assert LessAt(t, m', q);
      } else if q == p {
        assert m' == t;
      } else {
        // `q > p`: the new battery does not beat `m[p]`, and `m'` starts with `m[..p + 1]`.
        assert m'[..p + 1] == m[..p + 1];
        if d < m[p] {
          assert t[..p] == m'[..p];
          assert LessAt(t, m', p);
        } else {
          assert t == m[..p + 1];
        }
      }
    } else {
      var j: nat :| LessAt(s, m, j);
      if j < q {
        assert m'[..j + 1] == m[..j + 1];
        assert t[..j] == s[..j] && t[j] == s[j];
        assert m'[..j] == m[..j] && m'[j] == m[j];
        assert LessAt(t, m', j);
      } else {
        assert s[..q] == s[..j][..q] && m[..q] == m[..j][..q];
        assert t[..q] == m'[..q] && t[q] == s[q] <= m[q] < d == m'[q];
        assert LessAt(t, m', q);
      }
    }
  }

  /** The batteries at positions `ix`, in order. */
  function Pick(bank: seq<Digit>, ix: seq<nat>): (s: seq<Digit>)
    requires forall j :: 0 <= j < |ix| ==> ix[j] < |bank|
    ensures |s| == |ix|
  {
    seq(|ix|, j requires 0 <= j < |ix| => bank[ix[j]])
  }

  /** `ix` lists positions below `k` in increasing order: a choice of batteries among the first `k`. */
  predicate Picks(bank: seq<Digit>, ix: seq<nat>, k: nat) {
    k <= |bank|
    && (forall j :: 0 <= j < |ix| ==> ix[j] < k)
    && (forall i, j :: 0 <= i < j < |ix| ==> ix[i] < ix[j])
  }

  /**
   * A choice of at most `num_batteries` batteries among the first `k` that
   * could still be completed: the battery at position `j` of the choice
   * leaves enough batteries after it to fill the positions after `j`.
   */
  predicate Admissible(bank: seq<Digit>, numBatteries: nat, ix: seq<nat>, k: nat) {
    Picks(bank, ix, k) && |ix| <= numBatteries
    && forall j :: 0 <= j < |ix| ==> ix[j] + numBatteries <= |bank| + j
  }

  /** Choosing battery `i` after the first `q` of a choice among earlier batteries. */
  lemma PickReplace(bank: seq<Digit>, ix: seq<nat>, q: nat, i: nat)
    requires Picks(bank, ix, i) && q <= |ix| && i < |bank|
    ensures Picks(bank, ix[..q] + [i], i + 1)
    ensures Pick(bank, ix[..q] + [i]) == Pick(bank, ix)[..q] + [bank[i]]
  {
  }

  /** The positions of the held digits. */
  ghost function SelectedPositions(bank: seq<Digit>, numBatteries: nat, k: nat): (ix: seq<nat>)
    requires k <= |bank|
    ensures Picks(bank, ix, k) && Pick(bank, ix) == Selected(bank, numBatteries, k)
  {
    if k == 0 then []
    else
      var m := Selected(bank, numBatteries, k - 1);
      var ix0 := SelectedPositions(bank, numBatteries, k - 1);
      var q := Slot(m, bank[k - 1], Lower(|bank|, numBatteries, k - 1));
      if q < |m| || |m| < numBatteries then
        PickReplace(bank, ix0, q, k - 1);
        assert Selected(bank, numBatteries, k) == m[..q] + [bank[k - 1]];
        ix0[..q] + [k - 1]
      else
        assert Selected(bank, numBatteries, k) == m;
        ix0
  }

  /**
   * After the first `k` batteries the held digits are at least every
   * admissible choice among them.
   */
  lemma {:induction false} SelectedIsGreatest(bank: seq<Digit>, numBatteries: nat, k: nat, ix: seq<nat>)
    requires numBatteries <= |bank| && k <= |bank| && Admissible(bank, numBatteries, ix, k)
    ensures LexLe(Pick(bank, ix), Selected(bank, numBatteries, k))
  {
    if k == 0 {
      assert ix == [];
      assert IsPrefix([], Selected(bank, numBatteries, k));
    } else {
      var m := Selected(bank, numBatteries, k - 1);
      var d := bank[k - 1];
      var lower := Lower(|bank|, numBatteries, k - 1);
      if ix == [] || ix[|ix| - 1] < k - 1 {
        assert Admissible(bank, numBatteries, ix, k - 1);
        SelectedIsGreatest(bank, numBatteries, k - 1, ix);
        InsertGrows(m, d, lower, numBatteries);
        LexLeTrans(Pick(bank, ix), m, Selected(bank, numBatteries, k));
      } else {
        var ix0 := ix[..|ix| - 1];
        AdmissibleLast(bank, numBatteries, ix, k);
        SelectedIsGreatest(bank, numBatteries, k - 1, ix0);
        SelectedLength(bank, numBatteries, k - 1);
        InsertBeats(m, d, lower, numBatteries, Pick(bank, ix0));
      }
    }
  }

  /** An admissible choice that takes battery `k - 1` extends an admissible choice among the first `k - 1`. */
  lemma AdmissibleLast(bank: seq<Digit>, numBatteries: nat, ix: seq<nat>, k: nat)
    requires 0 < k <= |bank| && Admissible(bank, numBatteries, ix, k)
    requires ix != [] && ix[|ix| - 1] >= k - 1
    ensures Admissible(bank, numBatteries, ix[..|ix| - 1], k - 1)
    ensures Pick(bank, ix) == Pick(bank, ix[..|ix| - 1]) + [bank[k - 1]]
    ensures Lower(|bank|, numBatteries, k - 1) <= |ix| - 1 < numBatteries
  {
    var ix0 := ix[..|ix| - 1];
    assert Pick(bank, ix) == Pick(bank, ix0) + [bank[k - 1]];
  }

  /** Every choice of exactly `num_batteries` batteries, in bank order, is admissible. */
  lemma FullChoiceAdmissible(bank: seq<Digit>, numBatteries: nat, ix: seq<nat>)
    requires Picks(bank, ix, |bank|) && |ix| == numBatteries
    ensures Admissible(bank, numBatteries, ix, |bank|)
  {
    forall j | 0 <= j < |ix|
      ensures ix[j] + numBatteries <= |bank| + j
    {
      PicksGap(ix, j, |ix| - 1);
    }
  }

  /** Increasing positions grow by at least one per step. */
  lemma {:induction false} PicksGap(ix: seq<nat>, i: nat, j: nat)
    requires i <= j < |ix| && forall a, b :: 0 <= a < b < |ix| ==> ix[a] < ix[b]
    ensures ix[i] + (j - i) <= ix[j]
  {
    if i < j {
      PicksGap(ix, i, j - 1);
    }
  }

  /**
   * With at least `num_batteries` batteries, the held digits are a choice
   * of exactly `num_batteries` of them in bank order whose joltage no other
   * such choice exceeds.
   */
  lemma SelectedIsBest(bank: seq<Digit>, numBatteries: nat, ix: seq<nat>)
    requires numBatteries <= |bank| && Picks(bank, ix, |bank|) && |ix| == numBatteries
    ensures Picks(bank, SelectedPositions(bank, numBatteries, |bank|), |bank|)
    ensures |Selected(bank, numBatteries, |bank|)| == numBatteries
    ensures Joltage(Pick(bank, ix)) <= Joltage(Selected(bank, numBatteries, |bank|))
  {
    SelectedFull(bank, numBatteries);
    FullChoiceAdmissible(bank, numBatteries, ix);
    SelectedIsGreatest(bank, numBatteries, |bank|, ix);
    LexLeJoltage(Pick(bank, ix), Selected(bank, numBatteries, |bank|));
  }

  /** With fewer than `num_batteries` batteries, every battery is held. */
  lemma {:induction false} SelectedShortBank(bank: seq<Digit>, numBatteries: nat, k: nat)
    requires |bank| < numBatteries && k <= |bank|
    ensures Selected(bank, numBatteries, k) == bank[..k]
  {
    if k > 0 {
      SelectedShortBank(bank, numBatteries, k - 1);
      assert bank[..k] == bank[..k - 1] + [bank[k - 1]];
    }
  }

  // ---------------------------------------------------------------------
  // The methods

  /**
   * `concat_digits`: pops the digits from the back, weighting each by the
   * next power of ten. Returns the joltage and the emptied vector.
   */
  lemma Distribute(base: nat, j: nat, last: nat)
    ensures base * (10 * j + last) == (10 * base) * j + last * base
  {
  }

  method ConcatDigits(digits: seq<Digit>) returns (res: nat, rest: seq<Digit>)
    ensures res == Joltage(digits) && rest == []
  {
    var base: nat := 1;
    res := 0;
    rest := digits;
    while |rest| > 0
      invariant res + base * Joltage(rest) == Joltage(digits)
    {
      var last := rest[|rest| - 1];
      var front := rest[..|rest| - 1];
      ghost var j := Joltage(front);
      assert Joltage(rest) == 10 * j + last;
      Distribute(base, j, last);
      rest := front;
      res := res + last * base;
      base := base * 10;
    }
  }

  /**
   * The body of `calculate_joltage`'s loop for one battery `d`: scan the
   * held digits from `place`, replace the first smaller one and drop the
   * rest; otherwise push `d` when fewer than `num_batteries` are held.
   */
  method PlaceBattery(digits: seq<Digit>, d: Digit, place: nat, numBatteries: nat) returns (digits': seq<Digit>)
    ensures digits' == Insert(digits, d, place, numBatteries)
  {
    digits' := digits;
    var p := place;
    var placed := false;
    while p < |digits'|
      invariant !placed ==> digits' == digits && Slot(digits, d, p) == Slot(digits, d, place)
      invariant placed ==> digits' == Insert(digits, d, place, numBatteries) && p == |digits'|
    {
      if d > digits'[p] {
        digits' := digits'[p := d];
        digits' := digits'[..p + 1];
        placed := true;
      }
      p := p + 1;
    }
    if !placed && |digits'| < numBatteries {
      digits' := digits' + [d];
    }
  }

  /**
   * `calculate_joltage`: each battery, in bank order, is placed from its
   * first allowed slot. The joltage is that of the digits held at the end,
   * which never number more than `num_batteries`.
   */
  method CalculateJoltage(bank: seq<Digit>, numBatteries: nat) returns (j: nat)
    ensures j == Joltage(Selected(bank, numBatteries, |bank|))
    ensures j < Pow10(numBatteries)
  {
    var digits: seq<Digit> := [];
    var bankLen := |bank|;
    for idx := 0 to bankLen
      invariant digits == Selected(bank, numBatteries, idx)
      invariant |digits| <= numBatteries
    {
      var distance := bankLen - idx;
      var place := 0;
      if distance < numBatteries {
        place := numBatteries - distance;
      }
      digits := PlaceBattery(digits, bank[idx], place, numBatteries);
      SelectedLength(bank, numBatteries, idx + 1);
    }
    var rest;
    j, rest := ConcatDigits(digits);
    JoltageBound(digits);
    Pow10Mono(|digits|, numBatteries);
  }

  /** `parse_bank`: one digit per character; any other character panics. */
  function ParseBank(line: string): (bank: seq<Digit>)
    requires AllDigits(line)
    ensures |bank| == |line| && forall i :: 0 <= i < |line| ==> bank[i] == DigitValue(line[i])
  {
    seq(|line|, i requires 0 <= i < |line| => DigitValue(line[i]))
  }

  /** The joltage `calculate_joltage` finds for one bank. */
  function BankJoltage(bank: seq<Digit>, numBatteries: nat): nat {
    Joltage(Selected(bank, numBatteries, |bank|))
  }

  /** Every line, trimmed, is a bank of digits (the source panics otherwise). */
  predicate AllBanks(lines: seq<string>) {
    forall i :: 0 <= i < |lines| ==> AllDigits(Trim(lines[i]))
  }

  /** The joltages of the first `k` lines, each bank parsed from its trimmed line. */
  function TotalJoltage(lines: seq<string>, numBatteries: nat, k: nat): nat
    requires k <= |lines| && AllBanks(lines)
  {
    if k == 0 then 0
    else TotalJoltage(lines, numBatteries, k - 1) + BankJoltage(ParseBank(Trim(lines[k - 1])), numBatteries)
  }

  /**
   * `sum_joltage`: the sum over the `'\n'`-separated lines of the joltage
   * of each trimmed line's bank.
   */
  method SumJoltage(input: string, numBatteries: nat) returns (total: nat)
    requires AllBanks(Split(input, '\n'))
    ensures total == TotalJoltage(Split(input, '\n'), numBatteries, |Split(input, '\n')|)
  {
    var lines := Split(input, '\n');
    total := 0;
    for k := 0 to |lines|
      invariant total == TotalJoltage(lines, numBatteries, k)
    {
      var bank := ParseBank(Trim(lines[k]));
      var j := CalculateJoltage(bank, numBatteries);
      assert TotalJoltage(lines, numBatteries, k + 1) == total + BankJoltage(bank, numBatteries);
      total := total + j;
    }
  }

  // ---------------------------------------------------------------------
  // The examples of the tests

  /** While the bank does not rise and there is room, every battery is pushed. */
  lemma {:induction false} SelectedNonIncreasing(bank: seq<Digit>, numBatteries: nat, k: nat)
    requires k <= numBatteries && k <= |bank|
    requires forall i, j :: 0 <= j < i < k ==> bank[i] <= bank[j]
    ensures Selected(bank, numBatteries, k) == bank[..k]
  {
    if k > 0 {
      SelectedNonIncreasing(bank, numBatteries, k - 1);
      var m := bank[..k - 1];
      var q := Slot(m, bank[k - 1], Lower(|bank|, numBatteries, k - 1));
      assert q == |m|;
      assert bank[..k] == m + [bank[k - 1]];
    }
  }

  /** Once `num_batteries` digits are held, batteries no larger than any of them change nothing. */
  lemma {:induction false} SelectedKeep(bank: seq<Digit>, numBatteries: nat, k: nat, last: nat, m: seq<Digit>, t: Digit)
    requires k <= last <= |bank| && Selected(bank, numBatteries, k) == m && |m| == numBatteries
    requires forall j :: 0 <= j < |m| ==> t <= m[j]
    requires forall i :: k <= i < last ==> bank[i] <= t
    ensures Selected(bank, numBatteries, last) == m
  {
    if last > k {
      SelectedKeep(bank, numBatteries, k, last - 1, m, t);
      var q := Slot(m, bank[last - 1], Lower(|bank|, numBatteries, last - 1));
      assert q == |m|;
    }
  }

  lemma SelectedNext(bank: seq<Digit>, numBatteries: nat, k: nat, m: seq<Digit>)
    requires k < |bank| && Selected(bank, numBatteries, k) == m
    ensures Selected(bank, numBatteries, k + 1) == Insert(m, bank[k], Lower(|bank|, numBatteries, k), numBatteries)
  {
  }

  lemma JoltageTwo(a: Digit, b: Digit)
    ensures Joltage([a, b]) == 10 * a + b
  {
    JoltageSnoc([], a);
    JoltageSnoc([a], b);
    assert [] + [a] == [a] && [a] + [b] == [a, b];
  }

  /**
   * A bank that opens with `num_batteries` non-increasing digits, all at
   * least `t`, and continues with digits at most `t`, keeps its opening.
   */
  lemma SelectedOpening(bank: seq<Digit>, numBatteries: nat, t: Digit)
    requires numBatteries <= |bank|
    requires forall i, j :: 0 <= j < i < numBatteries ==> bank[i] <= bank[j]
    requires forall j :: 0 <= j < numBatteries ==> t <= bank[j]
    requires forall i :: numBatteries <= i < |bank| ==> bank[i] <= t
    ensures Selected(bank, numBatteries, |bank|) == bank[..numBatteries]
  {
    SelectedNonIncreasing(bank, numBatteries, numBatteries);
    SelectedKeep(bank, numBatteries, numBatteries, |bank|, bank[..numBatteries], t);
  }

  /** The bank `987654321111111` with two batteries gives 98. */
  lemma ExampleSafeFirst(bank: seq<Digit>)
    requires bank == [9, 8, 7, 6, 5, 4, 3, 2, 1, 1, 1, 1, 1, 1, 1]
    ensures BankJoltage(bank, SAFE_NUM_BATTERIES) == 98
  {
    SelectedOpening(bank, 2, 7);
    assert bank[..2] == [9, 8];
    JoltageTwo(9, 8);
  }

  /** The bank `811111111111119` with two batteries gives 89: the last 9 takes the second slot. */
  lemma ExampleSafeSecond(bank: seq<Digit>)
    requires bank == [8, 1, 1, 1, 1, 1, 1, 1, 1, 1, 1, 1, 1, 1, 9]
    ensures BankJoltage(bank, SAFE_NUM_BATTERIES) == 89
  {
    assert bank[..2] == [8, 1];
    SafeSecondHeld(bank);
    SelectedNext(bank, 2, 14, [8, 1]);
    assert Slot([8, 1], 9, 1) == 1;
    assert Insert([8, 1], 9, 1, 2) == [8, 9];
    JoltageTwo(8, 9);
  }

  /** Before its last battery, the bank `811111111111119` holds `[8, 1]`. */
  lemma SafeSecondHeld(bank: seq<Digit>)
    requires |bank| == 15 && bank[..2] == [8, 1]
    requires forall i :: 2 <= i < 14 ==> bank[i] <= 1
    ensures Selected(bank, 2, 14) == [8, 1] && Lower(|bank|, 2, 14) == 1
  {
    SelectedNonIncreasing(bank, 2, 2);
    SelectedKeep(bank, 2, 2, 14, [8, 1], 1);
  }

  /** The bank `987654321111111` with twelve batteries gives 987654321111. */
  lemma ExampleUnsafeFirst(bank: seq<Digit>)
    requires bank == [9, 8, 7, 6, 5, 4, 3, 2, 1, 1, 1, 1, 1, 1, 1]
    ensures BankJoltage(bank, UNSAFE_NUM_BATTERIES) == 987654321111
  {
    SelectedOpening(bank, 12, 1);
    JoltageTwelve(bank[..12]);
  }

  lemma JoltageTwelve(m: seq<Digit>)
    requires m == [9, 8, 7, 6, 5, 4, 3, 2, 1, 1, 1, 1]
    ensures Joltage(m) == 987654321111
  {
    var p: seq<Digit> := [];
    var value := 0;
    JoltageSnoc(p, 9); p, value := p + [9], 10 * value + 9;
    JoltageSnoc(p, 8); p, value := p + [8], 10 * value + 8;
    JoltageSnoc(p, 7); p, value := p + [7], 10 * value + 7;
    JoltageSnoc(p, 6); p, value := p + [6], 10 * value + 6;
    JoltageSnoc(p, 5); p, value := p + [5], 10 * value + 5;
    JoltageSnoc(p, 4); p, value := p + [4], 10 * value + 4;
    JoltageSnoc(p, 3); p, value := p + [3], 10 * value + 3;
    JoltageSnoc(p, 2); p, value := p + [2], 10 * value + 2;
    JoltageSnoc(p, 1); p, value := p + [1], 10 * value + 1;
    JoltageSnoc(p, 1); p, value := p + [1], 10 * value + 1;
    JoltageSnoc(p, 1); p, value := p + [1], 10 * value + 1;
    JoltageSnoc(p, 1); p, value := p + [1], 10 * value + 1;
    assert p == m;
  }
}
