/**
 * `y2025/day1.rs`: a safe dial numbered 0 to 99, starting at 50, turned by
 * a list of rotations such as `L68` or `R14`. The first password counts
 * the rotations that leave the dial on 0; the second counts every click
 * that passes 0, full turns included.
 */
module Y2025Day1 {
  import opened Strings

  datatype Direction = Left | Right

  /** A rotation by `100 * fullSpins + distance` clicks; `distance < 100` once parsed. */
  datatype Rotation = Rotation(direction: Direction, distance: nat, fullSpins: nat)

  predicate WellFormed(r: Rotation) {
    r.distance < 100
  }

  /** A parsed rotation: the partial turn is below a full turn. */
  type DialRotation = r: Rotation | WellFormed(r) witness Rotation(Left, 0, 0)

  /** The number of clicks the rotation turns. */
  function Clicks(r: Rotation): nat {
    100 * r.fullSpins + r.distance
  }

  /** The signed number of clicks: to the right counts up, to the left down. */
  function Offset(r: Rotation): int {
    var c: int := Clicks(r);
    if r.direction == Right then c else -c
  }

  /** `Rotation::from`: panics unless the line is `L` or `R` followed by a `u32`. */
  predicate IsRotationLine(s: string) {
    |s| >= 1 && (s[0] == 'L' || s[0] == 'R') && ParseUnsigned(s[1..], U32_MAX).Some?
  }

  function From(s: string): (r: DialRotation)
    requires IsRotationLine(s)
    ensures Clicks(r) == ParseUnsigned(s[1..], U32_MAX).value
    ensures r.direction == Left <==> s[0] == 'L'
  {
    var n := ParseUnsigned(s[1..], U32_MAX).value;
    Rotation(if s[0] == 'L' then Left else Right, n % 100, n / 100)
  }

  /** The line a rotation is written as. */
  function Render(r: Rotation): string {
    [if r.direction == Left then 'L' else 'R'] + Show(Clicks(r))
  }

  /** Reading the rendering of a well-formed rotation gives it back. */
  lemma FromRender(r: Rotation)
    requires WellFormed(r) && Clicks(r) <= U32_MAX
    ensures IsRotationLine(Render(r)) && From(Render(r)) == r
  {
    var s := Render(r);
    assert s[1..] == Show(Clicks(r));
    ParseShow(Clicks(r), U32_MAX);
  }

  /**
   * `rotate`: the dial position after the rotation. Full turns do not move
   * the dial, so only `distance` is added (to the right) or taken away (to
   * the left, as `100 - distance` to stay unsigned).
   */
  function Rotate(r: Rotation, start: nat): (p: nat)
    requires WellFormed(r)
    ensures p < 100
  {
    match r.direction
    case Left => (start + (100 - r.distance)) % 100
    case Right => (start + r.distance) % 100
  }

  lemma ModShift(x: int, s: int)
    ensures (x + 100 * s) % 100 == x % 100
  {
    DivShift(x, s);
  }

  /** The dial ends where the whole signed turn, full turns included, takes it modulo 100. */
  lemma RotateOffset(r: Rotation, start: nat)
    requires WellFormed(r)
    ensures Rotate(r, start) == (start + Offset(r)) % 100
  {
    var s: int := r.fullSpins;
    if r.direction == Right {
      ModShift(start + r.distance, s);
      assert start + Offset(r) == start + r.distance + 100 * s;
    } else {
      ModShift(start + (100 - r.distance), -s - 1);
      assert start + Offset(r) == start + (100 - r.distance) + 100 * (-s - 1);
    }
  }

  /** Rust's `%` on `i32`: the remainder takes the sign of the dividend. */
  function TruncRem(a: int, m: nat): int
    requires m > 0
  {
    if a >= 0 then a % m else -((-a) % m)
  }

  /**
   * `rotate_count_zeroes`: the new position and how often the dial points
   * at 0 during the rotation. From 0 only the full turns count; otherwise
   * one more when the partial turn reaches or passes 0.
   */
  function RotateCountZeroes(r: Rotation, start: nat): (res: (nat, nat))
    requires WellFormed(r)
    ensures res.0 == Rotate(r, start)
    ensures res.1 >= r.fullSpins
    ensures start == 0 ==> res.1 == r.fullSpins
  {
    if start == 0 then (Rotate(r, start), r.fullSpins)
    else
      var pos: int := if r.direction == Left then start - r.distance else start + r.distance;
      var count := r.fullSpins + (if pos >= 100 || pos <= 0 then 1 else 0);
      var rem := TruncRem(pos, 100);
      var p := if rem < 0 then rem + 100 else rem;
      (p, count)
  }

  /** The position after `k` single clicks in direction `d`, before wrapping. */
  function Turned(start: int, d: Direction, k: nat): int {
    if d == Right then start + k else start - k
  }

  /** The number of the first `n` clicks from `start` in direction `d` after which the dial shows 0. */
  function ZeroClicks(start: int, d: Direction, n: nat): nat {
    if n == 0 then 0
    else ZeroClicks(start, d, n - 1) + (if Turned(start, d, n) % 100 == 0 then 1 else 0)
  }

  lemma FloorStep(m: int)
    ensures m / 100 - (m - 1) / 100 == if m % 100 == 0 then 1 else 0
  {
  }

  lemma {:induction false} ZeroClicksRight(start: int, n: nat)
    ensures ZeroClicks(start, Right, n) == (start + n) / 100 - start / 100
  {
    if n > 0 {
      ZeroClicksRight(start, n - 1);
      FloorStep(start + n);
    }
  }

  lemma {:induction false} ZeroClicksLeft(start: int, n: nat)
    ensures ZeroClicks(start, Left, n) == (start - 1) / 100 - (start - n - 1) / 100
  {
    if n > 0 {
      ZeroClicksLeft(start, n - 1);
      FloorStep(start - n);
    }
  }

  lemma DivShift(x: int, s: int)
    ensures (x + 100 * s) / 100 == x / 100 + s
  {
  }

  /** Clicks to the right from a dial position: the full turns, and one more if the rest reaches 100. */
  lemma RightCount(start: int, s: nat, d: nat)
    requires 0 <= start < 100 && d < 100
    ensures (start + (100 * s + d)) / 100 - start / 100 == s + (if start + d >= 100 then 1 else 0)
  {
    DivShift(start + d, s);
    assert start + (100 * s + d) == start + d + 100 * s;
  }

  /** Clicks to the left from a dial position: the full turns, and one more if the rest reaches 0 from above. */
  lemma LeftCount(start: int, s: nat, d: nat)
    requires 0 <= start < 100 && d < 100
    ensures (start - 1) / 100 - (start - (100 * s + d) - 1) / 100
         == s + (if start != 0 && d >= start then 1 else 0)
  {
    var t: int := s;
    DivShift(start - d - 1, -t);
    assert start - (100 * s + d) - 1 == start - d - 1 + 100 * -t;
  }

  /**
   * For a dial position, the count `rotate_count_zeroes` returns is the
   * number of clicks of the whole rotation after which the dial shows 0.
   */
  lemma CountZeroesIsZeroClicks(r: Rotation, start: nat)
    requires WellFormed(r) && start < 100
    ensures RotateCountZeroes(r, start).1 == ZeroClicks(start, r.direction, Clicks(r))
  {
    if r.direction == Right {
      ZeroClicksRight(start, Clicks(r));
      RightCount(start, r.fullSpins, r.distance);
    } else {
      ZeroClicksLeft(start, Clicks(r));
      LeftCount(start, r.fullSpins, r.distance);
    }
  }

  /** The number of rotations, from `pos`, that leave the dial on 0. */
  function Password(pos: nat, rs: seq<DialRotation>): nat
    decreases |rs|
  {
    if rs == [] then 0
    else
      var p := Rotate(rs[0], pos);
      (if p == 0 then 1 else 0) + Password(p, rs[1..])
  }

  /** The sum of the counts of `rotate_count_zeroes` along the rotations from `pos`. */
  function Secure(pos: nat, rs: seq<DialRotation>): nat
    decreases |rs|
  {
    if rs == [] then 0
    else
      var step := RotateCountZeroes(rs[0], pos);
      step.1 + Secure(step.0, rs[1..])
  }

  /** `calculate_password`: from 50, counts the rotations that end on 0. */
  method CalculatePassword(rs: seq<DialRotation>) returns (password: nat)
    ensures password == Password(50, rs)
  {
    var pos: nat := 50;
    password := 0;
    for i := 0 to |rs|
      invariant pos < 100 || i == 0
      invariant password + Password(pos, rs[i..]) == Password(50, rs)
    {
      assert rs[i..][1..] == rs[i + 1..];
      pos := Rotate(rs[i], pos);
      if pos == 0 {
        password := password + 1;
      }
    }
    assert rs[|rs|..] == [];
  }

  /** `calculate_password_secure`: from 50, sums the counts of `rotate_count_zeroes`. */
  method CalculatePasswordSecure(rs: seq<DialRotation>) returns (password: nat)
    ensures password == Secure(50, rs)
  {
    password := 0;
    var pos: nat := 50;
    for i := 0 to |rs|
      invariant password + Secure(pos, rs[i..]) == Secure(50, rs)
    {
      assert rs[i..][1..] == rs[i + 1..];
      var step := RotateCountZeroes(rs[i], pos);
      pos := step.0;
      password := password + step.1;
    }
    assert rs[|rs|..] == [];
  }

  /**
   * The secure password counts every stop on 0 as well: each rotation that
   * turns at least one click and ends on 0 passes 0 on its last click.
   */
  lemma {:induction false} SecureCountsStops(pos: nat, rs: seq<DialRotation>)
    requires pos < 100
    requires forall i :: 0 <= i < |rs| ==> Clicks(rs[i]) > 0
    ensures Secure(pos, rs) >= Password(pos, rs)
    decreases |rs|
  {
    if rs != [] {
      StopCounted(rs[0], pos);
      SecureCountsStops(Rotate(rs[0], pos), rs[1..]);
    }
  }

  /** A rotation of at least one click that ends on 0 counts that stop among its zeroes. */
  lemma StopCounted(r: DialRotation, pos: nat)
    requires pos < 100 && Clicks(r) > 0
    ensures Rotate(r, pos) == 0 ==> RotateCountZeroes(r, pos).1 >= 1
  {
    CountZeroesIsZeroClicks(r, pos);
    if Rotate(r, pos) == 0 {
      RotateOffset(r, pos);
      assert Turned(pos, r.direction, Clicks(r)) == pos + Offset(r);
    }
  }

  /** `parse`: one rotation per line, each line trimmed. */
  function Parse(input: string): (rs: seq<DialRotation>)
    requires forall l :: l in Split(input, '\n') ==> IsRotationLine(Trim(l))
    ensures |rs| == |Split(input, '\n')|
  {
    var lines := Split(input, '\n');
    seq(|lines|, i requires 0 <= i < |lines| => From(Trim(lines[i])))
  }

  /** One rotation more: its own stop and count added in front of the rest. */
  lemma Cons(pos: nat, r: DialRotation, rest: seq<DialRotation>)
    ensures Password(pos, [r] + rest) == (if Rotate(r, pos) == 0 then 1 else 0) + Password(Rotate(r, pos), rest)
    ensures Secure(pos, [r] + rest) == RotateCountZeroes(r, pos).1 + Secure(Rotate(r, pos), rest)
  {
    assert ([r] + rest)[1..] == rest;
  }

  /** The last five rotations of the example: from 55, stops 0, 99, 0, 14, 32; zero counts 1, 0, 1, 0, 1. */
  lemma ExampleTail(r5: DialRotation, r6: DialRotation, r7: DialRotation, r8: DialRotation, r9: DialRotation)
    requires Rotate(r5, 55) == 0 && Rotate(r6, 0) == 99 && Rotate(r7, 99) == 0
    requires Rotate(r8, 0) == 14 && Rotate(r9, 14) == 32
    requires RotateCountZeroes(r5, 55).1 == 1 && RotateCountZeroes(r6, 0).1 == 0
    requires RotateCountZeroes(r7, 99).1 == 1 && RotateCountZeroes(r8, 0).1 == 0
    requires RotateCountZeroes(r9, 14).1 == 1
    ensures Password(55, [r5, r6, r7, r8, r9]) == 2 && Secure(55, [r5, r6, r7, r8, r9]) == 3
  {
    var t10: seq<DialRotation> := [];
    Cons(14, r9, t10);
    var t9 := [r9] + t10;
    Cons(0, r8, t9);
    var t8 := [r8] + t9;
    Cons(99, r7, t8);
    var t7 := [r7] + t8;
    Cons(0, r6, t7);
    var t6 := [r6] + t7;
    Cons(55, r5, t6);
    assert [r5, r6, r7, r8, r9] == [r5] + t6;
  }

  /**
   * A run of ten rotations whose stops are 82, 52, 0, 95, 55, 0, 99, 0, 14,
   * 32 from 50 and whose zero counts are 1, 0, 1, 0, 1, 1, 0, 1, 0, 1.
   */
  lemma ExampleChain(r0: DialRotation, r1: DialRotation, r2: DialRotation, r3: DialRotation, r4: DialRotation,
                     r5: DialRotation, r6: DialRotation, r7: DialRotation, r8: DialRotation, r9: DialRotation)
    requires Rotate(r0, 50) == 82 && Rotate(r1, 82) == 52 && Rotate(r2, 52) == 0 && Rotate(r3, 0) == 95
    requires Rotate(r4, 95) == 55
    requires Password(55, [r5, r6, r7, r8, r9]) == 2 && Secure(55, [r5, r6, r7, r8, r9]) == 3
    requires RotateCountZeroes(r0, 50).1 == 1 && RotateCountZeroes(r1, 82).1 == 0
    requires RotateCountZeroes(r2, 52).1 == 1 && RotateCountZeroes(r3, 0).1 == 0
    requires RotateCountZeroes(r4, 95).1 == 1
    ensures var rs := [r0, r1, r2, r3, r4, r5, r6, r7, r8, r9];
            Password(50, rs) == 3 && Secure(50, rs) == 6
  {
    var t5 := [r5, r6, r7, r8, r9];
    Cons(95, r4, t5);
    var t4 := [r4] + t5;
    Cons(0, r3, t4);
    var t3 := [r3] + t4;
    Cons(52, r2, t3);
    var t2 := [r2] + t3;
    Cons(82, r1, t2);
    var t1 := [r1] + t2;
    Cons(50, r0, t1);
    assert [r0, r1, r2, r3, r4, r5, r6, r7, r8, r9] == [r0] + t1;
  }

  /** On the example, `L68` to `L82`, the dial stops on 0 three times and passes it six times. */
  lemma ExamplePasswords(r0: DialRotation, r1: DialRotation, r2: DialRotation, r3: DialRotation,
                         r4: DialRotation, r5: DialRotation, r6: DialRotation, r7: DialRotation,
                         r8: DialRotation, r9: DialRotation)
    requires r0 == Rotation(Left, 68, 0) && r1 == Rotation(Left, 30, 0) && r2 == Rotation(Right, 48, 0)
    requires r3 == Rotation(Left, 5, 0) && r4 == Rotation(Right, 60, 0) && r5 == Rotation(Left, 55, 0)
    requires r6 == Rotation(Left, 1, 0) && r7 == Rotation(Left, 99, 0) && r8 == Rotation(Right, 14, 0)
    requires r9 == Rotation(Left, 82, 0)
    ensures var rs := [r0, r1, r2, r3, r4, r5, r6, r7, r8, r9];
            Password(50, rs) == 3 && Secure(50, rs) == 6
  {
    ExampleTail(r5, r6, r7, r8, r9);
    ExampleChain(r0, r1, r2, r3, r4, r5, r6, r7, r8, r9);
  }
}
