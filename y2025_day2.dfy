/**
 * `y2025/day2.rs`: product-id ranges and the "invalid" ids inside them.
 * An id is invalid when its decimal form is one block of digits written
 * twice (`6464`, `123123`); `list_invalid_ids` enumerates the blocks from
 * the one nearest the range's lower end to the one nearest its upper end.
 */
module Y2025Day2 {
  import opened Wrappers
  import opened Strings
  import opened Decimal

  // ---------------------------------------------------------------------
  // Decimal digits

  /** The number of decimal digits of `x`; zero is written with one digit. */
  function Digits(x: nat): (d: nat)
    ensures d >= 1
  {
    if x < 10 then 1 else 1 + Digits(x / 10)
  }

  /** `x` has `Digits(x)` digits: it lies below `10^Digits(x)` and, unless zero, at or above `10^(Digits(x) - 1)`. */
  lemma {:induction false} DigitsBounds(x: nat)
    ensures x < Pow10(Digits(x))
    ensures x >= 1 ==> Pow10(Digits(x) - 1) <= x
  {
    if x >= 10 {
      DigitsBounds(x / 10);
    }
  }

  /** Conversely, a number between `10^(e-1)` and `10^e` has exactly `e` digits. */
  lemma {:induction false} DigitsUnique(x: nat, e: nat)
    requires e >= 1 && Pow10(e - 1) <= x < Pow10(e)
    ensures Digits(x) == e
  {
    if e > 1 {
      Pow10Mono(1, e - 1);
      assert Pow10(e - 1) == 10 * Pow10(e - 2);
      DigitsUnique(x / 10, e - 1);
    }
  }

  lemma {:induction false} DigitsMono(x: nat, y: nat)
    requires x <= y
    ensures Digits(x) <= Digits(y)
  {
    if x >= 10 {
      DigitsMono(x / 10, y / 10);
    }
  }

  /** `count_digits`: the loop divides by ten until nothing is left. */
  method CountDigits(inp: nat) returns (c: nat)
    ensures c == Digits(inp)
  {
    c := 1;
    var x: nat := inp / 10;
    while x > 0
      invariant Digits(inp) == c + (if x == 0 then 0 else Digits(x))
    {
      c := c + 1;
      x := x / 10;
    }
  }

  // ---------------------------------------------------------------------
  // Repeated blocks

  /** The id spelled by the block `b` written twice: `b * 10^e + b` where `b` has `e` digits. */
  function Rep(b: nat): nat {
    b * Pow10(Digits(b)) + b
  }

  /** An invalid id: some block of digits, without leading zeros, written twice. */
  ghost predicate IsInvalid(n: nat) {
    exists b: nat :: 1 <= b && Rep(b) == n
  }

  /** Doubling a block of `e` digits gives `2e` digits. */
  lemma RepDigits(b: nat)
    requires b >= 1
    ensures Digits(Rep(b)) == 2 * Digits(b)
  {
    var e := Digits(b);
    var p := Pow10(e);
    DigitsBounds(b);
    Pow10Add(e - 1, e);
    Pow10Add(e, e);
    MulMono(Pow10(e - 1), b, p);
    MulMono(b, p - 1, p);
    MulSucc(p - 1, p);
    assert e - 1 + e == 2 * e - 1;
    DigitsUnique(Rep(b), 2 * e);
  }

  /** A block of `e` digits doubles to `b * 10^e + b`. */
  lemma RepOf(b: nat, e: nat)
    requires e >= 1 && Pow10(e - 1) <= b < Pow10(e)
    ensures Rep(b) == b * Pow10(e) + b
  {
    DigitsUnique(b, e);
  }

  /** A longer block never gives a smaller id, so `Rep` is strictly increasing. */
  lemma RepMono(b: nat, c: nat)
    requires 1 <= b < c
    ensures Rep(b) < Rep(c)
  {
    DigitsMono(b, c);
    if Digits(b) == Digits(c) {
      MulMono(b, c, Pow10(Digits(b)));
    } else {
      RepDigits(b);
      RepDigits(c);
      if Rep(c) <= Rep(b) {
        DigitsMono(Rep(c), Rep(b));
      }
    }
  }

  // ---------------------------------------------------------------------
  // Nearest candidate blocks

  /**
   * The block `nearest_candidate` picks for `x` with `d` digits, and its
   * length: the upper half of `x` when `d` is even, otherwise the smallest
   * block one digit longer than half of `x`.
   */
  function Nearest(x: nat): (nat, nat) {
    var d := Digits(x);
    if d % 2 == 0 then (x / Pow10(d / 2), d / 2) else (Pow10(d / 2), d / 2 + 1)
  }

  /** The nearest block is a positive number of exactly the length returned with it. */
  lemma NearestBlock(x: nat)
    ensures Nearest(x).1 >= 1 && Nearest(x).0 >= 1
    ensures Digits(Nearest(x).0) == Nearest(x).1
  {
    var d := Digits(x);
    var e := d / 2;
    if d % 2 == 0 {
      DigitsBounds(x);
      Pow10Add(e - 1, e);
      Pow10Add(e, e);
      assert e - 1 + e == d - 1;
      DivBounds(x, Pow10(e), Pow10(e - 1), Pow10(e));
      DigitsUnique(x / Pow10(e), e);
    } else {
      Pow10Mono(e, e + 1);
      DigitsUnique(Pow10(e), e + 1);
    }
  }

  /** No block below the nearest one repeats to an id at or above `x`. */
  lemma NearestBelow(x: nat, b: nat)
    requires 1 <= b && x <= Rep(b)
    ensures Nearest(x).0 <= b
  {
    var d := Digits(x);
    var (base, e) := Nearest(x);
    NearestBlock(x);
    if b < base {
      DigitsMono(b, base);
      RepDigits(b);
      DigitsMono(x, Rep(b));
      if Digits(b) == e {
        DigitsBounds(b);
        if d % 2 == 0 {
          // `Rep(b) < (b + 1) * 10^e <= base * 10^e <= x`
          var p := Pow10(e);
          assert base == x / p;
          MulMono(b + 1, base, p);
          DivMod(x, p);
          MulSucc(b, p);
        }
      }
    }
  }

  /** No block above the nearest one repeats to an id at or below `x`. */
  lemma NearestAbove(x: nat, b: nat)
    requires 1 <= b && Rep(b) <= x
    ensures b <= Nearest(x).0
  {
    var d := Digits(x);
    var (base, e) := Nearest(x);
    NearestBlock(x);
    if b > base {
      DigitsMono(base, b);
      RepDigits(b);
      DigitsMono(Rep(b), x);
      if Digits(b) == e && d % 2 == 0 {
        // `x < (base + 1) * 10^e <= b * 10^e <= Rep(b)`
        var p := Pow10(e);
        assert base == x / p;
        MulMono(base + 1, b, p);
        DivMod(x, p);
        MulSucc(base, p);
      }
    }
  }

  /** `nearest_candidate`, counting the digits with the loop of `count_digits`. */
  method NearestCandidate(x: nat) returns (base: nat, exp: nat)
    ensures (base, exp) == Nearest(x)
  {
    var d := CountDigits(x);
    if d % 2 == 0 {
      exp := d / 2;
      base := Quotient(x, Pow10(exp));
      return;
    }
    exp := d / 2 + 1;
    return Pow10(exp - 1), exp;
  }

  // ---------------------------------------------------------------------
  // Ranges

  /** An inclusive range of product ids; nothing requires `min <= max`. */
  datatype ProductIdRange = ProductIdRange(min: nat, max: nat) {
    /** `contains`: inclusive at both ends. */
    predicate Contains(x: nat) {
      min <= x <= max
    }
  }

  datatype RangeParseError = InvalidRange | NotInteger

  /**
   * `from_str`: the first two `-`-separated pieces are parsed as `u64`.
   * A piece that does not parse gives `NotInteger`; a missing second piece
   * gives `InvalidRange`; pieces after the second are ignored.
   */
  function ParseRange(s: string): (r: Result<ProductIdRange, RangeParseError>)
    ensures r.Ok? ==> r.value.min <= U64_MAX && r.value.max <= U64_MAX
    ensures r.Ok? <==> |Split(s, '-')| >= 2
                       && ParseUnsigned(Split(s, '-')[0], U64_MAX).Some?
                       && ParseUnsigned(Split(s, '-')[1], U64_MAX).Some?
    ensures r == Err(InvalidRange) <==> |Split(s, '-')| == 1 && ParseUnsigned(s, U64_MAX).Some?
  {
    var pieces := Split(s, '-');
    match ParseUnsigned(pieces[0], U64_MAX)
    case None => Err(NotInteger)
    case Some(min) =>
      if |pieces| < 2 then Err(InvalidRange)
      else
        match ParseUnsigned(pieces[1], U64_MAX)
        case None => Err(NotInteger)
        case Some(max) => Ok(ProductIdRange(min, max))
  }

  /** Parsing `"a-b"` written out in decimal gives the range back. */
  lemma ParseRangeShow(a: nat, b: nat)
    requires a <= U64_MAX && b <= U64_MAX
    ensures ParseRange(Show(a) + "-" + Show(b)) == Ok(ProductIdRange(a, b))
  {
    var pieces := [Show(a), Show(b)];
    assert Join(pieces, '-') == Show(a) + "-" + Show(b);
    assert forall i :: 0 <= i < |pieces| ==> '-' !in pieces[i] by {
      forall i, j | 0 <= i < |pieces| && 0 <= j < |pieces[i]| ensures pieces[i][j] != '-' {
        assert IsDigit(pieces[i][j]);
      }
    }
    SplitJoin(pieces, '-');
    ParseShow(a, U64_MAX);
    ParseShow(b, U64_MAX);
  }

  // ---------------------------------------------------------------------
  // Enumerating the invalid ids

  /** The ids of the blocks `lo <= b < hi` that lie in `r`, in block order. */
  function Listed(r: ProductIdRange, lo: nat, hi: nat): seq<nat>
    requires lo >= 1
  {
    if hi <= lo then []
    else Listed(r, lo, hi - 1) + (if r.Contains(Rep(hi - 1)) then [Rep(hi - 1)] else [])
  }

  predicate StrictlyIncreasing(s: seq<nat>) {
    forall i, j :: 0 <= i < j < |s| ==> s[i] < s[j]
  }

  /** Every listed id is an invalid id of `r` below the id of block `hi`, and the list increases. */
  lemma {:induction false} ListedSound(r: ProductIdRange, lo: nat, hi: nat)
    requires lo >= 1
    ensures forall n :: n in Listed(r, lo, hi) ==> r.Contains(n) && IsInvalid(n) && n < Rep(hi)
    ensures StrictlyIncreasing(Listed(r, lo, hi))
  {
    if hi > lo {
      ListedSound(r, lo, hi - 1);
      RepMono(hi - 1, hi);
      assert IsInvalid(Rep(hi - 1));
      var prefix := Listed(r, lo, hi - 1);
      var all := Listed(r, lo, hi);
      forall i, j | 0 <= i < j < |all|
        ensures all[i] < all[j]
      {
        assert all[i] == prefix[i] && prefix[i] in prefix;
        if j < |prefix| {
          assert all[j] == prefix[j];
        }
      }
    }
  }

  /** Every block `lo <= b < hi` whose id lies in `r` is listed. */
  lemma {:induction false} ListedComplete(r: ProductIdRange, lo: nat, hi: nat, b: nat)
    requires 1 <= lo <= b < hi && r.Contains(Rep(b))
    ensures Rep(b) in Listed(r, lo, hi)
  {
    if b < hi - 1 {
      ListedComplete(r, lo, hi - 1, b);
    }
  }

  /**
   * Listing from the lower end's nearest block to past the upper end's
   * nearest block gives exactly the invalid ids of the range, increasing.
   */
  lemma ListedExact(r: ProductIdRange, hi: nat)
    requires Nearest(r.min).0 >= 1 && hi > Nearest(r.max).0
    ensures forall n :: n in Listed(r, Nearest(r.min).0, hi) <==> r.Contains(n) && IsInvalid(n)
    ensures StrictlyIncreasing(Listed(r, Nearest(r.min).0, hi))
  {
    var lo := Nearest(r.min).0;
    ListedSound(r, lo, hi);
    forall n | r.Contains(n) && IsInvalid(n)
      ensures n in Listed(r, lo, hi)
    {
      var b: nat :| 1 <= b && Rep(b) == n;
      NearestBelow(r.min, b);
      NearestAbove(r.max, b);
      ListedComplete(r, lo, hi, b);
    }
  }

  /** The bounds the enumeration starts from: both nearest blocks have the length returned with them. */
  lemma NearestRange(r: ProductIdRange)
    ensures var (minBase, minExp) := Nearest(r.min);
      minBase >= 1 && minExp >= 1 && Pow10(minExp - 1) <= minBase < Pow10(minExp)
    ensures Nearest(r.max).0 < Pow10(Nearest(r.max).1)
    ensures Nearest(r.min).1 > Nearest(r.max).1 ==> Nearest(r.min).0 > Nearest(r.max).0
  {
    NearestBlock(r.min);
    NearestBlock(r.max);
    DigitsBounds(Nearest(r.min).0);
    DigitsBounds(Nearest(r.max).0);
    if Nearest(r.min).0 <= Nearest(r.max).0 {
      DigitsMono(Nearest(r.min).0, Nearest(r.max).0);
    }
  }

  /**
   * The inner loop of `list_invalid_ids`: every block from `base` up to,
   * not including, `z` (all of length `exp`) is doubled, and the id is
   * appended when the range contains it.
   */
  method PushBlocks(r: ProductIdRange, lo: nat, ids: seq<nat>, base: nat, exp: nat, z: nat)
      returns (ids': seq<nat>, base': nat)
    requires 1 <= lo <= base && exp >= 1 && Pow10(exp - 1) <= base && z <= Pow10(exp)
    requires ids == Listed(r, lo, base)
    ensures base' == if base < z then z else base
    ensures ids' == Listed(r, lo, base')
  {
    var y := Pow10(exp);
    ids', base' := ids, base;
    while base' < z
      invariant base <= base' && (base' <= z || base' == base)
      invariant ids' == Listed(r, lo, base')
    {
      var candidate: nat := base' * y + base';
      RepOf(base', exp);
      if r.Contains(candidate) {
        ids' := ids' + [candidate];
      }
      base' := base' + 1;
    }
  }

  /**
   * `list_invalid_ids`: for each block length from the lower end's to the
   * upper end's, every block from the current one up to the last block of
   * that length (the upper end's block for the last length) is doubled, and
   * the id is kept when the range contains it. The result is exactly the
   * invalid ids of the range, in increasing order.
   */
  method ListInvalidIds(r: ProductIdRange) returns (ids: seq<nat>)
    ensures forall n :: n in ids <==> r.Contains(n) && IsInvalid(n)
    ensures StrictlyIncreasing(ids)
  {
    var minBase, minExp := NearestCandidate(r.min);
    var maxBase, maxExp := NearestCandidate(r.max);
    NearestRange(r);
    ids := [];
    var base := minBase;
    var exp := minExp;
    while exp <= maxExp
      invariant 1 <= minBase <= base && exp >= 1
      invariant exp <= maxExp ==> Pow10(exp - 1) <= base <= Pow10(exp)
      invariant exp > maxExp ==> base > maxBase
      invariant ids == Listed(r, minBase, base)
    {
      var z := Pow10(exp);
      if exp == maxExp {
        z := maxBase + 1;
      }
      ids, base := PushBlocks(r, minBase, ids, base, exp, z);
      if exp < maxExp {
        assert base == Pow10(exp);
        Pow10Mono(exp, exp + 1);
        assert Pow10((exp + 1) - 1) <= base <= Pow10(exp + 1);
      }
      exp := exp + 1;
    }
    ListedExact(r, base);
  }

  // ---------------------------------------------------------------------
  // The examples of the tests

  /** The tail of a strictly increasing list holds exactly its members above the head. */
  lemma IncreasingTail(s: seq<nat>)
    requires StrictlyIncreasing(s) && s != []
    ensures StrictlyIncreasing(s[1..])
    ensures forall n :: n in s[1..] <==> n in s && n > s[0]
  {
    forall n | n in s && n > s[0]
      ensures n in s[1..]
    {
      var i :| 0 <= i < |s| && s[i] == n;
      assert s[1..][i - 1] == n;
    }
  }

  /** Two strictly increasing lists with the same members are equal. */
  lemma {:induction false} IncreasingUnique(s: seq<nat>, t: seq<nat>)
    requires StrictlyIncreasing(s) && StrictlyIncreasing(t)
    requires forall n :: n in s <==> n in t
    ensures s == t
  {
    assert |t| == 0 || t[0] in t;
    if s != [] {
      assert s[0] in t && t != [] && t[0] in s;
      assert s[0] == t[0] by {
        var i :| 0 <= i < |t| && t[i] == s[0];
        var j :| 0 <= j < |s| && s[j] == t[0];
        assert t[0] <= t[i] && s[0] <= s[j];
      }
      IncreasingTail(s);
      IncreasingTail(t);
      IncreasingUnique(s[1..], t[1..]);
      assert s == [s[0]] + s[1..] && t == [t[0]] + t[1..];
    }
  }

  /** When the neighbouring blocks' ids fall outside `r`, block `b` gives the only invalid id of `r`. */
  lemma OnlyBlock(r: ProductIdRange, b: nat)
    requires b >= 1 && r.Contains(Rep(b))
    requires b == 1 || Rep(b - 1) < r.min
    requires r.max < Rep(b + 1)
    ensures forall n :: r.Contains(n) && IsInvalid(n) <==> n == Rep(b)
  {
    assert IsInvalid(Rep(b));
    forall n | r.Contains(n) && IsInvalid(n)
      ensures n == Rep(b)
    {
      var c: nat :| 1 <= c && Rep(c) == n;
      if c < b - 1 {
        RepMono(c, b - 1);
      } else if c > b + 1 {
        RepMono(b + 1, c);
      }
    }
  }

  /** When two neighbouring blocks' ids straddle `r`, it holds no invalid id. */
  lemma NoBlock(r: ProductIdRange, b: nat)
    requires b >= 1 && Rep(b) < r.min && r.max < Rep(b + 1)
    ensures forall n :: !(r.Contains(n) && IsInvalid(n))
  {
    forall n | r.Contains(n) && IsInvalid(n)
      ensures false
    {
      var c: nat :| 1 <= c && Rep(c) == n;
      if c < b {
        RepMono(c, b);
      } else if c > b + 1 {
        RepMono(b + 1, c);
      }
    }
  }

  /** The range `11-22` holds the invalid ids 11 and 22. */
  lemma ListExampleEleven(ids: seq<nat>)
    requires forall n :: n in ids <==> ProductIdRange(11, 22).Contains(n) && IsInvalid(n)
    requires StrictlyIncreasing(ids)
    ensures ids == [11, 22]
  {
    var r := ProductIdRange(11, 22);
    assert Rep(1) == 11 && Rep(2) == 22 && Rep(3) == 33;
    assert IsInvalid(Rep(1)) && IsInvalid(Rep(2));
    forall n | r.Contains(n) && IsInvalid(n)
      ensures n == 11 || n == 22
    {
      var c: nat :| 1 <= c && Rep(c) == n;
      if c > 3 {
        RepMono(3, c);
      }
    }
    IncreasingUnique(ids, [11, 22]);
  }

  /** The range `95-115` holds only 99. */
  lemma ListExampleNinetyFive(ids: seq<nat>)
    requires forall n :: n in ids <==> ProductIdRange(95, 115).Contains(n) && IsInvalid(n)
    requires StrictlyIncreasing(ids)
    ensures ids == [99]
  {
    assert Rep(8) == 88 && Rep(9) == 99 && Rep(10) == 1010;
    OnlyBlock(ProductIdRange(95, 115), 9);
    IncreasingUnique(ids, [99]);
  }

  /** The range `998-1012` holds only 1010. */
  lemma ListExampleNineNineEight(ids: seq<nat>)
    requires forall n :: n in ids <==> ProductIdRange(998, 1012).Contains(n) && IsInvalid(n)
    requires StrictlyIncreasing(ids)
    ensures ids == [1010]
  {
    assert Rep(9) == 99 && Rep(10) == 1010 && Rep(11) == 1111;
    OnlyBlock(ProductIdRange(998, 1012), 10);
    IncreasingUnique(ids, [1010]);
  }

  /** The range `222220-222224` holds only 222222. */
  lemma ListExampleTwos(ids: seq<nat>)
    requires forall n :: n in ids <==> ProductIdRange(222220, 222224).Contains(n) && IsInvalid(n)
    requires StrictlyIncreasing(ids)
    ensures ids == [222222]
  {
    assert Rep(221) == 221221 && Rep(222) == 222222 && Rep(223) == 223223;
    OnlyBlock(ProductIdRange(222220, 222224), 222);
    IncreasingUnique(ids, [222222]);
  }

  /** The range `1698522-1698528` holds no invalid id. */
  lemma ListExampleNone(ids: seq<nat>)
    requires forall n :: n in ids <==> ProductIdRange(1698522, 1698528).Contains(n) && IsInvalid(n)
    requires StrictlyIncreasing(ids)
    ensures ids == []
  {
    assert Rep(999) == 999999 && Rep(1000) == 10001000;
    NoBlock(ProductIdRange(1698522, 1698528), 999);
    IncreasingUnique(ids, []);
  }

  /** The range `1188511880-1188511890` holds only 1188511885. */
  lemma ListExampleLong(ids: seq<nat>)
    requires forall n :: n in ids <==> ProductIdRange(1188511880, 1188511890).Contains(n) && IsInvalid(n)
    requires StrictlyIncreasing(ids)
    ensures ids == [1188511885]
  {
    assert Rep(11884) == 1188411884 && Rep(11885) == 1188511885 && Rep(11886) == 1188611886;
    OnlyBlock(ProductIdRange(1188511880, 1188511890), 11885);
    IncreasingUnique(ids, [1188511885]);
  }

  /** The range `446443-446449` holds only 446446. */
  lemma ListExampleFours(ids: seq<nat>)
    requires forall n :: n in ids <==> ProductIdRange(446443, 446449).Contains(n) && IsInvalid(n)
    requires StrictlyIncreasing(ids)
    ensures ids == [446446]
  {
    assert Rep(445) == 445445 && Rep(446) == 446446 && Rep(447) == 447447;
    OnlyBlock(ProductIdRange(446443, 446449), 446);
    IncreasingUnique(ids, [446446]);
  }

  /** The range `38593856-38593862` holds only 38593859. */
  lemma ListExampleEights(ids: seq<nat>)
    requires forall n :: n in ids <==> ProductIdRange(38593856, 38593862).Contains(n) && IsInvalid(n)
    requires StrictlyIncreasing(ids)
    ensures ids == [38593859]
  {
    assert Rep(3858) == 38583858 && Rep(3859) == 38593859 && Rep(3860) == 38603860;
    OnlyBlock(ProductIdRange(38593856, 38593862), 3859);
    IncreasingUnique(ids, [38593859]);
  }

  /** `from_str` on the sample's first range. */
  lemma ParseRangeExample()
    ensures ParseRange("11-22") == Ok(ProductIdRange(11, 22))
  {
    assert Show(11) == "11" && Show(22) == "22";
    ParseRangeShow(11, 22);
    assert "11" + "-" + "22" == "11-22";
  }

  /** Without a `-` the second bound is missing. */
  lemma ParseRangeMissing()
    ensures ParseRange("12") == Err(InvalidRange)
  {
    assert Show(12) == "12";
    ParseShow(12, U64_MAX);
    assert Split("12", '-') == ["12"];
  }

  /** An empty second piece is not an integer. */
  lemma ParseRangeEmptyMax()
    ensures ParseRange("1-") == Err(NotInteger)
  {
    assert Join(["1", ""], '-') == "1-";
    SplitJoin(["1", ""], '-');
  }
}
