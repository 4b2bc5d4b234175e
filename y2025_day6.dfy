/**
 * `y2025/day6.rs`: a worksheet of columns of numbers, each with an operator
 * on the last line. `from_str` reads the numbers row by row and transposes
 * them into columns; `caclulate` adds up, over the columns, the sum (`+`)
 * or the product (`*`) of each column. `from_grid` reads the numbers
 * vertically from a character grid instead.
 */
module Y2025Day6 {
  import opened Wrappers
  import opened Strings
  import opened Grids
  import Decimal

  /** `cols[c]` holds the numbers of column `c`, top to bottom; `operations[c]` its operator. */
  datatype Worksheet = Worksheet(cols: seq<seq<nat>>, operations: seq<char>)

  datatype WorksheetParseError = EmptyInput

  // ---------------------------------------------------------------------
  // Parsing text

  /** The operators of the last line: the first char of every non-empty `' '`-separated piece. */
  function Operators(line: string): (ops: seq<char>)
    ensures |ops| == |NonEmpty(Split(line, ' '))|
  {
    var pieces := NonEmpty(Split(line, ' '));
    NonEmptyMembers(Split(line, ' '));
    seq(|pieces|, i requires 0 <= i < |pieces| => assert pieces[i] in pieces; pieces[i][0])
  }

  /** The `' '`-separated pieces that are not blank once trimmed, each trimmed. */
  function Fields(pieces: seq<string>): (r: seq<string>)
    ensures |r| <= |pieces|
  {
    if pieces == [] then []
    else
      var t := Trim(pieces[0]);
      (if t == [] then [] else [t]) + Fields(pieces[1..])
  }

  predicate IsU64(t: string) {
    ParseUnsigned(t, U64_MAX).Some?
  }

  /** A number line `from_str` accepts: every field parses as a `u64` (the `unwrap` panics otherwise). */
  predicate NumberLine(line: string) {
    var f := Fields(Split(line, ' '));
    forall i :: 0 <= i < |f| ==> IsU64(f[i])
  }

  /** The numbers of a number line, left to right. */
  function Numbers(line: string): (ns: seq<nat>)
    requires NumberLine(line)
    ensures |ns| == |Fields(Split(line, ' '))|
  {
    var f := Fields(Split(line, ' '));
    seq(|f|, i requires 0 <= i < |f| => ParseUnsigned(f[i], U64_MAX).value)
  }

  /** The last line of the input: the operators. */
  function OperatorLine(s: string): string {
    var lines := Split(s, '\n');
    lines[|lines| - 1]
  }

  /** The lines before the last: the rows of numbers. */
  function NumberLines(s: string): (rows: seq<string>)
    ensures |rows| == |Split(s, '\n')| - 1
    ensures forall r :: 0 <= r < |rows| ==> rows[r] == Split(s, '\n')[r]
  {
    var lines := Split(s, '\n');
    lines[..|lines| - 1]
  }

  /**
   * The input `from_str` accepts without panicking: every line but the last
   * is a number line with at least as many numbers as there are operators
   * (`r[col]` panics otherwise).
   */
  predicate Parsable(s: string) {
    var rows := NumberLines(s);
    forall r :: 0 <= r < |rows| ==> NumberLine(rows[r]) && |Numbers(rows[r])| >= |Operators(OperatorLine(s))|
  }

  /** The first `count` numbers of the rows, column by column. */
  function Columns(rows: seq<string>, count: nat): (cols: seq<seq<nat>>)
    requires forall r :: 0 <= r < |rows| ==> NumberLine(rows[r]) && |Numbers(rows[r])| >= count
    ensures |cols| == count
    ensures forall c :: 0 <= c < count ==> |cols[c]| == |rows|
    ensures forall c, i :: 0 <= c < count && 0 <= i < |rows| ==> cols[c][i] == Numbers(rows[i])[c]
  {
    seq(count, c requires 0 <= c < count => seq(|rows|, i requires 0 <= i < |rows| => Numbers(rows[i])[c]))
  }

  /**
   * `from_str`: the last line gives the operators, the other lines the rows
   * of numbers, and column `c` collects the `c`-th number of every row.
   * Splitting always gives at least one line, so `EmptyInput` never comes.
   */
  function FromStr(s: string): (r: Result<Worksheet, WorksheetParseError>)
    requires Parsable(s)
    ensures r.Ok?
    ensures r.value.operations == Operators(OperatorLine(s))
    ensures |r.value.cols| == |r.value.operations|
    ensures forall c :: 0 <= c < |r.value.cols| ==> |r.value.cols[c]| == |NumberLines(s)|
    ensures forall c, i :: 0 <= c < |r.value.cols| && 0 <= i < |NumberLines(s)| ==>
      r.value.cols[c][i] == Numbers(NumberLines(s)[i])[c]
  {
    var lines := Split(s, '\n');
    if |lines| == 0 then Err(EmptyInput)
    else
      var ops := Operators(OperatorLine(s));
      Ok(Worksheet(Columns(NumberLines(s), |ops|), ops))
  }

  // ---------------------------------------------------------------------
  // Rendering, the inverse of `FromStr`

  /** Row `i` of the worksheet: the `i`-th number of every column. */
  function Row(cols: seq<seq<nat>>, i: nat): (ns: seq<nat>)
    requires forall c :: 0 <= c < |cols| ==> i < |cols[c]|
    ensures |ns| == |cols|
  {
    seq(|cols|, c requires 0 <= c < |cols| => cols[c][i])
  }

  function Shows(ns: seq<nat>): (ws: seq<string>)
    ensures |ws| == |ns|
  {
    seq(|ns|, i requires 0 <= i < |ns| => Show(ns[i]))
  }

  function Singles(ops: seq<char>): (ps: seq<string>)
    ensures |ps| == |ops|
  {
    seq(|ops|, i requires 0 <= i < |ops| => [ops[i]])
  }

  /** A worksheet text can spell: as many operators as columns, all columns of one height, numbers in `u64`. */
  predicate Renderable(ws: Worksheet) {
    && |ws.cols| == |ws.operations| >= 1
    && (forall c :: 0 <= c < |ws.cols| ==> |ws.cols[c]| == |ws.cols[0]|)
    && (forall c, i :: 0 <= c < |ws.cols| && 0 <= i < |ws.cols[c]| ==> ws.cols[c][i] <= U64_MAX)
    && (forall c :: 0 <= c < |ws.operations| ==> ws.operations[c] != ' ' && ws.operations[c] != '\n')
  }

  /** The lines of the worksheet: the rows, numbers separated by one space, then the operators. */
  function RenderLines(ws: Worksheet): (lines: seq<string>)
    requires Renderable(ws)
    ensures |lines| == |ws.cols[0]| + 1
  {
    var rows := seq(|ws.cols[0]|, i requires 0 <= i < |ws.cols[0]| => Join(Shows(Row(ws.cols, i)), ' '));
    rows + [Join(Singles(ws.operations), ' ')]
  }

  function Render(ws: Worksheet): string
    requires Renderable(ws)
  {
    Join(RenderLines(ws), '\n')
  }

  /** A char that occurs in no piece and is not the separator does not occur in the join. */
  lemma {:induction false} JoinAvoids(pieces: seq<string>, sep: char, c: char)
    requires |pieces| >= 1 && c != sep
    requires forall i :: 0 <= i < |pieces| ==> c !in pieces[i]
    ensures c !in Join(pieces, sep)
  {
    if |pieces| > 1 {
      JoinAvoids(pieces[1..], sep, c);
    }
  }

  lemma ShowHasNoSpace(n: nat)
    ensures ' ' !in Show(n) && '\n' !in Show(n)
    ensures forall j :: 0 <= j < |Show(n)| ==> !IsWhitespace(Show(n)[j])
  {
    var s := Show(n);
    forall j | 0 <= j < |s| ensures s[j] != ' ' && s[j] != '\n' && !IsWhitespace(s[j]) {
      assert IsDigit(s[j]);
    }
  }

  /** Trimming a word without whitespace leaves it as it is. */
  lemma TrimWord(s: string)
    requires forall j :: 0 <= j < |s| ==> !IsWhitespace(s[j])
    ensures Trim(s) == s
  {
    var r := Trim(s);
    var lead := LeadingWhitespace(s);
    if s != [] {
      assert lead == 0;
      assert |s| - 1 < lead + |r|;
    }
  }

  lemma {:induction false} FieldsOfShows(ns: seq<nat>)
    ensures Fields(Shows(ns)) == Shows(ns)
  {
    if ns != [] {
      var ps := Shows(ns);
      ShowHasNoSpace(ns[0]);
      TrimWord(ps[0]);
      assert ps[1..] == Shows(ns[1..]);
      FieldsOfShows(ns[1..]);
      assert ps == [ps[0]] + ps[1..];
    }
  }

  /** A rendered row reads back as its numbers. */
  lemma NumbersOfRow(ns: seq<nat>)
    requires |ns| >= 1 && forall i :: 0 <= i < |ns| ==> ns[i] <= U64_MAX
    ensures NumberLine(Join(Shows(ns), ' ')) && Numbers(Join(Shows(ns), ' ')) == ns
  {
    var ps := Shows(ns);
    forall i | 0 <= i < |ps| ensures ' ' !in ps[i] && ParseUnsigned(ps[i], U64_MAX) == Some(ns[i]) {
      ShowHasNoSpace(ns[i]);
      ParseShow(ns[i], U64_MAX);
    }
    SplitJoin(ps, ' ');
    FieldsOfShows(ns);
  }

  lemma {:induction false} NonEmptyKeepsAll(ps: seq<string>)
    requires forall i :: 0 <= i < |ps| ==> ps[i] != []
    ensures NonEmpty(ps) == ps
  {
    if ps != [] {
      NonEmptyKeepsAll(ps[1..]);
      assert ps == [ps[0]] + ps[1..];
    }
  }

  /** The rendered operator line reads back as the operators. */
  lemma OperatorsOfLine(ops: seq<char>)
    requires |ops| >= 1 && forall c :: 0 <= c < |ops| ==> ops[c] != ' '
    ensures Operators(Join(Singles(ops), ' ')) == ops
  {
    var ps := Singles(ops);
    SplitJoin(ps, ' ');
    NonEmptyKeepsAll(ps);
  }

  /** Every rendered line is free of `'\n'`. */
  lemma RenderLinesSingle(ws: Worksheet)
    requires Renderable(ws)
    ensures forall i :: 0 <= i < |RenderLines(ws)| ==> '\n' !in RenderLines(ws)[i]
  {
    var lines := RenderLines(ws);
    forall i | 0 <= i < |lines| ensures '\n' !in lines[i] {
      if i < |ws.cols[0]| {
        var ps := Shows(Row(ws.cols, i));
        forall k | 0 <= k < |ps| ensures '\n' !in ps[k] {
          ShowHasNoSpace(Row(ws.cols, i)[k]);
        }
        JoinAvoids(ps, ' ', '\n');
      } else {
        JoinAvoids(Singles(ws.operations), ' ', '\n');
      }
    }
  }

  /** Splitting the rendered text on `'\n'` gives back the rendered lines. */
  lemma SplitRender(ws: Worksheet)
    requires Renderable(ws)
    ensures Split(Render(ws), '\n') == RenderLines(ws)
  {
    RenderLinesSingle(ws);
    SplitJoin(RenderLines(ws), '\n');
  }

  /** The lines of the rendered text: the rendered rows, then the operator line. */
  lemma RenderParts(ws: Worksheet)
    requires Renderable(ws)
    ensures OperatorLine(Render(ws)) == Join(Singles(ws.operations), ' ')
    ensures |NumberLines(Render(ws))| == |ws.cols[0]|
    ensures forall i :: 0 <= i < |ws.cols[0]| ==> NumberLines(Render(ws))[i] == Join(Shows(Row(ws.cols, i)), ' ')
  {
    SplitRender(ws);
  }

  /** `from_str` reads a rendered worksheet back exactly. */
  lemma FromStrRender(ws: Worksheet)
    requires Renderable(ws)
    ensures Parsable(Render(ws)) && FromStr(Render(ws)) == Ok(ws)
  {
    var text := Render(ws);
    var rows := NumberLines(text);
    var h := |ws.cols[0]|;
    RenderParts(ws);
    OperatorsOfLine(ws.operations);
    forall i | 0 <= i < h ensures NumberLine(rows[i]) && Numbers(rows[i]) == Row(ws.cols, i) {
      NumbersOfRow(Row(ws.cols, i));
    }
    assert Parsable(text);
    var r := FromStr(text).value;
    forall c | 0 <= c < |ws.cols| ensures r.cols[c] == ws.cols[c] {
      forall i | 0 <= i < h ensures r.cols[c][i] == ws.cols[c][i] {
        assert r.cols[c][i] == Row(ws.cols, i)[c];
      }
    }
    assert r.cols == ws.cols;
  }

  // ---------------------------------------------------------------------
  // Calculation

  /** The identity of the operator: 0 for `+`, 1 for the product. */
  function Unit(op: char): nat {
    if op == '+' then 0 else 1
  }

  /** One step of the fold: `+` adds, any other operator multiplies. */
  function Apply(op: char, a: nat, b: nat): nat {
    if op == '+' then a + b else a * b
  }

  /** Both operations are associative and commutative, with `Unit` as identity. */
  lemma ApplyLaws(op: char, a: nat, b: nat, c: nat)
    ensures Apply(op, Apply(op, a, b), c) == Apply(op, a, Apply(op, b, c))
    ensures Apply(op, a, b) == Apply(op, b, a)
    ensures Apply(op, Unit(op), a) == a == Apply(op, a, Unit(op))
  {
    if op != '+' {
      assert (a * b) * c == a * (b * c);
    }
  }

  /** `Iterator::sum` (`+`) or `Iterator::product` (any other operator), as a left fold. */
  function Reduce(op: char, xs: seq<nat>): nat {
    if xs == [] then Unit(op) else Apply(op, Reduce(op, xs[..|xs| - 1]), xs[|xs| - 1])
  }

  /** Every partial result of the fold fits in a `u64` (a `u64` sum or product panics on overflow). */
  predicate FitsU64(op: char, xs: seq<nat>) {
    Reduce(op, xs) <= U64_MAX && (xs == [] || FitsU64(op, xs[..|xs| - 1]))
  }

  /** `len`: the number of operators. */
  function Len(ws: Worksheet): nat {
    |ws.operations|
  }

  /** A column `calculate_column` handles: its operator is `+` or `*` (any other panics), no overflow. */
  predicate Computable(ws: Worksheet, col: nat) {
    col < |ws.operations| && col < |ws.cols|
    && (ws.operations[col] == '+' || ws.operations[col] == '*')
    && FitsU64(ws.operations[col], ws.cols[col])
  }

  /** `calculate_column`: the sum of the column for `+`, its product for `*`. */
  function CalculateColumn(ws: Worksheet, col: nat): (v: nat)
    requires Computable(ws, col)
    ensures v <= U64_MAX
    ensures ws.operations[col] == '+' ==> v == Reduce('+', ws.cols[col])
    ensures ws.operations[col] == '*' ==> v == Reduce('*', ws.cols[col])
  {
    Reduce(ws.operations[col], ws.cols[col])
  }

  /** The sum of `calculate_column` over the first `n` columns. */
  function Total(ws: Worksheet, n: nat): nat
    requires forall c :: 0 <= c < n ==> Computable(ws, c)
  {
    if n == 0 then 0 else Total(ws, n - 1) + CalculateColumn(ws, n - 1)
  }

  /**
   * `caclulate`: the sum of `calculate_column` over the columns that have an
   * operator; the `u64` sum may not overflow.
   */
  function Calculate(ws: Worksheet): (t: nat)
    requires forall c :: 0 <= c < Len(ws) ==> Computable(ws, c)
    requires Total(ws, Len(ws)) <= U64_MAX
    ensures t <= U64_MAX
  {
    Total(ws, Len(ws))
  }

  lemma {:induction false} ReduceAppend(op: char, a: seq<nat>, b: seq<nat>)
    ensures Reduce(op, a + b) == Apply(op, Reduce(op, a), Reduce(op, b))
    decreases |b|
  {
    if b == [] {
      assert a + b == a;
      ApplyLaws(op, Reduce(op, a), 0, 0);
    } else {
      var n := |b| - 1;
      assert (a + b)[..|a + b| - 1] == a + b[..n];
      ReduceAppend(op, a, b[..n]);
      ApplyLaws(op, Reduce(op, a), Reduce(op, b[..n]), b[n]);
    }
  }

  /** Taking out the element at `j` takes its term out of the fold. */
  lemma ReduceRemove(op: char, xs: seq<nat>, j: nat)
    requires j < |xs|
    ensures Reduce(op, xs) == Apply(op, Reduce(op, xs[..j] + xs[j + 1..]), xs[j])
  {
    var l, x, r := xs[..j], xs[j], xs[j + 1..];
    assert xs == (l + [x]) + r;
    ReduceAppend(op, l + [x], r);
    ReduceAppend(op, l, [x]);
    ReduceAppend(op, l, r);
    assert [x][..0] == [];
    ApplyLaws(op, Unit(op), x, 0);
    ApplyLaws(op, Reduce(op, l), x, Reduce(op, r));
    ApplyLaws(op, x, Reduce(op, r), 0);
    ApplyLaws(op, Reduce(op, l), Reduce(op, r), x);
  }

  /** A column's value depends only on its numbers, not on the order of the rows. */
  lemma {:induction false} ReducePermutation(op: char, xs: seq<nat>, ys: seq<nat>)
    requires multiset(xs) == multiset(ys)
    ensures Reduce(op, xs) == Reduce(op, ys)
    decreases |xs|
  {
    if xs == [] {
      assert |ys| == |multiset(ys)| == 0;
    } else {
      var n := |xs| - 1;
      var x := xs[n];
      assert x in multiset(ys);
      var j :| 0 <= j < |ys| && ys[j] == x;
      var rest := ys[..j] + ys[j + 1..];
      assert xs == xs[..n] + [x];
      assert ys == ys[..j] + [x] + ys[j + 1..];
      calc {
        multiset(xs[..n]);
        multiset(xs) - multiset{x};
        multiset(ys) - multiset{x};
        { assert multiset(ys) == multiset(ys[..j]) + multiset{x} + multiset(ys[j + 1..]); }
        multiset(rest);
      }
      ReducePermutation(op, xs[..n], rest);
      ReduceRemove(op, ys, j);
    }
  }

  /** A product is 0 exactly when the column holds a 0; a sum is 0 exactly when every number is 0. */
  lemma {:induction false} ReduceZero(op: char, xs: seq<nat>)
    ensures op != '+' ==> (Reduce(op, xs) == 0 <==> 0 in xs)
    ensures op == '+' ==> (Reduce(op, xs) == 0 <==> forall i :: 0 <= i < |xs| ==> xs[i] == 0)
  {
    if xs != [] {
      var n := |xs| - 1;
      ReduceZero(op, xs[..n]);
      assert xs == xs[..n] + [xs[n]];
    }
  }

  /** The test's worksheet: `123 45 6 *`, `328 64 98 +`, `51 387 215 *`, `64 23 314 +`, by columns. */
  lemma SampleCalculate(ws: Worksheet)
    requires ws == Worksheet([[123, 45, 6], [328, 64, 98], [51, 387, 215], [64, 23, 314]], ['*', '+', '*', '+'])
    ensures forall c :: 0 <= c < Len(ws) ==> Computable(ws, c)
    ensures Total(ws, Len(ws)) <= U64_MAX && Calculate(ws) == 4277556
  {
    ColumnValue(ws.cols[0], '*', 123, 45, 6);
    ColumnValue(ws.cols[1], '+', 328, 64, 98);
    ColumnValue(ws.cols[2], '*', 51, 387, 215);
    ColumnValue(ws.cols[3], '+', 64, 23, 314);
    assert Total(ws, 1) == 33210;
    assert Total(ws, 2) == 33700;
    assert Total(ws, 3) == 4277155;
  }

  /** The value of a three-number column, and that no partial result overflows. */
  lemma ColumnValue(xs: seq<nat>, op: char, a: nat, b: nat, c: nat)
    requires |xs| == 3 && xs[0] == a && xs[1] == b && xs[2] == c
    requires a <= 1000 && b <= 1000 && c <= 1000
    ensures FitsU64(op, xs)
    ensures op == '+' ==> Reduce(op, xs) == a + b + c
    ensures op != '+' ==> Reduce(op, xs) == a * b * c
  {
    var one, two := xs[..1], xs[..2];
    assert xs[..|xs| - 1] == two && two[..|two| - 1] == one && one[..|one| - 1] == [];
    ApplyLaws(op, a, 0, 0);
    assert Reduce(op, one) == a;
    assert Reduce(op, two) == Apply(op, a, b);
    assert Reduce(op, xs) == Apply(op, Apply(op, a, b), c);
    assert a * b <= 1000 * 1000 by {
      Decimal.MulMono(a, 1000, b);
      Decimal.MulMono(b, 1000, 1000);
    }
    assert a * b * c <= 1000 * 1000 * 1000 by {
      Decimal.MulMono(c, 1000, a * b);
      Decimal.MulMono(a * b, 1000 * 1000, 1000);
    }
    assert FitsU64(op, []) && FitsU64(op, one);
    assert FitsU64(op, two);
  }

  // ---------------------------------------------------------------------
  // Reading columns from a grid

  /** Cells that `from_grid` skips. */
  predicate Blank(v: char) {
    v == ' ' || v == '.'
  }

  /**
   * `Point::up` is not part of this model; it is a parameter, assumed only
   * to lower `y`, so that walking up leaves the grid.
   */
  ghost predicate Climbs(up: Point -> Point) {
    forall p: Point :: up(p).y < p.y
  }

  /** The non-blank chars from `q` upwards while in the grid, nearest first. */
  function Upward(g: Grid<char>, q: Point, up: Point -> Point): string
    reads g
    requires g.Valid() && Climbs(up)
    decreases if g.Contains(q) then q.y + 1 else 0
  {
    if !g.Contains(q) then []
    else
      var v := g.Get(q).value;
      (if Blank(v) then [] else [v]) + Upward(g, up(q), up)
  }

  /** One step up: the cell at `q` contributes its char unless blank, and the rest is read from `up(q)`. */
  lemma UpwardStep(g: Grid<char>, q: Point, up: Point -> Point)
    requires g.Valid() && Climbs(up) && g.Contains(q)
    ensures var v := g.Get(q).value;
      Upward(g, q, up) == (if Blank(v) then [] else [v]) + Upward(g, up(q), up)
    ensures var v := g.Get(q).value;
      AllDigits(Upward(g, q, up)) ==> AllDigits(Upward(g, up(q), up)) && (Blank(v) || IsDigit(v))
  {
    var v := g.Get(q).value;
    var rest := Upward(g, up(q), up);
    var d := Upward(g, q, up);
    if Blank(v) {
      assert d == rest;
    } else if AllDigits(d) {
      assert d == [v] + rest;
      assert forall j :: 0 <= j < |rest| ==> rest[j] == d[j + 1];
      assert d[0] == v;
    }
  }

  /**
   * A column `from_grid` reads without panicking: digits only (`to_digit(10)`
   * then `unwrap`), at most 19 of them (the `u64` `base` would overflow
   * after a 20th).
   */
  predicate Readable(g: Grid<char>, q: Point, up: Point -> Point)
    reads g
    requires g.Valid() && Climbs(up)
  {
    var d := Upward(g, q, up);
    AllDigits(d) && |d| <= 19
  }

  /** The value `from_grid` accumulates from `q` upwards: the nearest digit is the least significant. */
  function UpValue(g: Grid<char>, q: Point, up: Point -> Point): nat
    reads g
    requires g.Valid() && Climbs(up) && AllDigits(Upward(g, q, up))
    decreases if g.Contains(q) then q.y + 1 else 0
  {
    if !g.Contains(q) then 0
    else
      var v := g.Get(q).value;
      UpwardStep(g, q, up);
      if Blank(v) then UpValue(g, up(q), up)
      else DigitValue(v) + 10 * UpValue(g, up(q), up)
  }

  function Reversed(s: string): (r: string)
    ensures |r| == |s|
  {
    if s == [] then [] else Reversed(s[1..]) + [s[0]]
  }

  lemma {:induction false} ReversedDigits(s: string)
    requires AllDigits(s)
    ensures AllDigits(Reversed(s))
  {
    if s != [] {
      ReversedDigits(s[1..]);
    }
  }

  /**
   * The value read upwards is the number the digits spell top to bottom:
   * `from_grid` reads each column as a decimal numeral written downwards.
   */
  lemma {:induction false} UpValueSpells(g: Grid<char>, q: Point, up: Point -> Point)
    requires g.Valid() && Climbs(up) && AllDigits(Upward(g, q, up))
    ensures AllDigits(Reversed(Upward(g, q, up)))
    ensures UpValue(g, q, up) == DigitsValue(Reversed(Upward(g, q, up)))
    decreases if g.Contains(q) then q.y + 1 else 0
  {
    var d := Upward(g, q, up);
    ReversedDigits(d);
    if g.Contains(q) {
      var v := g.Get(q).value;
      var rest := Upward(g, up(q), up);
      UpwardStep(g, q, up);
      UpValueSpells(g, up(q), up);
      if !Blank(v) {
        assert d[1..] == rest;
        assert Reversed(d) == Reversed(rest) + [v];
        assert Reversed(d)[..|Reversed(d)| - 1] == Reversed(rest);
      } else {
        assert d == rest;
      }
    }
  }

  /** The non-blank chars of the walked cells, in order. */
  function NonBlanks(row: seq<(Point, char)>): (ops: seq<char>)
    ensures forall k :: 0 <= k < |ops| ==> !Blank(ops[k])
  {
    if row == [] then []
    else NonBlanks(row[..|row| - 1]) + (if Blank(row[|row| - 1].1) then [] else [row[|row| - 1].1])
  }

  /** Which inputs `from_grid` takes without panicking, `row` standing for `walk_row(max_row)`. */
  ghost predicate GridReadable(g: Grid<char>, row: seq<(Point, char)>, up: Point -> Point)
    reads g
  {
    && g.Valid() && Climbs(up)
    && (row == [] || !Blank(row[0].1))
    && forall i :: 0 <= i < |row| ==> Readable(g, up(row[i].0), up)
  }

  /** One operator per column, and only non-zero numbers (zero values are never pushed). */
  predicate Shaped(ws: Worksheet) {
    && |ws.cols| == |ws.operations|
    && forall c, k :: 0 <= c < |ws.cols| && 0 <= k < |ws.cols[c]| ==> ws.cols[c][k] != 0
  }

  /** A non-blank cell opens a new, empty column with itself as operator. */
  function OpenColumn(ws: Worksheet, v: char): (r: Worksheet)
    requires Shaped(ws)
    ensures Shaped(r) && |r.cols| >= |ws.cols|
    ensures r.operations == ws.operations + (if Blank(v) then [] else [v])
    ensures !Blank(v) ==> |r.cols| >= 1
  {
    if Blank(v) then ws else Worksheet(ws.cols + [[]], ws.operations + [v])
  }

  /** A non-zero value goes at the end of the last column. */
  function PushValue(ws: Worksheet, n: nat): (r: Worksheet)
    requires Shaped(ws) && |ws.cols| >= 1 && n != 0
    ensures Shaped(r) && r.operations == ws.operations && |r.cols| == |ws.cols|
  {
    var last := |ws.cols| - 1;
    Worksheet(ws.cols[..last] + [ws.cols[last] + [n]], ws.operations)
  }

  /**
   * The worksheet `from_grid` builds from the cells `row`: a non-blank cell
   * opens a new column with that operator, and the non-zero value read
   * upwards from every cell is pushed on the last column.
   */
  function GridSheet(g: Grid<char>, row: seq<(Point, char)>, up: Point -> Point): (ws: Worksheet)
    reads g
    requires GridReadable(g, row, up)
    ensures Shaped(ws) && ws.operations == NonBlanks(row)
    ensures row != [] ==> |ws.cols| >= 1
  {
    if row == [] then Worksheet([], [])
    else
      var init := row[..|row| - 1];
      assert GridReadable(g, init, up) by {
        assert forall k :: 0 <= k < |init| ==> init[k] == row[k];
      }
      var grown := OpenColumn(GridSheet(g, init, up), row[|row| - 1].1);
      var n := UpValue(g, up(row[|row| - 1].0), up);
      if n == 0 then grown else PushValue(grown, n)
  }

  lemma GridReadablePrefix(g: Grid<char>, row: seq<(Point, char)>, up: Point -> Point, i: nat)
    requires GridReadable(g, row, up) && i <= |row|
    ensures GridReadable(g, row[..i], up)
  {
    assert forall k :: 0 <= k < i ==> row[..i][k] == row[k];
  }

  /**
   * The inner loop of `from_grid`: walks up from `start` while in the grid,
   * adding each digit times `base` and multiplying `base` by 10.
   */
  method ReadColumn(g: Grid<char>, start: Point, up: Point -> Point) returns (val: nat)
    requires g.Valid() && Climbs(up) && AllDigits(Upward(g, start, up))
    ensures val == UpValue(g, start, up)
  {
    var q := start;
    var base: nat := 1;
    val := 0;
    while g.Contains(q)
      invariant AllDigits(Upward(g, q, up))
      invariant val + base * UpValue(g, q, up) == UpValue(g, start, up)
      decreases if g.Contains(q) then q.y + 1 else 0
    {
      var c := g.Get(q).value;
      UpwardStep(g, q, up);
      ghost var rest := UpValue(g, up(q), up);
      if !Blank(c) {
        Shift(val, base, DigitValue(c), rest);
        val := val + DigitValue(c) * base;
        base := base * 10;
      }
      q := up(q);
    }
  }

  lemma Shift(val: nat, base: nat, d: nat, rest: nat)
    ensures (val + d * base) + (base * 10) * rest == val + base * (d + 10 * rest)
  {
    assert base * (d + 10 * rest) == base * d + base * (10 * rest);
    assert (base * 10) * rest == base * (10 * rest);
  }

  /** The worksheet after one more cell. */
  lemma GridSheetStep(g: Grid<char>, row: seq<(Point, char)>, up: Point -> Point, i: nat)
    requires GridReadable(g, row, up) && i < |row|
    ensures GridReadable(g, row[..i], up) && GridReadable(g, row[..i + 1], up)
    ensures AllDigits(Upward(g, up(row[i].0), up))
    ensures var grown := OpenColumn(GridSheet(g, row[..i], up), row[i].1);
      var n := UpValue(g, up(row[i].0), up);
      GridSheet(g, row[..i + 1], up) == if n == 0 then grown else PushValue(grown, n)
  {
    GridReadablePrefix(g, row, up, i);
    GridReadablePrefix(g, row, up, i + 1);
    assert row[..i + 1][..i] == row[..i];
    assert row[..i + 1][i] == row[i];
  }

  /**
   * `from_grid`, with the cells of `walk_row(max_row)` given as `row` and
   * `Point::up` as `up`: for every cell, opens a column on an operator and
   * reads the digits above it, pushing the value when it is not 0.
   */
  method FromGrid(g: Grid<char>, row: seq<(Point, char)>, up: Point -> Point) returns (ws: Worksheet)
    requires g.Rows() >= 1
    requires GridReadable(g, row, up)
    ensures ws == GridSheet(g, row, up)
  {
    var operations: seq<char> := [];
    var cols: seq<seq<nat>> := [];
    GridReadablePrefix(g, row, up, 0);
    for i := 0 to |row|
      invariant GridReadable(g, row[..i], up)
      invariant Worksheet(cols, operations) == GridSheet(g, row[..i], up)
    {
      GridSheetStep(g, row, up, i);
      ghost var grown := OpenColumn(Worksheet(cols, operations), row[i].1);
      var p, v := row[i].0, row[i].1;
      if !Blank(v) {
        operations := operations + [v];
        cols := cols + [[]];
      }
      assert Worksheet(cols, operations) == grown;
      var val := ReadColumn(g, up(p), up);
      if val != 0 {
        var last := |cols| - 1;
        cols := cols[..last] + [cols[last] + [val]];
        assert Worksheet(cols, operations) == PushValue(grown, val);
      }
    }
    assert row[..|row|] == row;
    ws := Worksheet(cols, operations);
  }
}
