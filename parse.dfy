/**
 * `helpers/parse.rs`: `parse_lines`, which parses every `'\n'`-separated
 * line of the input, trimmed, with the element type's parser and stops at
 * the first line that fails. The parser is a parameter.
 */
module Parse {
  import opened Wrappers
  import opened Strings

  /**
   * `parse_lines`: on success one element per line, in order, each parsed
   * from the trimmed line; otherwise the error of the first line that does
   * not parse, every earlier line having parsed.
   */
  method ParseLines<T, E>(input: string, parse: string -> Result<T, E>) returns (r: Result<seq<T>, E>)
    ensures r.Ok? ==> |r.value| == |Split(input, '\n')|
    ensures r.Ok? ==> forall i :: 0 <= i < |r.value| ==> parse(Trim(Split(input, '\n')[i])) == Ok(r.value[i])
    ensures r.Err? ==>
              exists i :: 0 <= i < |Split(input, '\n')| &&
                parse(Trim(Split(input, '\n')[i])) == Err(r.error) && ParsedBefore(Split(input, '\n'), parse, i)
    ensures r == ParsedLines(Split(input, '\n'), parse)
  {
    var lines := Split(input, '\n');
    var output: seq<T> := [];
    var i := 0;
    AfterNothing(ParsedLines(lines, parse));
    assert lines[0..] == lines;
    while i < |lines|
      invariant 0 <= i <= |lines|
      invariant ParsedLines(lines, parse) == After(output, ParsedLines(lines[i..], parse))
    {
      assert lines[i..][1..] == lines[i + 1..];
      match parse(Trim(lines[i])) {
        case Ok(x) =>
          AfterAfter(output, [x], ParsedLines(lines[i + 1..], parse));
          output := output + [x];
        case Err(e) =>
          r := Err(e);
          ParsedLinesErr(lines, parse);
          return;
      }
      i := i + 1;
    }
    assert lines[i..] == [] && output + [] == output;
    r := Ok(output);
    ParsedLinesOk(lines, parse);
  }

  /** What `parse_lines` returns for `lines`: every line's element, or the first error. */
  function ParsedLines<T, E>(lines: seq<string>, parse: string -> Result<T, E>): Result<seq<T>, E> {
    if lines == [] then Ok([])
    else
      match parse(Trim(lines[0]))
      case Err(e) => Err(e)
      case Ok(x) => After([x], ParsedLines(lines[1..], parse))
  }

  /** `rest` with the elements `done` placed in front of a success. */
  function After<T, E>(done: seq<T>, rest: Result<seq<T>, E>): Result<seq<T>, E> {
    match rest
    case Ok(xs) => Ok(done + xs)
    case Err(e) => Err(e)
  }

  /** Every line before line `i` parses. */
  predicate ParsedBefore<T, E>(lines: seq<string>, parse: string -> Result<T, E>, i: nat)
    requires i <= |lines|
  {
    forall k :: 0 <= k < i ==> parse(Trim(lines[k])).Ok?
  }

  /** `parse_lines` succeeds exactly when every trimmed line parses, with the elements in line order. */
  lemma {:induction false} ParsedLinesOk<T, E>(lines: seq<string>, parse: string -> Result<T, E>)
    ensures ParsedLines(lines, parse).Ok? <==> ParsedBefore(lines, parse, |lines|)
    ensures ParsedLines(lines, parse).Ok? ==>
              |ParsedLines(lines, parse).value| == |lines| &&
              forall i :: 0 <= i < |lines| ==> parse(Trim(lines[i])) == Ok(ParsedLines(lines, parse).value[i])
  {
    if lines != [] {
      var rest := lines[1..];
      ParsedLinesOk(rest, parse);
      assert forall k :: 1 <= k < |lines| ==> lines[k] == rest[k - 1];
    }
  }

  /** When `parse_lines` fails, its error is that of the first line that does not parse. */
  lemma {:induction false} ParsedLinesErr<T, E>(lines: seq<string>, parse: string -> Result<T, E>)
    ensures ParsedLines(lines, parse).Err? ==>
              exists i :: 0 <= i < |lines| &&
                parse(Trim(lines[i])) == Err(ParsedLines(lines, parse).error) && ParsedBefore(lines, parse, i)
  {
    if lines != [] && ParsedLines(lines, parse).Err? {
      var rest := lines[1..];
      if parse(Trim(lines[0])).Ok? {
        ParsedLinesErr(rest, parse);
        var i :| 0 <= i < |rest| &&
                 parse(Trim(rest[i])) == Err(ParsedLines(rest, parse).error) && ParsedBefore(rest, parse, i);
        ParsedBeforeCons(lines, parse, i);
        assert lines[i + 1] == rest[i];
      } else {
        assert ParsedBefore(lines, parse, 0);
      }
    }
  }

  /** A line that parses, followed by `i` lines that parse. */
  lemma ParsedBeforeCons<T, E>(lines: seq<string>, parse: string -> Result<T, E>, i: nat)
    requires i < |lines| && parse(Trim(lines[0])).Ok? && ParsedBefore(lines[1..], parse, i)
    ensures ParsedBefore(lines, parse, i + 1)
  {
    forall k | 1 <= k < i + 1 ensures parse(Trim(lines[k])).Ok? {
      assert lines[k] == lines[1..][k - 1];
    }
  }

  lemma AfterNothing<T, E>(r: Result<seq<T>, E>)
    ensures After([], r) == r
  {
    if r.Ok? {
      assert [] + r.value == r.value;
    }
  }

  lemma AfterAfter<T, E>(a: seq<T>, b: seq<T>, r: Result<seq<T>, E>)
    ensures After(a, After(b, r)) == After(a + b, r)
  {
    if r.Ok? {
      assert a + (b + r.value) == (a + b) + r.value;
    }
  }

  /**
   * Empty input is one empty line: `parse_lines` returns the element parsed
   * from the empty string as its only element, or that parse's error.
   */
  lemma ParseLinesEmpty<T, E>(parse: string -> Result<T, E>)
    ensures ParsedLines(Split("", '\n'), parse) ==
              match parse("")
              case Ok(x) => Ok([x])
              case Err(e) => Err(e)
  {
    assert Split("", '\n') == [""] && Trim("") == "";
    assert [""][1..] == [];
    if parse("").Ok? {
      assert [parse("").value] + [] == [parse("").value];
    }
  }
}
