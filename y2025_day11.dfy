/**
 * `y2025/day11.rs`: a rack of devices wired by one-way cables. Each input
 * line `name: child child ...` names a device and the devices its outputs
 * feed; `parse` builds the graph line by line, and the answer is the number
 * of distinct paths from the device `you` to the device `out`.
 */
module Y2025Day11 {
  import opened Strings
  import opened Grids
  import opened Dags

  /** The line has a `':'` once trimmed, so `parts[1]` exists (the source panics otherwise). */
  predicate LineParses(line: string) {
    |Split(Trim(line), ':')| >= 2
  }

  /** `parts[0]`: what comes before the first `':'` of the trimmed line. */
  function Name(line: string): (r: string)
    ensures ':' !in r
    ensures |r| <= |Trim(line)| && r == Trim(line)[..|r|]
  {
    var parts := Split(Trim(line), ':');
    assert Join(parts, ':') == Trim(line);
    assert |parts| > 1 ==> Trim(line) == parts[0] + ([':'] + Join(parts[1..], ':'));
    parts[0]
  }

  /** The non-empty `' '`-separated words between the first and the second `':'`. */
  function Children(line: string): (r: seq<string>)
    requires LineParses(line)
    ensures forall c :: c in r ==> c != [] && ' ' !in c
  {
    var words := Split(Split(Trim(line), ':')[1], ' ');
    NonEmptyMembers(words);
    NonEmpty(words)
  }

  /**
   * The graph the lines describe: each line in turn sets the children of its
   * name, so a name given on several lines keeps the children of the last.
   */
  function Graph(lines: seq<string>): (g: map<string, seq<string>>)
    requires forall i :: 0 <= i < |lines| ==> LineParses(lines[i])
  {
    if lines == [] then map[]
    else Graph(lines[..|lines| - 1])[Name(lines[|lines| - 1]) := Children(lines[|lines| - 1])]
  }

  /** The names the lines give, in order. */
  function Names(lines: seq<string>): (r: seq<string>)
    ensures |r| == |lines| && forall i :: 0 <= i < |lines| ==> r[i] == Name(lines[i])
  {
    seq(|lines|, i requires 0 <= i < |lines| => Name(lines[i]))
  }

  /** A node is in the graph exactly when some line names it. */
  lemma {:induction false} GraphKeys(lines: seq<string>)
    requires forall i :: 0 <= i < |lines| ==> LineParses(lines[i])
    ensures forall v :: v in Graph(lines) <==> v in Names(lines)
  {
    if lines != [] {
      var init := lines[..|lines| - 1];
      var last := |lines| - 1;
      GraphKeys(init);
      assert Names(lines) == Names(init) + [Name(lines[last])];
    }
  }

  /** A node's children come from the last line that names it. */
  lemma {:induction false} GraphLastLine(lines: seq<string>, i: nat)
    requires forall k :: 0 <= k < |lines| ==> LineParses(lines[k])
    requires i < |lines|
    requires forall j :: i < j < |lines| ==> Name(lines[j]) != Name(lines[i])
    ensures Name(lines[i]) in Graph(lines) && Graph(lines)[Name(lines[i])] == Children(lines[i])
  {
    var init := lines[..|lines| - 1];
    if i < |lines| - 1 {
      forall j | i < j < |init| ensures Name(init[j]) != Name(init[i]) {
        assert init[j] == lines[j];
      }
      GraphLastLine(init, i);
    }
  }

  /**
   * `parse`: for each `'\n'`-separated line, trims it, splits it on `':'`,
   * and inserts the name with its non-empty `' '`-separated children.
   */
  method Parse(input: string) returns (tree: Dag<string>)
    requires forall i :: 0 <= i < |Split(input, '\n')| ==> LineParses(Split(input, '\n')[i])
    ensures fresh(tree)
    ensures tree.nodes == Graph(Split(input, '\n'))
  {
    tree := new Dag();
    var lines := Split(input, '\n');
    for i := 0 to |lines|
      invariant forall k :: 0 <= k < i ==> LineParses(lines[..i][k])
      invariant tree.nodes == Graph(lines[..i])
    {
      var line := Trim(lines[i]);
      var parts := Split(line, ':');
      var val := parts[0];
      var children := NonEmpty(Split(parts[1], ' '));
      tree.Insert(val, children);
      assert lines[..i + 1][..i] == lines[..i];
    }
    assert lines[..|lines|] == lines;
  }

  /** `count_paths_you_to_out`: the paths from `you` to `out`. */
  method CountPathsYouToOut(tree: Dag<string>, ghost rank: string -> nat) returns (n: nat)
    requires Explorable(tree.nodes, "out", rank, "you")
    ensures n == Paths(tree.nodes, "out", rank, "you")
  {
    n := tree.CountPaths("you", "out", rank);
  }

  /** The children written after the `':'`, each preceded by one space. */
  function Spaced(kids: seq<string>): (r: string)
  {
    if kids == [] then [] else [' '] + kids[0] + Spaced(kids[1..])
  }

  /** A line in the input's format. */
  function Format(name: string, kids: seq<string>): (r: string)
  {
    name + [':'] + Spaced(kids)
  }

  /** A device name as the input writes it: non-empty, no whitespace, no `':'`. */
  predicate Label(w: string) {
    w != [] && ':' !in w && forall i :: 0 <= i < |w| ==> !IsWhitespace(w[i])
  }

  lemma {:induction false} SpacedJoin(p: string, kids: seq<string>)
    ensures Join([p] + kids, ' ') == p + Spaced(kids)
    decreases |kids|
  {
    if kids != [] {
      var rest := [kids[0]] + kids[1..];
      assert ([p] + kids)[1..] == rest == kids;
      assert Join([p] + kids, ' ') == p + [' '] + Join(rest, ' ');
      SpacedJoin(kids[0], kids[1..]);
      assert p + [' '] + (kids[0] + Spaced(kids[1..])) == p + ([' '] + kids[0] + Spaced(kids[1..]));
    } else {
      assert p + [] == p;
    }
  }

  lemma {:induction false} SpacedLabels(kids: seq<string>)
    requires forall k :: k in kids ==> Label(k)
    ensures ':' !in Spaced(kids) && '\n' !in Spaced(kids)
    ensures kids != [] ==> !IsWhitespace(Spaced(kids)[|Spaced(kids)| - 1])
  {
    if kids != [] {
      SpacedLabels(kids[1..]);
      assert kids[0] in kids;
    }
  }

  lemma {:induction false} NonEmptyLabels(kids: seq<string>)
    requires forall k :: k in kids ==> Label(k)
    ensures NonEmpty(kids) == kids
  {
    if kids != [] {
      NonEmptyLabels(kids[1..]);
      assert kids[0] in kids;
      assert kids == [kids[0]] + kids[1..];
    }
  }

  /** Reading a formatted line gives back its name and children. */
  lemma FormatParses(name: string, kids: seq<string>)
    requires Label(name)
    requires forall k :: k in kids ==> Label(k)
    ensures LineParses(Format(name, kids))
    ensures Name(Format(name, kids)) == name && Children(Format(name, kids)) == kids
  {
    var line := Format(name, kids);
    SpacedLabels(kids);
    TrimTrimmed(line);
    assert Join([name, Spaced(kids)], ':') == line;
    SplitJoin([name, Spaced(kids)], ':');
    forall k | k in kids ensures ' ' !in k {
      assert Label(k);
    }
    SpacedJoin([], kids);
    assert [] + Spaced(kids) == Spaced(kids);
    forall i | 0 <= i < |[[]] + kids| ensures ' ' !in ([[]] + kids)[i] {
      if i > 0 {
        assert ([[]] + kids)[i] in kids;
      }
    }
    SplitJoin([[]] + kids, ' ');
    NonEmptyLabels(kids);
    assert NonEmpty([[]] + kids) == NonEmpty(kids);
  }

  /** A device name as the sample writes it: lower-case letters. */
  predicate Lower(w: string) {
    w != [] && forall i :: 0 <= i < |w| ==> 'a' <= w[i] <= 'z'
  }

  /** The lines that list each name with its children. */
  function Lines(names: seq<string>, kids: seq<seq<string>>): (r: seq<string>)
    requires |names| == |kids|
    ensures |r| == |names| && forall i :: 0 <= i < |names| ==> r[i] == Format(names[i], kids[i])
  {
    seq(|names|, i requires 0 <= i < |names| => Format(names[i], kids[i]))
  }

  /**
   * Lines of distinct lower-case names, joined by line breaks and parsed,
   * give each name the children it was written with.
   */
  lemma {:induction false} ParseLines(names: seq<string>, kids: seq<seq<string>>)
    requires |names| == |kids| >= 1
    requires forall i :: 0 <= i < |names| ==> Lower(names[i])
    requires forall i, k :: 0 <= i < |kids| && k in kids[i] ==> Lower(k)
    requires forall i, j :: 0 <= i < j < |names| ==> names[i] != names[j]
    ensures Split(Join(Lines(names, kids), '\n'), '\n') == Lines(names, kids)
    ensures forall i :: 0 <= i < |names| ==> LineParses(Lines(names, kids)[i])
    ensures forall v :: v in Graph(Lines(names, kids)) <==> v in names
    ensures forall i :: 0 <= i < |names| ==> Graph(Lines(names, kids))[names[i]] == kids[i]
  {
    var lines := Lines(names, kids);
    forall i | 0 <= i < |names|
      ensures '\n' !in lines[i] && LineParses(lines[i]) && Name(lines[i]) == names[i] && Children(lines[i]) == kids[i]
    {
      assert Lower(names[i]);
      assert forall k :: k in kids[i] ==> Lower(k);
      FormatParses(names[i], kids[i]);
      SpacedLabels(kids[i]);
      assert '\n' !in names[i];
    }
    SplitJoin(lines, '\n');
    GraphKeys(lines);
    assert Names(lines) == names;
    forall i | 0 <= i < |names| ensures Graph(lines)[names[i]] == kids[i] {
      forall j | i < j < |lines| ensures Name(lines[j]) != Name(lines[i]) {
        assert names[i] != names[j];
      }
      GraphLastLine(lines, i);
    }
  }

  function SampleNames(): seq<string> {
    ["aaa", "you", "bbb", "ccc", "ddd", "eee", "fff", "ggg", "hhh", "iii"]
  }

  function SampleChildren(): seq<seq<string>> {
    [["you", "hhh"], ["bbb", "ccc"], ["ddd", "eee"], ["ddd", "eee", "fff"], ["ggg"], ["out"], ["out"],
     ["out"], ["ccc", "fff", "iii"], ["out"]]
  }

  function SampleLines(): seq<string> {
    Lines(SampleNames(), SampleChildren())
  }

  /** The tests' rack: ten lines `name: child ...` joined by line breaks. */
  function SampleInput(): string {
    Join(SampleLines(), '\n')
  }

  /** A rank for the sample, by first letter: every cable the walk from `you` takes leads lower. */
  function SampleRank(v: string): nat {
    var c := if v == [] then 'o' else v[0];
    if c == 'o' then 0
    else if c == 'g' || c == 'e' || c == 'f' || c == 'i' then 1
    else if c == 'd' then 2
    else if c == 'b' || c == 'c' then 3
    else if c == 'y' || c == 'h' then 4
    else 5
  }

  lemma SampleLower()
    ensures forall i :: 0 <= i < |SampleNames()| ==> Lower(SampleNames()[i])
    ensures forall i, k :: 0 <= i < |SampleChildren()| && k in SampleChildren()[i] ==> Lower(k)
    ensures forall i, j :: 0 <= i < j < |SampleNames()| ==> SampleNames()[i] != SampleNames()[j]
  {
  }

  lemma SampleSplit()
    ensures Split(SampleInput(), '\n') == SampleLines()
  {
    SampleLower();
    ParseLines(SampleNames(), SampleChildren());
  }

  /** The entries of the sample graph that the walk from `you` uses. */
  lemma SampleEntries()
    ensures forall i :: 0 <= i < |SampleLines()| ==> LineParses(SampleLines()[i])
    ensures "you" in Graph(SampleLines()) && Graph(SampleLines())["you"] == ["bbb", "ccc"]
    ensures "bbb" in Graph(SampleLines()) && Graph(SampleLines())["bbb"] == ["ddd", "eee"]
    ensures "ccc" in Graph(SampleLines()) && Graph(SampleLines())["ccc"] == ["ddd", "eee", "fff"]
    ensures "ddd" in Graph(SampleLines()) && Graph(SampleLines())["ddd"] == ["ggg"]
    ensures "eee" in Graph(SampleLines()) && Graph(SampleLines())["eee"] == ["out"]
    ensures "fff" in Graph(SampleLines()) && Graph(SampleLines())["fff"] == ["out"]
    ensures "ggg" in Graph(SampleLines()) && Graph(SampleLines())["ggg"] == ["out"]
  {
    var names := SampleNames();
    var kids := SampleChildren();
    assert names[1] == "you" && names[2] == "bbb" && names[3] == "ccc" && names[4] == "ddd";
    assert names[5] == "eee" && names[6] == "fff" && names[7] == "ggg";
    assert kids[1] == ["bbb", "ccc"] && kids[2] == ["ddd", "eee"] && kids[3] == ["ddd", "eee", "fff"];
    assert kids[4] == ["ggg"] && kids[5] == ["out"] && kids[6] == ["out"] && kids[7] == ["out"];
    SampleLower();
    ParseLines(names, kids);
  }

  /** `test_parse`: the sample parses, and `you` feeds `bbb`. */
  lemma ParseSample()
    ensures forall i :: 0 <= i < |Split(SampleInput(), '\n')| ==> LineParses(Split(SampleInput(), '\n')[i])
    ensures "you" in Graph(Split(SampleInput(), '\n')) && "bbb" in Graph(Split(SampleInput(), '\n'))["you"]
  {
    SampleSplit();
    SampleEntries();
  }

  /** A node's paths are those of its children, added up (one child). */
  lemma PathsOfOne(g: map<string, seq<string>>, rank: string -> nat, v: string, a: string)
    requires Explorable(g, "out", rank, v) && v != "out" && g[v] == [a]
    ensures Explorable(g, "out", rank, a) && Paths(g, "out", rank, v) == Paths(g, "out", rank, a)
  {
    assert a in [a] && [a][..0] == [];
    assert Paths(g, "out", rank, v) == ChildTally(g, "out", rank, [a], rank(v), 1, 0);
  }

  /** A node's paths are those of its children, added up (two children). */
  lemma PathsOfTwo(g: map<string, seq<string>>, rank: string -> nat, v: string, a: string, b: string)
    requires Explorable(g, "out", rank, v) && v != "out" && g[v] == [a, b]
    ensures Explorable(g, "out", rank, a) && Explorable(g, "out", rank, b)
    ensures Paths(g, "out", rank, v) == Paths(g, "out", rank, a) + Paths(g, "out", rank, b)
  {
    assert a in [a, b] && b in [a, b];
    assert [a, b][..1] == [a] && [a][..0] == [];
    assert ChildTally(g, "out", rank, [a], rank(v), 1, 0) == Paths(g, "out", rank, a);
    assert Paths(g, "out", rank, v) == ChildTally(g, "out", rank, [a, b], rank(v), 1, 0);
  }

  /** A node's paths are those of its children, added up (three children). */
  lemma PathsOfThree(g: map<string, seq<string>>, rank: string -> nat, v: string, a: string, b: string, c: string)
    requires Explorable(g, "out", rank, v) && v != "out" && g[v] == [a, b, c]
    ensures Explorable(g, "out", rank, a) && Explorable(g, "out", rank, b) && Explorable(g, "out", rank, c)
    ensures Paths(g, "out", rank, v) == Paths(g, "out", rank, a) + Paths(g, "out", rank, b) + Paths(g, "out", rank, c)
  {
    var cs := [a, b, c];
    assert a in cs && b in cs && c in cs;
    assert cs[..2] == [a, b] && [a, b][..1] == [a] && [a][..0] == [];
    var bound := rank(v);
    assert ChildTally(g, "out", rank, [a], bound, 1, 0) == Paths(g, "out", rank, a);
    assert ChildTally(g, "out", rank, [a, b], bound, 1, 0) == Paths(g, "out", rank, a) + Paths(g, "out", rank, b);
    assert ChildTally(g, "out", rank, cs, bound, 1, 0) == ChildTally(g, "out", rank, [a, b], bound, 1, 0) + Paths(g, "out", rank, c);
    assert Paths(g, "out", rank, v) == ChildTally(g, "out", rank, cs, bound, 1, 0);
  }

  /** Every cable the walk from `you` takes leads to a lower `SampleRank`. */
  lemma SampleExplorable(g: map<string, seq<string>>)
    requires "you" in g && g["you"] == ["bbb", "ccc"]
    requires "bbb" in g && g["bbb"] == ["ddd", "eee"]
    requires "ccc" in g && g["ccc"] == ["ddd", "eee", "fff"]
    requires "ddd" in g && g["ddd"] == ["ggg"]
    requires "eee" in g && g["eee"] == ["out"]
    requires "fff" in g && g["fff"] == ["out"]
    requires "ggg" in g && g["ggg"] == ["out"]
    ensures Explorable(g, "out", SampleRank, "you")
  {
    var r := SampleRank;
    assert r("out") == 0 && r("eee") == 1 && r("fff") == 1 && r("ggg") == 1;
    assert r("ddd") == 2 && r("bbb") == 3 && r("ccc") == 3 && r("you") == 4;
    assert Explorable(g, "out", r, "out");
    assert Explorable(g, "out", r, "eee");
    assert Explorable(g, "out", r, "fff");
    assert Explorable(g, "out", r, "ggg");
    assert Explorable(g, "out", r, "ddd");
    assert Explorable(g, "out", r, "bbb");
    assert Explorable(g, "out", r, "ccc");
  }

  lemma SamplePaths(g: map<string, seq<string>>)
    requires "you" in g && g["you"] == ["bbb", "ccc"]
    requires "bbb" in g && g["bbb"] == ["ddd", "eee"]
    requires "ccc" in g && g["ccc"] == ["ddd", "eee", "fff"]
    requires "ddd" in g && g["ddd"] == ["ggg"]
    requires "eee" in g && g["eee"] == ["out"]
    requires "fff" in g && g["fff"] == ["out"]
    requires "ggg" in g && g["ggg"] == ["out"]
    ensures Explorable(g, "out", SampleRank, "you") && Paths(g, "out", SampleRank, "you") == 5
  {
    var r := SampleRank;
    SampleExplorable(g);
    PathsAtEnd(g, "out", r);
    PathsOfTwo(g, r, "you", "bbb", "ccc");
    PathsOfTwo(g, r, "bbb", "ddd", "eee");
    PathsOfThree(g, r, "ccc", "ddd", "eee", "fff");
    PathsOfOne(g, r, "ddd", "ggg");
    PathsOfOne(g, r, "eee", "out");
    PathsOfOne(g, r, "fff", "out");
    PathsOfOne(g, r, "ggg", "out");
  }

  /** `test_count_paths`: five paths lead from `you` to `out` in the sample. */
  lemma CountSample()
    ensures forall i :: 0 <= i < |Split(SampleInput(), '\n')| ==> LineParses(Split(SampleInput(), '\n')[i])
    ensures Explorable(Graph(Split(SampleInput(), '\n')), "out", SampleRank, "you")
            && Paths(Graph(Split(SampleInput(), '\n')), "out", SampleRank, "you") == 5
  {
    SampleSplit();
    SampleEntries();
    SamplePaths(Graph(SampleLines()));
  }
}
