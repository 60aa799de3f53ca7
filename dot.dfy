/**
 * The decomposition graph: Graphviz DOT text with one root node for the
 * problem, one node per shown match hanging off the root, and one edge from
 * each match node to each of its solution steps.
 */
module DotGraph {
  import opened Corpus
  import opened Decimal
  import opened Wrappers

  /** The first line of the text. */
  const Header: string := "digraph G {\n"

  /** The last character of the text. */
  const Footer: string := "}"

  /** How many characters of the problem the root label keeps. */
  const RootWidth: nat := 50

  const RootAttrs: string := "shape=box, style=filled, color=lightblue"
  const MatchAttrs: string := "shape=ellipse, style=filled, color=lightgreen"
  const StepAttrs: string := "shape=box"

  /** One DOT statement: a node with attributes, or an edge with optional attributes. */
  datatype Stmt =
    | Node(name: string, attrs: string)
    | Edge(source: string, target: string, attrs: string)

  /** The label of the root: the first fifty characters of the problem, always followed by an ellipsis. */
  function RootLabel(problem: string): string
  {
    "Problem: " + problem[..if |problem| < RootWidth then |problem| else RootWidth] + "..."
  }

  /** The label of a match node: the pattern's problem type and its score with two decimals. */
  function MatchLabel(p: Pattern, score: nat): string
  {
    p.problemType + " (" + TwoDecimals(score) + ")"
  }

  /** The text of one statement, a line ending in ";\n". */
  function Render(s: Stmt): string
  {
    match s
    case Node(name, attrs) => "\"" + name + "\" [" + attrs + "];\n"
    case Edge(source, target, attrs) =>
      if attrs == "" then "\"" + source + "\" -> \"" + target + "\";\n"
      else "\"" + source + "\" -> \"" + target + "\" [" + attrs + "];\n"
  }

  /** The text of a list of statements, in order. */
  function RenderAll(ss: seq<Stmt>): string
  {
    if ss == [] then "" else RenderAll(ss[..|ss| - 1]) + Render(ss[|ss| - 1])
  }

  /** One edge from a match node to each solution step, in step order. */
  function StepEdges(node: string, steps: seq<string>): seq<Stmt>
  {
    if steps == [] then []
    else StepEdges(node, steps[..|steps| - 1]) + [Edge(node, steps[|steps| - 1], StepAttrs)]
  }

  /** The statements one shown match contributes: its node, the root edge, the step edges. */
  function Block(root: string, node: string, steps: seq<string>): seq<Stmt>
  {
    [Node(node, MatchAttrs), Edge(root, node, "")] + StepEdges(node, steps)
  }

  /** The block of a shown match. */
  function MatchBlock(root: string, m: (Pattern, int)): seq<Stmt>
    requires m.1 >= 0
  {
    Block(root, MatchLabel(m.0, m.1), m.0.solutionSteps)
  }

  /** Scores of shown matches are never negative. */
  predicate NonNegativeScores(top: seq<(Pattern, int)>)
  {
    forall a :: 0 <= a < |top| ==> top[a].1 >= 0
  }

  /** The blocks of all shown matches, in order. */
  function Blocks(root: string, top: seq<(Pattern, int)>): seq<Stmt>
    requires NonNegativeScores(top)
  {
    if top == [] then []
    else Blocks(root, top[..|top| - 1]) + MatchBlock(root, top[|top| - 1])
  }

  /** The whole graph: the root node, then the blocks. */
  function Statements(problem: string, top: seq<(Pattern, int)>): seq<Stmt>
    requires NonNegativeScores(top)
  {
    [Node(RootLabel(problem), RootAttrs)] + Blocks(RootLabel(problem), top)
  }

  /** The DOT text of the graph. */
  function DotText(problem: string, top: seq<(Pattern, int)>): string
    requires NonNegativeScores(top)
  {
    Header + RenderAll(Statements(problem, top)) + Footer
  }

  /** Rendering distributes over concatenation of statement lists. */
  lemma {:induction false} RenderAllAppend(a: seq<Stmt>, b: seq<Stmt>)
    ensures RenderAll(a + b) == RenderAll(a) + RenderAll(b)
    decreases |b|
  {
    if b == [] {
      assert a + b == a;
      assert RenderAll(a) + "" == RenderAll(a);
    } else {
      var b', s := b[..|b| - 1], b[|b| - 1];
      assert b == b' + [s];
      assert a + b == (a + b') + [s];
      RenderAllSnoc(a + b', s);
      RenderAllSnoc(b', s);
      RenderAllAppend(a, b');
      Associative(RenderAll(a), RenderAll(b'), Render(s));
    }
  }

  /** The text of a single statement list. */
  lemma RenderOne(s: Stmt)
    ensures RenderAll([s]) == Render(s)
  {
    assert [s][..0] == [];
  }

  // ----- the shape of the graph -----

  /** The number of node statements in a list. */
  function NodeCount(ss: seq<Stmt>): nat
  {
    if ss == [] then 0 else NodeCount(ss[..|ss| - 1]) + (if ss[|ss| - 1].Node? then 1 else 0)
  }

  /** The number of edge statements in a list. */
  function EdgeCount(ss: seq<Stmt>): nat
  {
    if ss == [] then 0 else EdgeCount(ss[..|ss| - 1]) + (if ss[|ss| - 1].Edge? then 1 else 0)
  }

  /** The number of solution steps of all shown matches. */
  function StepTotal(top: seq<(Pattern, int)>): nat
  {
    if top == [] then 0 else StepTotal(top[..|top| - 1]) + |top[|top| - 1].0.solutionSteps|
  }

  /** Counting distributes over concatenation of statement lists. */
  lemma {:induction false} CountAppend(a: seq<Stmt>, b: seq<Stmt>)
    ensures NodeCount(a + b) == NodeCount(a) + NodeCount(b)
    ensures EdgeCount(a + b) == EdgeCount(a) + EdgeCount(b)
    decreases |b|
  {
    if b == [] {
      assert a + b == a;
    } else {
      var b' := b[..|b| - 1];
      assert (a + b)[..|a + b| - 1] == a + b';
      assert (a + b)[|a + b| - 1] == b[|b| - 1];
      CountAppend(a, b');
    }
  }

  /** The step edges of a match are edges from its node to each step, in order, and nothing else. */
  lemma {:induction false} StepEdgesExact(node: string, steps: seq<string>)
    ensures |StepEdges(node, steps)| == |steps|
    ensures forall i :: 0 <= i < |steps| ==> StepEdges(node, steps)[i] == Edge(node, steps[i], StepAttrs)
    ensures NodeCount(StepEdges(node, steps)) == 0
    ensures EdgeCount(StepEdges(node, steps)) == |steps|
  {
    if steps != [] {
      var init := steps[..|steps| - 1];
      StepEdgesExact(node, init);
      CountAppend(StepEdges(node, init), [Edge(node, steps[|steps| - 1], StepAttrs)]);
      assert [Edge(node, steps[|steps| - 1], StepAttrs)][..0] == [];
    }
  }

  /**
   * The blocks hold one node statement per shown match, and one edge
   * statement per shown match plus one per solution step. Step labels get no
   * node statement of their own; they become nodes only as edge targets.
   */
  lemma {:induction false} BlocksCounts(root: string, top: seq<(Pattern, int)>)
    requires NonNegativeScores(top)
    ensures NodeCount(Blocks(root, top)) == |top|
    ensures EdgeCount(Blocks(root, top)) == |top| + StepTotal(top)
  {
    if top != [] {
      var init := top[..|top| - 1];
      var m := top[|top| - 1];
      BlocksCounts(root, init);
      BlockCounts(root, MatchLabel(m.0, m.1), m.0.solutionSteps);
      CountAppend(Blocks(root, init), MatchBlock(root, m));
    }
  }

  /** A block holds one node statement, and one edge statement more than its match has steps. */
  lemma BlockCounts(root: string, node: string, steps: seq<string>)
    ensures NodeCount(Block(root, node, steps)) == 1
    ensures EdgeCount(Block(root, node, steps)) == 1 + |steps|
  {
    StepEdgesExact(node, steps);
    var head := [Node(node, MatchAttrs), Edge(root, node, "")];
    assert head[..1] == [Node(node, MatchAttrs)] && head[..1][..0] == [];
    assert NodeCount(head[..1]) == 1 && EdgeCount(head[..1]) == 0;
    assert NodeCount(head) == 1 && EdgeCount(head) == 1;
    CountAppend(head, StepEdges(node, steps));
  }

  /**
   * The statement counts of the whole text: one node statement for the root
   * and one per shown match, one edge statement per shown match and per step.
   */
  lemma GraphCounts(problem: string, top: seq<(Pattern, int)>)
    requires NonNegativeScores(top)
    ensures NodeCount(Statements(problem, top)) == 1 + |top|
    ensures EdgeCount(Statements(problem, top)) == |top| + StepTotal(top)
  {
    var root := [Node(RootLabel(problem), RootAttrs)];
    assert root[..0] == [];
    BlocksCounts(RootLabel(problem), top);
    CountAppend(root, Blocks(RootLabel(problem), top));
  }

  /** The blocks of two runs of matches are the blocks of each, one after the other. */
  lemma {:induction false} BlocksAppend(root: string, a: seq<(Pattern, int)>, b: seq<(Pattern, int)>)
    requires NonNegativeScores(a) && NonNegativeScores(b)
    ensures NonNegativeScores(a + b)
    ensures Blocks(root, a + b) == Blocks(root, a) + Blocks(root, b)
    decreases |b|
  {
    if b == [] {
      assert a + b == a;
      assert Blocks(root, a) + [] == Blocks(root, a);
    } else {
      var b', m := b[..|b| - 1], b[|b| - 1];
      assert b == b' + [m];
      assert a + b == (a + b') + [m];
      BlocksAppend(root, a, b');
      BlocksSnoc(root, a + b, |a + b| - 1);
      assert (a + b)[..|a + b| - 1] == a + b';
      BlocksSnoc(root, b, |b| - 1);
      StmtsAssociative(Blocks(root, a), Blocks(root, b'), MatchBlock(root, m));
    }
  }

  /**
   * The block of the `a`-th shown match sits between the blocks of the
   * matches before it and those after it: blocks come in the order of the
   * shown matches.
   */
  lemma BlocksSplit(root: string, top: seq<(Pattern, int)>, a: nat)
    requires NonNegativeScores(top)
    requires a < |top|
    ensures Blocks(root, top) ==
      Blocks(root, top[..a]) + MatchBlock(root, top[a]) + Blocks(root, top[a + 1..])
  {
    var one := [top[a]];
    assert one[..0] == [];
    assert Blocks(root, one) == MatchBlock(root, top[a]);
    assert top == top[..a] + one + top[a + 1..];
    BlocksAppend(root, top[..a], one);
    BlocksAppend(root, top[..a] + one, top[a + 1..]);
  }

  /** The root label keeps at most fifty characters of the problem and always ends with "...". */
  lemma RootLabelShape(problem: string)
    ensures |problem| <= RootWidth ==> RootLabel(problem) == "Problem: " + problem + "..."
    ensures |problem| > RootWidth ==> RootLabel(problem) == "Problem: " + problem[..RootWidth] + "..."
    ensures |RootLabel(problem)| <= 12 + RootWidth
  {
    if |problem| <= RootWidth {
      assert problem[..|problem|] == problem;
    }
  }

  /** A match node's label gives back the score it was drawn with. */
  lemma MatchLabelScore(p: Pattern, score: nat)
    ensures var node := MatchLabel(p, score);
      ParseTwoDecimals(node[|p.problemType| + 2..|node| - 1]) == Some(score)
  {
    var node := MatchLabel(p, score);
    assert node[|p.problemType| + 2..|node| - 1] == TwoDecimals(score);
    TwoDecimalsRoundTrip(score);
  }

  /**
   * The DOT text is the header, the root line, one block of lines per shown
   * match in order, and the closing brace.
   */
  lemma DotTextShape(problem: string, top: seq<(Pattern, int)>)
    requires NonNegativeScores(top)
    ensures DotText(problem, top) ==
      Header + Render(Node(RootLabel(problem), RootAttrs)) + RenderAll(Blocks(RootLabel(problem), top)) + Footer
  {
    var root := [Node(RootLabel(problem), RootAttrs)];
    var blocks := Blocks(RootLabel(problem), top);
    RenderAllAppend(root, blocks);
    RenderOne(root[0]);
    assert RenderAll(Statements(problem, top)) == Render(root[0]) + RenderAll(blocks);
    Associative(Header, Render(root[0]), RenderAll(blocks));
  }

  /** The DOT text opens with "digraph G {" and a line break, and closes with "}". */
  lemma DotTextBrackets(problem: string, top: seq<(Pattern, int)>)
    requires NonNegativeScores(top)
    ensures var text := DotText(problem, top);
      |text| > |Header| && text[..|Header|] == Header && text[|text| - 1] == '}'
  {
    var text := DotText(problem, top);
    var body := RenderAll(Statements(problem, top));
    assert text == Header + (body + Footer);
    assert (Header + (body + Footer))[..|Header|] == Header;
  }

  /** Appending one statement appends its line. */
  lemma RenderAllSnoc(ss: seq<Stmt>, s: Stmt)
    ensures RenderAll(ss + [s]) == RenderAll(ss) + Render(s)
  {
    assert (ss + [s])[..|ss|] == ss;
  }

  /** One more step adds one more edge. */
  lemma StepEdgesSnoc(node: string, steps: seq<string>, i: nat)
    requires i < |steps|
    ensures StepEdges(node, steps[..i + 1]) == StepEdges(node, steps[..i]) + [Edge(node, steps[i], StepAttrs)]
  {
    assert steps[..i + 1][..i] == steps[..i];
  }

  /** One more shown match adds its block. */
  lemma BlocksSnoc(root: string, top: seq<(Pattern, int)>, a: nat)
    requires NonNegativeScores(top)
    requires a < |top|
    ensures Blocks(root, top[..a + 1]) == Blocks(root, top[..a]) + MatchBlock(root, top[a])
  {
    assert top[..a + 1][..a] == top[..a];
  }

  /** Concatenation of statement lists is associative. */
  lemma StmtsAssociative(a: seq<Stmt>, b: seq<Stmt>, c: seq<Stmt>)
    ensures (a + b) + c == a + (b + c)
  {
  }

  /** Concatenation of strings is associative. */
  lemma Associative(a: string, b: string, c: string)
    ensures (a + b) + c == a + (b + c)
  {
  }

  /** Appending the line of one more statement to the text of some statements. */
  lemma AppendLine(prefix: string, ss: seq<Stmt>, s: Stmt)
    ensures (prefix + RenderAll(ss)) + Render(s) == prefix + RenderAll(ss + [s])
  {
    RenderAllSnoc(ss, s);
    Associative(prefix, RenderAll(ss), Render(s));
  }

  /** The edges from a match node to each of its solution steps, appended in step order. */
  method AppendStepEdges(dot: string, node: string, steps: seq<string>) returns (out: string)
    ensures out == dot + RenderAll(StepEdges(node, steps))
  {
    out := dot;
    assert steps[..0] == [];
    for i := 0 to |steps|
      invariant out == dot + RenderAll(StepEdges(node, steps[..i]))
    {
      var line := Render(Edge(node, steps[i], StepAttrs));
      AppendLine(dot, StepEdges(node, steps[..i]), Edge(node, steps[i], StepAttrs));
      StepEdgesSnoc(node, steps, i);
      out := out + line;
    }
    assert steps[..|steps|] == steps;
  }

  /**
   * The lines of one shown match: its node, its edge from the root, and one
   * edge per solution step, appended to the text built so far.
   */
  method AppendBlock(dot: string, root: string, node: string, steps: seq<string>) returns (out: string)
    ensures out == dot + RenderAll(Block(root, node, steps))
  {
    ghost var head := [Node(node, MatchAttrs), Edge(root, node, "")];
    var line := Render(Node(node, MatchAttrs));
    out := dot + line;
    RenderOne(Node(node, MatchAttrs));
    assert out == dot + RenderAll(head[..1]);
    line := Render(Edge(root, node, ""));
    AppendLine(dot, head[..1], Edge(root, node, ""));
    assert head[..1] + [Edge(root, node, "")] == head;
    out := out + line;
    assert out == dot + RenderAll(head);
    out := AppendStepEdges(out, node, steps);
    RenderAllAppend(head, StepEdges(node, steps));
    Associative(dot, RenderAll(head), RenderAll(StepEdges(node, steps)));
  }

  /**
   * The builder: open the digraph, add the root node, then the lines of each
   * shown match in order, and close the digraph.
   */
  method BuildDot(problem: string, top: seq<(Pattern, int)>) returns (dot: string)
    requires NonNegativeScores(top)
    ensures dot == DotText(problem, top)
  {
    var root := RootLabel(problem);
    dot := Header;
    var line := Render(Node(root, RootAttrs));
    RenderOne(Node(root, RootAttrs));
    dot := dot + line;
    assert top[..0] == [];
    assert [Node(root, RootAttrs)] + Blocks(root, top[..0]) == [Node(root, RootAttrs)];
    for a := 0 to |top|
      invariant dot == Header + RenderAll([Node(root, RootAttrs)] + Blocks(root, top[..a]))
    {
      var (pattern, score) := top[a];
      var node := MatchLabel(pattern, score);
      ghost var before := [Node(root, RootAttrs)] + Blocks(root, top[..a]);
      ghost var block := Block(root, node, pattern.solutionSteps);
      dot := AppendBlock(dot, root, node, pattern.solutionSteps);
      RenderAllAppend(before, block);
      Associative(Header, RenderAll(before), RenderAll(block));
      BlocksSnoc(root, top, a);
      StmtsAssociative([Node(root, RootAttrs)], Blocks(root, top[..a]), block);
    }
    assert top[..|top|] == top;
    dot := dot + Footer;
  }
}
