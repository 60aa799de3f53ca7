/**
 * One analysis of a problem statement: tag its dimensions, ask the search for
 * the nearest patterns, keep the confident ones, and draw the decomposition
 * graph when anything was kept.
 */
module Analysis {
  import opened Wrappers
  import opened Corpus
  import opened Dimensions
  import opened Confidence
  import opened Ranking
  import opened DotGraph

  /** What one analysis produces for the page. */
  datatype Report = Report(
    dimensions: set<string>,
    k: nat,
    top: seq<Match>,
    shown: nat,
    warning: bool,
    graph: Option<string>)

  /** The characters `str.strip()` removes that lie in the ASCII range. */
  predicate IsSpace(c: char)
  {
    c == ' ' || 9 <= c as int <= 13 || 0x1C <= c as int <= 0x1F
  }

  /** The text is empty once surrounding whitespace is stripped. */
  predicate IsBlank(problem: string)
  {
    forall i :: 0 <= i < |problem| ==> IsSpace(problem[i])
  }

  /**
   * What the search promises for a neighbour count `k` no larger than the
   * corpus: exactly `k` hits, each at a non-negative distance from a pattern
   * of the corpus.
   */
  ghost predicate SearchContract(search: nat -> seq<Hit>, corpusSize: nat)
  {
    forall k: nat :: k <= corpusSize ==> |search(k)| == k && WellFormed(search(k), corpusSize)
  }

  /** Scores of kept matches are never negative, so they can be drawn. */
  lemma KeptDrawable(patterns: seq<Pattern>, hits: seq<Hit>)
    requires WellFormed(hits, |patterns|)
    ensures NonNegativeScores(Kept(patterns, hits))
  {
    KeptBounds(patterns, hits);
  }

  /**
   * The analysis run when the button is pressed: nothing happens for a blank
   * problem; otherwise the dimensions, the at most five nearest patterns that
   * are confident enough, the "nothing confident" warning, and the graph text
   * when some pattern was kept.
   */
  method Analyze(problem: string, patterns: seq<Pattern>, search: nat -> seq<Hit>) returns (r: Option<Report>)
    requires SearchContract(search, |patterns|)
    ensures r.None? <==> IsBlank(problem)
    ensures r.Some? ==>
      var rep := r.value;
      && Describes(problem, rep.dimensions)
      && rep.k == TopK(|patterns|)
      && rep.top == Kept(patterns, search(rep.k))
      && rep.shown == |rep.top| <= rep.k <= DefaultK
      && (rep.warning <==> forall i :: 0 <= i < rep.k ==> !Confident(search(rep.k), i))
      && (rep.graph.Some? <==> rep.top != [])
      && (rep.graph.Some? ==> NonNegativeScores(rep.top) && rep.graph.value == DotText(problem, rep.top))
  {
    if IsBlank(problem) {
      return None;
    }
    var dimensions := ProblemDimensions(problem);
    var k := TopK(|patterns|);
    var hits := search(k);
    var top, shown := RankAndFilter(patterns, hits);
    KeptBounds(patterns, hits);
    var warning := shown == 0;
    var graph := None;
    if top != [] {
      KeptDrawable(patterns, hits);
      var dot := BuildDot(problem, top);
      graph := Some(dot);
    }
    r := Some(Report(dimensions, k, top, shown, warning, graph));
  }

  /**
   * A one-pattern corpus whose only hit is close enough: exactly one match
   * is shown, and the DOT text has two node statements and one edge
   * statement more than the pattern has steps.
   */
  lemma SingleConfidentHit(problem: string, p: Pattern, d: real)
    requires 0.0 <= d <= 171.0 / 29.0
    ensures Kept([p], [Hit(d, 0)]) == [(p, Score(d))]
    ensures MinConfidence <= Score(d) <= Full
    ensures NodeCount(Statements(problem, [(p, Score(d))])) == 2
    ensures EdgeCount(Statements(problem, [(p, Score(d))])) == 1 + |p.solutionSteps|
  {
    ShownIffClose(d);
    var hits := [Hit(d, 0)];
    assert hits[..0] == [];
    var top := [(p, Score(d))];
    GraphCounts(problem, top);
    assert top[..0] == [];
  }
}
