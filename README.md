# Collective Intelligence Engine — verified model of the analysis core

The Collective Intelligence Engine is a Streamlit page. It matches a free-text
problem statement against a corpus of recorded solution patterns. This project
models the deterministic logic buried in `app.py`, in Dafny:

- **Corpus flattening** (`Corpus`). The knowledge base is a list whose entries
  are patterns or lists of patterns. It is flattened one level, in order.
- **Dimension tagger** (`Dimensions`). The text is lower-cased (ASCII) and
  tested against a fixed keyword table. The result is the set of labels of the
  keywords found, or `{"General Problem"}` when none is found.
- **Confidence scorer** (`Confidence`). A search distance `d >= 0` becomes
  `1 / (1 + d)` rounded to two decimals. Scores are whole hundredths here:
  `Score(d)` is `100 / (1 + d)` rounded to the nearest integer, with halves
  rounded up.
- **Rank/filter loop** (`Ranking`). It asks for `k = min(5, corpus size)`
  neighbours. It walks the hits nearest first, drops those scoring below 0.15
  (15 hundredths) and collects the rest while counting them.
- **Score text** (`Decimal`). A score is printed with two decimals (`:.2f`).
- **DOT graph builder** (`DotGraph`). A `digraph` text grows line by line. It
  has one root node for the problem, then, per kept match, a node, an edge from
  the root, and one edge per solution step.
- **The analysis itself** (`Analysis`). This is the button handler. It ties the
  pieces together, with the nearest-neighbour search passed in as a function.

Each modelled loop is a method with loop invariants. The loops of
`Corpus.LoadPatterns`, `Ranking.RankAndFilter` and `DotGraph.BuildDot` are
proved equal to a specification function. The loop of
`Dimensions.ProblemDimensions` is proved to meet the predicate `Describes`,
which fixes one answer. The lemmas state what the source promises about these
specifications. The per-step display loop (app.py:144-145) only writes to the
page and is not modelled.

Facts about `app.py` that the model keeps as they are:

- The score is not always positive. It rounds to 0.00 for distances above 199
  (`Confidence.ZeroIffFar`).
- `app.py` has no guard against a negative or non-finite distance. Here
  non-negative distances are part of what the search promises.
- `app.py` has no empty-corpus check. For an empty corpus the model's report
  (`k = 0`, the warning, no graph) is the model's own choice: the real index is
  built from the encoded corpus (app.py:55-56), and nothing shows that it
  accepts an empty corpus or `k = 0`.
- The 0.15 threshold and `k = 5` are hard-coded, and so are they in the model.
- A pattern missing a field makes `app.py` fail with a Python error. The
  model's patterns always carry every field.

## Model

| member | source | states |
|---|---|---|
| Corpus.LoadPatterns | app.py:28-36 | The loop's result is the in-order flattening of the entries, and its length is the sum of the entries' contributions. |
| Corpus.FlattenAppend | app.py:29-36 | Flattening two runs of entries gives the two flattenings one after the other, so order is kept. |
| Corpus.FlattenCons | app.py:30-34 | The first entry's patterns come first, followed by the flattening of the rest. |
| Corpus.FlattenLength | app.py:29-36 | The flat corpus holds exactly the total number of patterns the entries contribute. |
| Corpus.FlattenMembership | app.py:30-34 | A pattern is in the flat corpus iff some entry contributes it: a nested list is spliced in and a single pattern is appended unchanged. |
| Corpus.FlattenSource | app.py:30-34 | Every pattern of the flat corpus comes from some entry. |
| Corpus.FlattenContains | app.py:30-34 | Every pattern an entry contributes ends up in the flat corpus. |
| Corpus.FlattenSingles | app.py:33-34 | A corpus made only of single patterns comes out unchanged, element by element. |
| Corpus.FlattenExample | app.py:29-36 | `[[p1, p2], p3]` flattens to `[p1, p2, p3]`: only one level is removed. |
| Dimensions.ProblemDimensions | app.py:65-81 | The result is never empty. Every label comes from a keyword found in the lowered text, and every found keyword's label is present. The result is exactly `{"General Problem"}` iff no keyword is found. |
| Dimensions.DescribesUnique | app.py:76-81 | The tagger's promise fixes its answer: two sets that both meet it are equal, so the unordered `list(set(...))` result is determined as a set. |
| Dimensions.FallbackNotInTable | app.py:66-74 | No label of the table is the fallback label, so the fallback never mixes with real labels. |
| Dimensions.LowerIdempotent | app.py:78 | Lower-casing the lowered text changes nothing. |
| Dimensions.FiresIgnoresCase | app.py:78 | Whether a keyword fires does not depend on ASCII case. |
| Dimensions.KeywordLowercase | app.py:66-74 | The keywords of the table are all lower case, so they can match the lowered text. |
| Dimensions.KeywordFires | app.py:77-79 | A keyword written anywhere in the text, as the table spells it, adds its label. |
| Dimensions.EmptyProblem | app.py:76-81 | The empty text is tagged `{"General Problem"}`. |
| Dimensions.OccursLowered | app.py:78 | A lower-case keyword found in the text is found at the same place in the lowered text. |
| Dimensions.FiresExtended | app.py:77-79 | Adding text never removes a tag: a keyword that fires on a text still fires on any longer text that starts with it. |
| Dimensions.ScenarioFires | app.py:66-79 | In "traffic congestion due to resource allocation" the "traffic" and "resource" keywords fire. |
| Dimensions.ScenarioProblemTags | app.py:65-81 | That text is tagged with both "Optimization" and "Resource Allocation". |
| Confidence.Exact | app.py:87 | The unrounded score `100 / (1 + d)` lies in (0, 100] for every `d >= 0`. |
| Confidence.Score | app.py:86-87 | The rounded score lies in [0, 100] hundredths, is 100 (1.00) at distance 0, and is within half a hundredth of the exact score. |
| Confidence.ExactAntitone | app.py:87 | The exact score never increases with distance. |
| Confidence.ScoreAntitone | app.py:86-87 | `d1 <= d2` implies `Score(d1) >= Score(d2)`. |
| Confidence.ShownIffClose | app.py:126-128 | A score reaches the 0.15 threshold iff the distance is at most 171/29 (about 5.897). |
| Confidence.ZeroIffFar | app.py:87 | The score rounds to 0.00 iff the distance exceeds 199, so it is not always positive. |
| Ranking.TopK | app.py:114 | `k` is at most 5 and at most the corpus size, and equals one of them. |
| Ranking.RankAndFilter | app.py:121-133 | The loop's matches are exactly the kept matches of the hits, `shown` is their number, and `shown == 0` iff no hit reaches the threshold. |
| Ranking.KeptRanksExact | app.py:124-129 | The kept ranks increase, lie inside the hit list, and are exactly the ranks whose score reaches 0.15. |
| Ranking.KeptAtRanks | app.py:124-133 | The `a`-th kept match is the pattern and score of the hit at the `a`-th kept rank, so the kept list is a subsequence of the ranked hits in rank order. |
| Ranking.NothingKeptIff | app.py:121-133 | Nothing is kept iff every hit scores below 0.15. The warning at app.py:155-156 is tied to this by `Ranking.RankAndFilter` and `Analysis.Analyze`. |
| Ranking.KeptBounds | app.py:124-133 | At most as many matches as hits are kept. Every kept score lies in [15, 100] and every kept pattern is from the corpus. |
| Ranking.KeptRanksShort | app.py:124-129 | There are no more kept ranks than hits. |
| Ranking.NearestFirstKeepsPrefix | app.py:115-133 | For hits ordered nearest first, the kept hits are the first ones and their scores never increase: skipping with `continue` acts like stopping. |
| Ranking.RankIsIndex | app.py:124-129 | For hits ordered nearest first, the `a`-th kept rank is `a`. |
| Ranking.AllRanksKept | app.py:124-129 | When every hit reaches the threshold, every rank is kept. |
| Decimal.NumeralRoundTrip | app.py:166 | Reading a printed numeral back gives the number it was printed from. |
| Decimal.TwoDecimals | app.py:166 | The two-decimal text of a score has a decimal point followed by two digits, after a run of digits. |
| Decimal.ParseTwoDecimals | app.py:87 | Text read back as a score has the two-decimal shape: a run of digits, a decimal point, then two digits. |
| Decimal.TwoDecimalsRoundTrip | app.py:166 | The two-decimal text of a score reads back as that score. |
| Decimal.TwoDecimalsInjective | app.py:166 | Different scores print differently. |
| Decimal.TwoDecimalsExtremes | app.py:166 | Scores 100, 0 and 15 print as "1.00", "0.00" and "0.15". |
| DotGraph.BuildDot | app.py:163-170 | The built text is the DOT text of the problem and the kept matches: the header, the root line, each match's lines in order, and `}`. |
| DotGraph.AppendBlock | app.py:166-169 | One match appends its node line, its root edge and one edge per solution step, in step order. |
| DotGraph.AppendStepEdges | app.py:168-169 | The inner loop appends one edge line from the match node to each solution step, in step order. |
| DotGraph.DotTextShape | app.py:163-170 | The DOT text is the header, the root line, the blocks of the kept matches, and the closing brace. |
| DotGraph.DotTextBrackets | app.py:163-170 | The text starts with `digraph G {` and a line break, and ends with `}`. |
| DotGraph.RootLabelShape | app.py:164 | The root label is "Problem: ", then at most 50 characters of the problem, then "...". The ellipsis is added even to short input. |
| DotGraph.MatchLabelScore | app.py:166 | A match node's label gives back the score it was drawn with. |
| DotGraph.GraphCounts | app.py:164-169 | The DOT text holds one node statement for the root and one per kept match, and one edge statement per kept match plus one per solution step. Step labels get no node statement; they become graph nodes only as edge targets (see `DotGraph.StepEdgesExact`). |
| DotGraph.BlocksCounts | app.py:165-169 | The matches' blocks hold one node statement per match and one edge statement per match and per step. |
| DotGraph.BlockCounts | app.py:166-169 | One match's block holds one node statement and one edge statement more than the match has steps. |
| DotGraph.StepEdgesExact | app.py:168-169 | A match's step edges go from its node to each step, in order, and nothing else. |
| DotGraph.BlocksSplit | app.py:165-169 | The `a`-th match's block sits between the blocks of the matches before it and after it. |
| DotGraph.BlocksAppend | app.py:165-169 | The blocks of two runs of matches are the blocks of each, one after the other. |
| DotGraph.RenderAllAppend | app.py:163-170 | The text of a statement list is the text of its parts, one after the other. |
| DotGraph.CountAppend | app.py:165-169 | Node and edge counts add up over concatenation. |
| Analysis.Analyze | app.py:101-171 | A blank problem produces nothing. Otherwise the report carries the tagged dimensions, `k = min(5, corpus size)`, exactly the confident hits of the `k`-neighbour search in rank order with their count, a warning iff nothing is kept, and the DOT text iff something is kept. |
| Analysis.KeptDrawable | app.py:133-166 | Kept scores are never negative, so every kept match can be drawn. |
| Analysis.SingleConfidentHit | app.py:114-170 | A one-pattern corpus with one close hit shows exactly that pattern, with a score in [0.15, 1.00]. Its DOT text has two node statements and one edge statement more than the pattern has steps. |

## Left out

- Page setup, widgets, `st.write`/`st.markdown` output, the per-match reasoning trace text and `st.graphviz_chart` are presentation only (app.py:10-18, 92-101, 103-153, 171-174).
- The button press is not modelled. `Analysis.Analyze` is the handler run when the button is pressed.
- Opening and parsing the JSON knowledge base (app.py:25-26) is file I/O. `Corpus.LoadPatterns` starts from the parsed entries. embedding_utils.py is not part of this model: it is file I/O plus wrappers around the embedding model and the index, and it repeats app.py.
- The embedding model and the FAISS index (app.py:43-60, 111, 115) are foreign libraries. The search is a parameter of `Analysis.Analyze`. It is required to return exactly `k` hits with non-negative distances and positions inside the corpus, as an exact L2 index does when `k` is between 1 and the corpus size. For `k = 0` (an empty corpus) the search's behaviour is the model's own assumption. Its ordering is not assumed; `Ranking.NearestFirstKeepsPrefix` states what nearest-first ordering adds.
- The caching decorators and global singletons (app.py:23, 43, 52) do not change results.
- Confidence.Score: uses exact real arithmetic and rounds halves up. Python formats the binary double with `:.2f`, which rounds the nearest binary value. The two can differ for distances whose exact score sits on or next to a half hundredth, such as the 171/29 threshold boundary.
- Distances are non-negative reals. Float32 distances, NaN and infinity are not modelled, and the source has no guard against a negative distance.
- Dimensions.Lower: folds ASCII letters only. Python's `str.lower()` also folds non-ASCII letters. The keywords are ASCII, but a non-ASCII character that lowers to an ASCII letter (such as the Kelvin sign) is not folded here.
- Analysis.IsBlank: treats only the ASCII whitespace that `str.strip()` removes as blank. Non-ASCII whitespace is treated as text.
- The DOT text quotes labels without escaping them, as the source does. A problem, problem type or step containing `"` produces invalid DOT text; the model keeps this behaviour.
- The order of `list(set(...))` is not defined in Python, so the dimensions are a set.
