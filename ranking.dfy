/**
 * Ranking: the nearest-neighbour search answers with (distance, position)
 * pairs, nearest first; the ranking loop scores each pair and keeps the ones
 * confident enough, in the order the search gave them.
 */
module Ranking {
  import opened Corpus
  import opened Confidence

  /** How many neighbours are asked for at most. */
  const DefaultK: nat := 5

  /** One answer of the search: a distance and a position in the corpus. */
  datatype Hit = Hit(distance: real, index: int)

  /** A shown match: the pattern and its score in hundredths. */
  type Match = (Pattern, int)

  /** The number of neighbours asked for: five, or the whole corpus when it is smaller. */
  function TopK(corpusSize: nat): (k: nat)
    ensures k <= DefaultK && k <= corpusSize
    ensures k == DefaultK || k == corpusSize
  {
    if corpusSize < DefaultK then corpusSize else DefaultK
  }

  /** What the search guarantees: non-negative distances and positions inside the corpus. */
  predicate WellFormed(hits: seq<Hit>, corpusSize: nat)
  {
    forall i :: 0 <= i < |hits| ==> hits[i].distance >= 0.0 && 0 <= hits[i].index < corpusSize
  }

  /** The hit at rank `i` is confident enough to be shown. */
  predicate Confident(hits: seq<Hit>, i: int)
    requires 0 <= i < |hits| && hits[i].distance >= 0.0
  {
    Score(hits[i].distance) >= MinConfidence
  }

  /** The hits ordered nearest first, as the search returns them. */
  predicate NearestFirst(hits: seq<Hit>)
  {
    forall i, j :: 0 <= i < j < |hits| ==> hits[i].distance <= hits[j].distance
  }

  /** The matches the ranking loop shows, in rank order. */
  function Kept(patterns: seq<Pattern>, hits: seq<Hit>): seq<Match>
    requires WellFormed(hits, |patterns|)
  {
    if hits == [] then []
    else
      var last := hits[|hits| - 1];
      var score := Score(last.distance);
      Kept(patterns, hits[..|hits| - 1]) +
        (if score >= MinConfidence then [(patterns[last.index], score)] else [])
  }

  /** The ranks of the confident hits, in increasing order. */
  function KeptRanks(hits: seq<Hit>): seq<nat>
    requires forall i :: 0 <= i < |hits| ==> hits[i].distance >= 0.0
  {
    if hits == [] then []
    else
      KeptRanks(hits[..|hits| - 1]) +
        (if Score(hits[|hits| - 1].distance) >= MinConfidence then [|hits| - 1] else [])
  }

  /**
   * The kept ranks are increasing, lie inside the hit list, and are exactly
   * the ranks of the confident hits.
   */
  lemma {:induction false} KeptRanksExact(hits: seq<Hit>)
    requires forall i :: 0 <= i < |hits| ==> hits[i].distance >= 0.0
    ensures forall a, b :: 0 <= a < b < |KeptRanks(hits)| ==> KeptRanks(hits)[a] < KeptRanks(hits)[b]
    ensures forall a :: 0 <= a < |KeptRanks(hits)| ==> KeptRanks(hits)[a] < |hits|
    ensures forall i :: 0 <= i < |hits| ==> (i in KeptRanks(hits) <==> Confident(hits, i))
  {
    if hits != [] {
      var init := hits[..|hits| - 1];
      KeptRanksExact(init);
      forall i | 0 <= i < |init| ensures Confident(init, i) == Confident(hits, i) {
        assert init[i] == hits[i];
      }
    }
  }

  /** The kept matches are the patterns and scores of the hits at the kept ranks, one for one. */
  lemma {:induction false} KeptAtRanks(patterns: seq<Pattern>, hits: seq<Hit>)
    requires WellFormed(hits, |patterns|)
    ensures |Kept(patterns, hits)| == |KeptRanks(hits)|
    ensures forall a :: 0 <= a < |KeptRanks(hits)| ==>
      KeptRanks(hits)[a] < |hits| &&
      Kept(patterns, hits)[a] ==
        (patterns[hits[KeptRanks(hits)[a]].index], Score(hits[KeptRanks(hits)[a]].distance))
  {
    if hits != [] {
      var init := hits[..|hits| - 1];
      KeptAtRanks(patterns, init);
      KeptRanksExact(init);
      forall a | 0 <= a < |KeptRanks(init)| ensures init[KeptRanks(init)[a]] == hits[KeptRanks(init)[a]] {
      }
    }
  }

  /** Nothing is shown exactly when every hit falls below the threshold. */
  lemma NothingKeptIff(patterns: seq<Pattern>, hits: seq<Hit>)
    requires WellFormed(hits, |patterns|)
    ensures Kept(patterns, hits) == [] <==> forall i :: 0 <= i < |hits| ==> !Confident(hits, i)
  {
    KeptAtRanks(patterns, hits);
    KeptRanksExact(hits);
    if Kept(patterns, hits) != [] {
      assert KeptRanks(hits)[0] in KeptRanks(hits);
    }
  }

  /** Every shown score meets the threshold, and at most as many matches are shown as hits came back. */
  lemma KeptBounds(patterns: seq<Pattern>, hits: seq<Hit>)
    requires WellFormed(hits, |patterns|)
    ensures |Kept(patterns, hits)| <= |hits|
    ensures forall a :: 0 <= a < |Kept(patterns, hits)| ==>
      MinConfidence <= Kept(patterns, hits)[a].1 <= Full && Kept(patterns, hits)[a].0 in patterns
  {
    KeptAtRanks(patterns, hits);
    KeptRanksExact(hits);
    KeptRanksShort(hits);
    forall a | 0 <= a < |Kept(patterns, hits)| ensures MinConfidence <= Kept(patterns, hits)[a].1 {
      assert KeptRanks(hits)[a] in KeptRanks(hits);
    }
  }

  /** There are no more kept ranks than hits. */
  lemma {:induction false} KeptRanksShort(hits: seq<Hit>)
    requires forall i :: 0 <= i < |hits| ==> hits[i].distance >= 0.0
    ensures |KeptRanks(hits)| <= |hits|
  {
    if hits != [] {
      KeptRanksShort(hits[..|hits| - 1]);
    }
  }

  /**
   * When the hits come nearest first, skipping a hit is the same as stopping:
   * the confident hits are the first ones, and their scores never increase.
   */
  lemma {:induction false} NearestFirstKeepsPrefix(patterns: seq<Pattern>, hits: seq<Hit>)
    requires WellFormed(hits, |patterns|)
    requires NearestFirst(hits)
    ensures forall a :: 0 <= a < |KeptRanks(hits)| ==> KeptRanks(hits)[a] == a
    ensures forall a, b :: 0 <= a < b < |Kept(patterns, hits)| ==>
      Kept(patterns, hits)[a].1 >= Kept(patterns, hits)[b].1
  {
    KeptRanksExact(hits);
    KeptAtRanks(patterns, hits);
    var ranks := KeptRanks(hits);
    forall a | 0 <= a < |ranks| ensures ranks[a] == a {
      RankIsIndex(hits, a);
    }
    forall a, b | 0 <= a < b < |ranks| ensures Kept(patterns, hits)[a].1 >= Kept(patterns, hits)[b].1 {
      ScoreAntitone(hits[ranks[a]].distance, hits[ranks[b]].distance);
    }
  }

  /** In a nearest-first hit list the `a`-th kept rank is `a` itself. */
  lemma {:induction false} RankIsIndex(hits: seq<Hit>, a: nat)
    requires forall i :: 0 <= i < |hits| ==> hits[i].distance >= 0.0
    requires NearestFirst(hits)
    requires a < |KeptRanks(hits)|
    ensures KeptRanks(hits)[a] == a
    decreases |hits|
  {
    var init := hits[..|hits| - 1];
    KeptRanksExact(hits);
    KeptRanksExact(init);
    if a < |KeptRanks(init)| {
      RankIsIndex(init, a);
    } else {
      // the last hit is confident, so every nearer one is confident too
      forall i | 0 <= i < |init| ensures Confident(init, i) {
        ScoreAntitone(hits[i].distance, hits[|hits| - 1].distance);
        assert init[i] == hits[i];
      }
      AllRanksKept(init);
    }
  }

  /** When every hit is confident, every rank is kept. */
  lemma {:induction false} AllRanksKept(hits: seq<Hit>)
    requires forall i :: 0 <= i < |hits| ==> hits[i].distance >= 0.0
    requires forall i :: 0 <= i < |hits| ==> Confident(hits, i)
    ensures |KeptRanks(hits)| == |hits|
  {
    if hits != [] {
      var init := hits[..|hits| - 1];
      forall i | 0 <= i < |init| ensures Confident(init, i) {
        assert Confident(hits, i);
        assert init[i] == hits[i];
      }
      AllRanksKept(init);
      assert Confident(hits, |hits| - 1);
    }
  }

  /**
   * The ranking loop: score every hit in rank order, skip those below the
   * threshold, and append the others while counting them.
   */
  method RankAndFilter(patterns: seq<Pattern>, hits: seq<Hit>) returns (top: seq<Match>, shown: nat)
    requires WellFormed(hits, |patterns|)
    ensures top == Kept(patterns, hits)
    ensures shown == |top|
    ensures shown == 0 <==> forall i :: 0 <= i < |hits| ==> !Confident(hits, i)
  {
    shown := 0;
    top := [];
    for rank := 0 to |hits|
      invariant top == Kept(patterns, hits[..rank])
      invariant shown == |top|
    {
      assert hits[..rank + 1][..rank] == hits[..rank];
      var distance := hits[rank].distance;
      var score := Score(distance);
      if score < MinConfidence {
        continue;
      }
      var pattern := patterns[hits[rank].index];
      shown := shown + 1;
      top := top + [(pattern, score)];
    }
    assert hits[..|hits|] == hits;
    NothingKeptIff(patterns, hits);
  }
}
