/**
 * Rule-based problem decomposition: a fixed keyword table tags the problem
 * text with qualitative dimension labels.
 */
module Dimensions {

  /** The label returned when no keyword occurs in the text. */
  const Fallback: string := "General Problem"

  /** The keyword-to-label table, in the order the dictionary literal lists it. */
  const Table: seq<(string, string)> := [
    ("scale", "Scalability"),
    ("scalability", "Scalability"),
    ("cost", "Cost Optimization"),
    ("resource", "Resource Allocation"),
    ("time", "Efficiency"),
    ("delay", "Efficiency"),
    ("traffic", "Optimization")
  ]

  /** ASCII case folding of one character; every other character is kept. */
  function LowerChar(c: char): (r: char)
    ensures 'A' <= c <= 'Z' ==> r as int == c as int + 32
    ensures !('A' <= c <= 'Z') ==> r == c
    ensures !('A' <= r <= 'Z')
  {
    if 'A' <= c <= 'Z' then (c as int + 32) as char else c
  }

  /** ASCII lower-casing of a string, character by character. */
  function Lower(s: string): (r: string)
    ensures |r| == |s|
    ensures forall i :: 0 <= i < |s| ==> r[i] == LowerChar(s[i])
  {
    seq(|s|, i requires 0 <= i < |s| => LowerChar(s[i]))
  }

  /** `key` occurs in `text` starting at position `i`. */
  predicate OccursAt(key: string, text: string, i: int)
  {
    0 <= i && i + |key| <= |text| && text[i..i + |key|] == key
  }

  /** The substring test `key in text`. */
  predicate IsSubstring(key: string, text: string)
  {
    exists i :: 0 <= i <= |text| - |key| && OccursAt(key, text, i)
  }

  /** Table entry `j` fires on the problem text: its keyword occurs in the lowered text. */
  predicate Fires(problem: string, j: int)
    requires 0 <= j < |Table|
  {
    IsSubstring(Table[j].0, Lower(problem))
  }

  /**
   * What the tagger promises: every label is fired by some entry, every fired
   * entry's label is present, and the fallback appears alone exactly when no
   * entry fires.
   */
  ghost predicate Describes(problem: string, dims: set<string>)
  {
    && (forall l :: l in dims && l != Fallback ==>
          exists j :: 0 <= j < |Table| && Fires(problem, j) && Table[j].1 == l)
    && (forall j :: 0 <= j < |Table| && Fires(problem, j) ==> Table[j].1 in dims)
    && (Fallback in dims <==> forall j :: 0 <= j < |Table| ==> !Fires(problem, j))
    && (Fallback in dims ==> dims == {Fallback})
  }

  /** Lower-casing an already lowered string changes nothing. */
  lemma LowerIdempotent(s: string)
    ensures Lower(Lower(s)) == Lower(s)
  {
  }

  /** Tagging depends on the text only up to ASCII case. */
  lemma FiresIgnoresCase(problem: string, j: int)
    requires 0 <= j < |Table|
    ensures Fires(problem, j) == Fires(Lower(problem), j)
  {
    LowerIdempotent(problem);
  }

  /** The description determines the answer: two results that both describe the text are equal. */
  lemma DescribesUnique(problem: string, d1: set<string>, d2: set<string>)
    requires Describes(problem, d1) && Describes(problem, d2)
    ensures d1 == d2
  {
    forall l | l in d1 ensures l in d2 {
      if l != Fallback {
        var j :| 0 <= j < |Table| && Fires(problem, j) && Table[j].1 == l;
      }
    }
    forall l | l in d2 ensures l in d1 {
      if l != Fallback {
        var j :| 0 <= j < |Table| && Fires(problem, j) && Table[j].1 == l;
      }
    }
  }

  /** No label of the table is the fallback label. */
  lemma FallbackNotInTable()
    ensures forall j :: 0 <= j < |Table| ==> Table[j].1 != Fallback
  {
  }

  /**
   * The tagger: walk the table in order, collect the label of every keyword
   * found in the lowered text, then drop duplicates, or answer the fallback
   * label when nothing was collected.
   */
  method ProblemDimensions(problem: string) returns (dims: set<string>)
    ensures dims != {}
    ensures Describes(problem, dims)
    ensures dims == {Fallback} <==> forall j :: 0 <= j < |Table| ==> !Fires(problem, j)
  {
    var dimensions: seq<string> := [];
    for j := 0 to |Table|
      invariant forall l :: l in dimensions ==>
        exists j' :: 0 <= j' < j && Fires(problem, j') && Table[j'].1 == l
      invariant forall j' :: 0 <= j' < j && Fires(problem, j') ==> Table[j'].1 in dimensions
    {
      var (keyword, tag) := Table[j];
      if IsSubstring(keyword, Lower(problem)) {
        dimensions := dimensions + [tag];
      }
    }
    FallbackNotInTable();
    if |dimensions| > 0 {
      dims := set l | l in dimensions;
      assert dimensions[0] in dims;
    } else {
      dims := {Fallback};
    }
  }

  /** Empty input is tagged with the fallback label only. */
  lemma EmptyProblem(dims: set<string>)
    requires Describes("", dims)
    ensures dims == {Fallback}
  {
    forall j | 0 <= j < |Table| ensures !Fires("", j) {
      assert |Table[j].0| > 0;
    }
  }

  /** A lower-case keyword found in the text is found at the same place in the lowered text. */
  lemma OccursLowered(key: string, s: string, i: int)
    requires forall m :: 0 <= m < |key| ==> !('A' <= key[m] <= 'Z')
    requires OccursAt(key, s, i)
    ensures OccursAt(key, Lower(s), i)
  {
    forall m | 0 <= m < |key| ensures Lower(s)[i + m] == key[m] {
      assert s[i + m] == s[i..i + |key|][m];
    }
  }

  /** An occurrence survives appending more text. */
  lemma OccursExtended(key: string, s: string, t: string, i: int)
    requires OccursAt(key, s, i)
    ensures OccursAt(key, s + t, i)
  {
    assert (s + t)[i..i + |key|] == s[i..i + |key|];
  }

  /** A keyword appended to a text occurs at the old end of the text. */
  lemma OccursAppended(s: string, key: string)
    ensures OccursAt(key, s + key, |s|)
  {
    assert (s + key)[|s|..|s| + |key|] == key;
  }

  /** Adding text never removes a tag: an entry that fires still fires on a longer text. */
  lemma FiresExtended(problem: string, more: string, j: int)
    requires 0 <= j < |Table|
    requires Fires(problem, j)
    ensures Fires(problem + more, j)
  {
    var key := Table[j].0;
    var i :| 0 <= i <= |Lower(problem)| - |key| && OccursAt(key, Lower(problem), i);
    assert Lower(problem + more)[i..i + |key|] == Lower(problem)[i..i + |key|];
    assert OccursAt(key, Lower(problem + more), i);
  }

  /** The text of the end-to-end scenario, written as the pieces the keywords sit between. */
  const ScenarioProblem: string := "traffic" + " congestion due to " + "resource" + " allocation"

  /** The keywords of the table are written in lower case. */
  lemma KeywordLowercase(j: int)
    requires 0 <= j < |Table|
    ensures forall m :: 0 <= m < |Table[j].0| ==> !('A' <= Table[j].0[m] <= 'Z')
  {
  }

  /** A keyword written anywhere in the text, as the table spells it, fires its entry. */
  lemma KeywordFires(text: string, j: int, i: int)
    requires 0 <= j < |Table|
    requires OccursAt(Table[j].0, text, i)
    ensures Fires(text, j)
  {
    KeywordLowercase(j);
    OccursLowered(Table[j].0, text, i);
  }

  /** In the scenario text both the "traffic" and the "resource" entries fire. */
  lemma ScenarioFires()
    ensures Fires(ScenarioProblem, 6) && Fires(ScenarioProblem, 3)
  {
    var traffic, middle, resource, tail := "traffic", " congestion due to ", "resource", " allocation";
    OccursAppended([], traffic);
    assert [] + traffic == traffic;
    OccursExtended(traffic, traffic, middle, 0);
    OccursExtended(traffic, traffic + middle, resource, 0);
    OccursExtended(traffic, traffic + middle + resource, tail, 0);
    KeywordFires(ScenarioProblem, 6, 0);
    OccursAppended(traffic + middle, resource);
    OccursExtended(resource, traffic + middle + resource, tail, |traffic + middle|);
    KeywordFires(ScenarioProblem, 3, |traffic + middle|);
  }

  /** The scenario text is tagged with both "Optimization" and "Resource Allocation". */
  lemma ScenarioProblemTags(dims: set<string>)
    requires Describes(ScenarioProblem, dims)
    ensures "Optimization" in dims && "Resource Allocation" in dims
  {
    ScenarioFires();
  }
}
