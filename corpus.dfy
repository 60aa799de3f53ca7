/** The pattern corpus and the one-level flattening done when it is loaded. */
module Corpus {

  /** One recorded solution pattern, as read from the JSON knowledge base. */
  datatype Pattern = Pattern(
    problemType: string,
    description: string,
    usedIn: seq<string>,
    solutionSteps: seq<string>)

  /** A top-level entry of the knowledge base: a pattern, or a list of patterns. */
  datatype Item = Single(pattern: Pattern) | Nested(patterns: seq<Pattern>)

  /** What one top-level entry adds to the flat corpus. */
  function Contribution(item: Item): seq<Pattern>
  {
    match item
    case Single(p) => [p]
    case Nested(ps) => ps
  }

  /** The flat corpus: the entries' contributions concatenated in order. */
  function Flatten(items: seq<Item>): seq<Pattern>
  {
    if items == [] then []
    else Flatten(items[..|items| - 1]) + Contribution(items[|items| - 1])
  }

  /** The total number of patterns the entries contribute. */
  function TotalSize(items: seq<Item>): nat
  {
    if items == [] then 0
    else TotalSize(items[..|items| - 1]) + |Contribution(items[|items| - 1])|
  }

  /** Flattening distributes over concatenation of the entry list. */
  lemma {:induction false} FlattenAppend(a: seq<Item>, b: seq<Item>)
    ensures Flatten(a + b) == Flatten(a) + Flatten(b)
    decreases |b|
  {
    if b == [] {
      assert a + b == a;
    } else {
      var b' := b[..|b| - 1];
      var last := b[|b| - 1];
      assert (a + b)[..|a + b| - 1] == a + b';
      assert (a + b)[|a + b| - 1] == last;
      calc {
        Flatten(a + b);
        Flatten(a + b') + Contribution(last);
        { FlattenAppend(a, b'); }
        Flatten(a) + Flatten(b') + Contribution(last);
        Flatten(a) + Flatten(b);
      }
    }
  }

  /** Flattening the entries from the front: the first entry's patterns come first. */
  lemma FlattenCons(item: Item, rest: seq<Item>)
    ensures Flatten([item] + rest) == Contribution(item) + Flatten(rest)
  {
    FlattenAppend([item], rest);
    assert Flatten([item]) == Flatten([]) + Contribution(item);
  }

  /** The flat corpus holds exactly as many patterns as the entries contribute. */
  lemma {:induction false} FlattenLength(items: seq<Item>)
    ensures |Flatten(items)| == TotalSize(items)
  {
    if items != [] {
      FlattenLength(items[..|items| - 1]);
    }
  }

  /** Every pattern of the flat corpus comes from some entry. */
  lemma {:induction false} FlattenSource(items: seq<Item>, p: Pattern)
    requires p in Flatten(items)
    ensures exists i :: 0 <= i < |items| && p in Contribution(items[i])
  {
    var init := items[..|items| - 1];
    if p in Flatten(init) {
      FlattenSource(init, p);
      var i :| 0 <= i < |init| && p in Contribution(init[i]);
      assert items[i] == init[i];
    } else {
      assert p in Contribution(items[|items| - 1]);
    }
  }

  /** Every pattern an entry contributes is in the flat corpus. */
  lemma {:induction false} FlattenContains(items: seq<Item>, i: nat, p: Pattern)
    requires i < |items| && p in Contribution(items[i])
    ensures p in Flatten(items)
  {
    var init := items[..|items| - 1];
    if i < |init| {
      assert init[i] == items[i];
      FlattenContains(init, i, p);
    }
  }

  /** A pattern is in the flat corpus exactly when some entry contributes it. */
  lemma FlattenMembership(items: seq<Item>, p: Pattern)
    ensures p in Flatten(items) <==> exists i :: 0 <= i < |items| && p in Contribution(items[i])
  {
    if p in Flatten(items) {
      FlattenSource(items, p);
    }
    if exists i :: 0 <= i < |items| && p in Contribution(items[i]) {
      var i :| 0 <= i < |items| && p in Contribution(items[i]);
      FlattenContains(items, i, p);
    }
  }

  /** A corpus made only of single patterns is left as it is. */
  lemma {:induction false} FlattenSingles(items: seq<Item>)
    requires forall i :: 0 <= i < |items| ==> items[i].Single?
    ensures |Flatten(items)| == |items|
    ensures forall i :: 0 <= i < |items| ==> Flatten(items)[i] == items[i].pattern
  {
    if items != [] {
      FlattenSingles(items[..|items| - 1]);
    }
  }

  /** Flattening removes one level only: [[p1, p2], p3] becomes [p1, p2, p3]. */
  lemma FlattenExample(p1: Pattern, p2: Pattern, p3: Pattern)
    ensures Flatten([Nested([p1, p2]), Single(p3)]) == [p1, p2, p3]
  {
    FlattenCons(Single(p3), []);
    FlattenCons(Nested([p1, p2]), [Single(p3)]);
    assert [Nested([p1, p2])] + [Single(p3)] == [Nested([p1, p2]), Single(p3)];
  }

  /**
   * The loading loop: splice each nested list in element by element and
   * append each single pattern unchanged.
   */
  method LoadPatterns(data: seq<Item>) returns (flat: seq<Pattern>)
    ensures flat == Flatten(data)
    ensures |flat| == TotalSize(data)
  {
    flat := [];
    for i := 0 to |data|
      invariant flat == Flatten(data[..i])
    {
      assert data[..i + 1][..i] == data[..i];
      match data[i]
      case Nested(ps) =>
        flat := flat + ps;
      case Single(p) =>
        flat := flat + [p];
    }
    assert data[..|data|] == data;
    FlattenLength(data);
  }
}
