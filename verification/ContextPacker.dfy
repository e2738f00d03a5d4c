/** Cutting a module down to a token budget. Statements, their weights, the printer and the token
    counter are parameters. */
module ContextPacker {

  const PLACEHOLDER := "# [Code truncated due to token budget]"

  /** What the search asks of its surroundings. */
  datatype Costs<!S> = Costs(
    weight: S -> nat,
    unparse: seq<S> -> string,
    count: string -> nat)

  /** The text of the first k statements; nothing is printed for none. */
  function Text<S>(costs: Costs<S>, body: seq<S>, k: nat): string
    requires k <= |body|
  {
    if k == 0 then "" else costs.unparse(body[..k])
  }

  predicate Fits<S>(costs: Costs<S>, body: seq<S>, budget: int, k: nat)
    requires k <= |body|
  {
    costs.count(Text(costs, body, k)) <= budget
  }

  /** The first k statements fit and, if there are more, the first k + 1 do not. */
  predicate CutsAt<S>(costs: Costs<S>, body: seq<S>, budget: int, k: nat) {
    && k <= |body|
    && Fits(costs, body, budget, k)
    && (k < |body| ==> !Fits(costs, body, budget, k + 1))
  }

  /** Adding statements never makes the text cheaper. */
  ghost predicate Monotone<S>(costs: Costs<S>, body: seq<S>) {
    forall j: nat, k: nat :: j <= k <= |body| ==>
      costs.count(Text(costs, body, j)) <= costs.count(Text(costs, body, k))
  }

  /** With a monotone cost a cut is the largest prefix that fits, and there is only one. */
  lemma CutIsLargest<S>(costs: Costs<S>, body: seq<S>, budget: int, k: nat)
    requires CutsAt(costs, body, budget, k) && Monotone(costs, body)
    ensures forall j: nat :: j <= |body| ==>
              (costs.count(if j == 0 then "" else costs.unparse(body[..j])) <= budget <==> j <= k)
  {
    forall j: nat | j <= |body|
      ensures costs.count(if j == 0 then "" else costs.unparse(body[..j])) <= budget <==> j <= k
    {
      assert Text(costs, body, j) == if j == 0 then "" else costs.unparse(body[..j]);
      if j > k {
        assert costs.count(Text(costs, body, k + 1)) <= costs.count(Text(costs, body, j));
      } else {
        assert costs.count(Text(costs, body, j)) <= costs.count(Text(costs, body, k));
      }
    }
  }

  /** So with a monotone cost the estimates have no influence on the result. */
  lemma CutIsUnique<S>(costs: Costs<S>, body: seq<S>, budget: int, j: nat, k: nat)
    requires CutsAt(costs, body, budget, j) && CutsAt(costs, body, budget, k) && Monotone(costs, body)
    ensures j == k
  {
    CutIsLargest(costs, body, budget, j);
    CutIsLargest(costs, body, budget, k);
    assert costs.count(if j == 0 then "" else costs.unparse(body[..j])) <= budget <==> j <= k;
  }

  // ----- the estimate

  function Min(a: int, b: int): int {
    if a <= b then a else b
  }

  function Max(a: int, b: int): int {
    if a >= b then a else b
  }

  /** bisect_right on an ascending list: the number of elements not above x. */
  function BisectRight(xs: seq<nat>, x: int): (r: nat)
    ensures r <= |xs|
  {
    if xs == [] || xs[0] > x then 0 else 1 + BisectRight(xs[1..], x)
  }

  /** The largest statement prefix that fits, and its text, by a binary search that starts on the side
      that an estimate points to. With any cost the result is a cut. */
  method FindTruncationIndex<S>(body: seq<S>, budget: int, costs: Costs<S>) returns (bestK: nat, best: string)
    requires costs.count("") == 0
    ensures body == [] || budget <= 0 ==> bestK == 0 && best == ""
    ensures body != [] && budget > 0 ==> CutsAt(costs, body, budget, bestK) && best == Text(costs, body, bestK)
    ensures body != [] && budget > 0 ==>
              && bestK <= |body| && costs.count(best) <= budget
              && best == (if bestK == 0 then "" else costs.unparse(body[..bestK]))
              && (bestK < |body| ==> costs.count(costs.unparse(body[..bestK + 1])) > budget)
  {
    if body == [] || budget <= 0 {
      return 0, "";
    }
    var prefixSums: seq<nat> := [0];
    for i := 0 to |body|
      invariant |prefixSums| == i + 1
    {
      prefixSums := prefixSums + [prefixSums[i] + costs.weight(body[i])];
    }
    var estK := Min(|body|, Max(0, BisectRight(prefixSums, budget) - 1));
    var estimate := Text(costs, body, estK);
    var low: int, high: int;
    if costs.count(estimate) <= budget {
      bestK, best := estK, estimate;
      low, high := estK + 1, |body|;
    } else {
      bestK, best := 0, "";
      low, high := 0, estK - 1;
    }
    while low <= high
      invariant 0 <= low <= high + 1 && high <= |body|
      invariant low == bestK + 1 || (low == 0 && bestK == 0 && high >= 0)
      invariant bestK <= |body| && best == Text(costs, body, bestK) && Fits(costs, body, budget, bestK)
      invariant high == |body| || !Fits(costs, body, budget, high + 1)
      decreases high - low
    {
      var mid := (low + high) / 2;
      var cand := Text(costs, body, mid);
      if costs.count(cand) <= budget {
        bestK, best := mid, cand;
        low := mid + 1;
      } else {
        high := mid - 1;
      }
    }
  }

  // ----- the tree

  /** A parsed module; its body is replaced in place. */
  class Tree<S> {
    var body: seq<S>

    constructor (body: seq<S>)
      ensures this.body == body
    {
      this.body := body;
    }
  }

  /** The list of removed names that the caller passes in. */
  class NameLog {
    var names: seq<string>

    constructor ()
      ensures names == []
    {
      names := [];
    }
  }

  function NamesOf<S>(name: S -> string, stmts: seq<S>): seq<string> {
    seq(|stmts|, i requires 0 <= i < |stmts| => name(stmts[i]))
  }

  function TotalWeight<S>(costs: Costs<S>, body: seq<S>): nat {
    if body == [] then 0 else costs.weight(body[0]) + TotalWeight(costs, body[1..])
  }

  /** It is the sum of the weights: one for each statement, whatever the order of adding. */
  lemma {:induction false} TotalWeightAdds<S>(costs: Costs<S>, a: seq<S>, b: seq<S>)
    ensures TotalWeight(costs, a + b) == TotalWeight(costs, a) + TotalWeight(costs, b)
    ensures forall x: S :: TotalWeight(costs, [x]) == costs.weight(x)
    decreases |a|
  {
    forall x: S
      ensures TotalWeight(costs, [x]) == costs.weight(x)
    {
      assert [x][1..] == [];
    }
    if a == [] {
      assert a + b == b;
    } else {
      assert (a + b)[1..] == a[1..] + b;
      TotalWeightAdds(costs, a[1..], b);
    }
  }

  /** Cuts the tree down to the budget. Docstrings are stripped only when the estimate promises a fit that
      the real count refuses; `strip` removes docstrings and leaves some statement behind.
      What is kept is a prefix of the body (stripped, when it had to be), exactly the names of the rest
      are logged, in order, and "not truncated" is reported only for an untouched tree. */
  method PruneTreeToBudget<S>(tree: Tree<S>, budget: int, pruned: NameLog, costs: Costs<S>,
                              strip: seq<S> -> seq<S>, name: S -> string)
    returns (text: string, truncated: bool)
    requires costs.count("") == 0
    requires forall b: seq<S> :: b != [] ==> strip(b) != []
    modifies tree, pruned
    ensures var body := old(tree.body);
            var strips := body != [] && budget > 0 && TotalWeight(costs, body) <= budget
                          && costs.count(costs.unparse(body)) > budget;
            var base := if strips then strip(body) else body;
            var kept := |tree.body|;
            && kept <= |base| && tree.body == base[..kept]
            && pruned.names == old(pruned.names) + NamesOf(name, base[kept..])
            && (budget <= 0 ==> kept == 0)
            && (budget > 0 && body != [] ==> CutsAt(costs, base, budget, kept))
            && truncated == (strips || kept < |base|)
            && (if kept < |base| && kept == 0 then text == PLACEHOLDER
                else text == Text(costs, base, kept) || (text == PLACEHOLDER && Text(costs, base, kept) == ""))
    ensures budget > 0 && text != PLACEHOLDER ==> costs.count(text) <= budget
  {
    if tree.body == [] {
      assert pruned.names + NamesOf(name, tree.body) == pruned.names;
      return "", false;
    }
    if budget <= 0 {
      LogRemoved(pruned, tree.body, name);
      assert tree.body[0..] == tree.body;
      tree.body := [];
      return PLACEHOLDER, true;
    }
    var docstringsStripped := false;
    if TotalWeight(costs, tree.body) <= budget {
      var unparsed := costs.unparse(tree.body);
      if costs.count(unparsed) <= budget {
        assert tree.body[..|tree.body|] == tree.body;
        assert pruned.names + NamesOf(name, tree.body[|tree.body|..]) == pruned.names;
        return unparsed, false;
      }
      tree.body := strip(tree.body);
      docstringsStripped := true;
      unparsed := costs.unparse(tree.body);
      if costs.count(unparsed) <= budget {
        assert tree.body[..|tree.body|] == tree.body;
        assert pruned.names + NamesOf(name, tree.body[|tree.body|..]) == pruned.names;
        return unparsed, true;
      }
    }
    var origCount := |tree.body|;
    var bestK, best := FindTruncationIndex(tree.body, budget, costs);
    LogRemoved(pruned, tree.body[bestK..], name);
    tree.body := tree.body[..bestK];
    if best == "" {
      best := PLACEHOLDER;
    }
    return best, bestK < origCount || docstringsStripped;
  }

  method LogRemoved<S>(pruned: NameLog, removed: seq<S>, name: S -> string)
    modifies pruned
    ensures pruned.names == old(pruned.names) + NamesOf(name, removed)
    ensures |pruned.names| == |old(pruned.names)| + |removed|
    ensures forall i :: 0 <= i < |removed| ==> pruned.names[|old(pruned.names)| + i] == name(removed[i])
  {
    assert removed[..0] == [];
    for i := 0 to |removed|
      invariant pruned.names == old(pruned.names) + NamesOf(name, removed[..i])
    {
      assert NamesOf(name, removed[..i + 1]) == NamesOf(name, removed[..i]) + [name(removed[i])];
      pruned.names := pruned.names + [name(removed[i])];
    }
    assert removed[..|removed|] == removed;
  }
}
