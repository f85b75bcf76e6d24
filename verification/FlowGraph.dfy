/**
 Paths and dominance in a flow graph of blocks, reverse post-orders of it, and the passage
 from blocks to the block numbers of module DominatorTree.
 */
module FlowGraph {
  import opened Mir
  import opened DominatorTree

  // ---------------------------------------------------------------- what dominance means

  /** A walk along successor edges that starts at the entry. */
  ghost predicate IsPath(g: Cfg, entry: MIRBlock, older path: seq<MIRBlock>) {
    && |path| > 0
    && path[0] == entry
    && (forall k :: 0 <= k < |path| ==> path[k] in g.succ)
    && (forall k :: 0 <= k < |path| - 1 ==> path[k + 1] in g.succ[path[k]])
  }

  ghost predicate IsPathTo(g: Cfg, entry: MIRBlock, older path: seq<MIRBlock>, b: MIRBlock) {
    IsPath(g, entry, path) && path[|path| - 1] == b
  }

  ghost predicate Reachable(g: Cfg, entry: MIRBlock, b: MIRBlock) {
    exists path :: IsPathTo(g, entry, path, b)
  }

  /** Every path from the entry to b contains a. */
  ghost predicate Dominates(g: Cfg, entry: MIRBlock, a: MIRBlock, b: MIRBlock) {
    forall path :: IsPathTo(g, entry, path, b) ==> a in path
  }

  // ---------------------------------------------------------------- reverse post-order

  /** The blocks of `order` are closed under successors, start with the entry, and each of
      the others has a predecessor before it. */
  ghost predicate IsReversePostOrder(g: Cfg, entry: MIRBlock, order: seq<MIRBlock>) {
    && |order| > 0
    && order[0] == entry
    && NoDuplicates(order)
    && (forall i :: 0 <= i < |order| ==> order[i] in g.succ)
    && (forall i, s :: 0 <= i < |order| && s in g.succ[order[i]] ==> s in order)
    && (forall j :: 0 < j < |order| ==> HasEarlierPred(g, order, j))
  }

  ghost predicate HasEarlierPred(g: Cfg, order: seq<MIRBlock>, j: nat)
    requires j < |order| && forall i :: 0 <= i < |order| ==> order[i] in g.succ
  {
    exists i :: 0 <= i < j && order[j] in g.succ[order[i]]
  }

  ghost function IndexOf(order: seq<MIRBlock>, b: MIRBlock): (i: nat)
    requires b in order
    ensures i < |order| && order[i] == b
  {
    var i :| 0 <= i < |order| && order[i] == b;
    i
  }

  /** The numbers of the reachable predecessors of every reachable block. */
  ghost function IndexPreds(g: Cfg, order: seq<MIRBlock>): (preds: Preds)
    requires forall i :: 0 <= i < |order| ==> order[i] in g.pred
    ensures |preds| == |order|
    ensures forall x, p: nat :: 0 <= x < |order| ==> (p in preds[x] <==> p < |order| && order[p] in g.pred[order[x]])
  {
    seq(|order|, x requires 0 <= x < |order| => set p: nat | p < |order| && order[p] in g.pred[order[x]])
  }

  lemma OrderIsNumbered(g: Cfg, entry: MIRBlock, order: seq<MIRBlock>)
    requires g.WellWired() && IsReversePostOrder(g, entry, order)
    ensures Numbered(IndexPreds(g, order))
  {
    var preds := IndexPreds(g, order);
    forall x | 0 < x < |preds| ensures HasLowPred(preds, x) {
      assert HasEarlierPred(g, order, x);
      var p :| 0 <= p < x && order[x] in g.succ[order[p]];
      assert p in preds[x];
    }
  }

  lemma {:induction false} PathsStayInOrder(g: Cfg, entry: MIRBlock, order: seq<MIRBlock>, path: seq<MIRBlock>, k: nat)
    requires IsReversePostOrder(g, entry, order) && IsPath(g, entry, path) && k < |path|
    ensures path[k] in order
  {
    if k > 0 {
      PathsStayInOrder(g, entry, order, path, k - 1);
      assert path[k - 1 + 1] in g.succ[path[k - 1]];
    }
  }

  /** A path of blocks, numbered, is a path of numbers. */
  lemma ToNumbers(g: Cfg, entry: MIRBlock, order: seq<MIRBlock>, path: seq<MIRBlock>) returns (numbers: seq<nat>)
    requires g.WellWired() && IsReversePostOrder(g, entry, order) && IsPath(g, entry, path)
    ensures Path(IndexPreds(g, order), numbers) && |numbers| == |path|
    ensures forall k :: 0 <= k < |path| ==> order[numbers[k]] == path[k]
  {
    forall k | 0 <= k < |path| ensures path[k] in order {
      PathsStayInOrder(g, entry, order, path, k);
    }
    numbers := seq(|path|, k requires 0 <= k < |path| => IndexOf(order, path[k]));
  }

  /** A path of numbers, read as blocks, is a path of blocks. */
  lemma ToBlocks(g: Cfg, entry: MIRBlock, order: seq<MIRBlock>, numbers: seq<nat>) returns (path: seq<MIRBlock>)
    requires g.WellWired() && IsReversePostOrder(g, entry, order) && Path(IndexPreds(g, order), numbers)
    ensures IsPath(g, entry, path) && |path| == |numbers|
    ensures forall k :: 0 <= k < |path| ==> order[numbers[k]] == path[k]
  {
    path := seq(|numbers|, k requires 0 <= k < |numbers| => order[numbers[k]]);
    forall k | 0 <= k < |path| - 1 ensures path[k + 1] in g.succ[path[k]] {
      assert numbers[k] in IndexPreds(g, order)[numbers[k + 1]];
    }
  }

  /** A reverse post-order lists exactly the reachable blocks. */
  lemma OrderIsReachable(g: Cfg, entry: MIRBlock, order: seq<MIRBlock>, b: MIRBlock)
    requires g.WellWired() && IsReversePostOrder(g, entry, order)
    ensures b in order <==> Reachable(g, entry, b)
  {
    if b in order {
      OrderIsNumbered(g, entry, order);
      var numbers := LowPath(IndexPreds(g, order), IndexOf(order, b));
      var path := ToBlocks(g, entry, order, numbers);
      assert IsPathTo(g, entry, path, b);
    }
    if Reachable(g, entry, b) {
      var path :| IsPathTo(g, entry, path, b);
      PathsStayInOrder(g, entry, order, path, |path| - 1);
    }
  }

  /** Dominance between numbers is dominance between blocks. */
  lemma NumbersKeepDominance(g: Cfg, entry: MIRBlock, order: seq<MIRBlock>, x: nat, y: nat)
    requires g.WellWired() && IsReversePostOrder(g, entry, order) && x < |order| && y < |order|
    ensures Dom(IndexPreds(g, order), x, y) <==> Dominates(g, entry, order[x], order[y])
  {
    var preds := IndexPreds(g, order);
    if Dom(preds, x, y) {
      forall path | IsPathTo(g, entry, path, order[y]) ensures order[x] in path {
        var numbers := ToNumbers(g, entry, order, path);
        assert PathTo(preds, numbers, y);
        var k :| 0 <= k < |numbers| && numbers[k] == x;
        assert path[k] == order[x];
      }
    }
    if Dominates(g, entry, order[x], order[y]) {
      forall numbers | PathTo(preds, numbers, y) ensures x in numbers {
        var path := ToBlocks(g, entry, order, numbers);
        assert IsPathTo(g, entry, path, order[y]);
        var k :| 0 <= k < |path| && path[k] == order[x];
        assert order[numbers[k]] == order[x];
      }
    }
  }

  /** A dominator of a reachable block is reachable and not later in reverse post-order. */
  lemma DominatorIsEarlier(g: Cfg, entry: MIRBlock, order: seq<MIRBlock>, a: MIRBlock, y: nat) returns (x: nat)
    requires g.WellWired() && IsReversePostOrder(g, entry, order) && y < |order|
    requires Dominates(g, entry, a, order[y])
    ensures x <= y && order[x] == a
  {
    OrderIsNumbered(g, entry, order);
    var numbers := LowPath(IndexPreds(g, order), y);
    var path := ToBlocks(g, entry, order, numbers);
    assert IsPathTo(g, entry, path, order[y]);
    var k :| 0 <= k < |path| && path[k] == a;
    x := numbers[k];
    assert x in numbers;
  }
}
