/** Dominance analysis: immediate dominators by iteration, interval numbers for queries. */
module Dominance {
  import opened Mir
  import opened DominatorTree
  import opened FlowGraph
  import opened ReversePostOrder
  import opened DominatorMaps

  class MIRDominance {
    const func: MIRFunction
    var depths: map<MIRBlock, int>
    var idoms: map<MIRBlock, MIRBlock>
    var domTree: map<MIRBlock, seq<MIRBlock>>
    var dfsNumbers: map<MIRBlock, (int, int)>

    // The numbering and the tree that the last analysis used.
    ghost var order: seq<MIRBlock>
    ghost var number: map<MIRBlock, nat>
    ghost var par: seq<nat>
    ghost var num: map<nat, (int, int)>

    constructor (func: MIRFunction)
      ensures this.func == func
      ensures depths == map[] && idoms == map[] && domTree == map[] && dfsNumbers == map[]
    {
      this.func := func;
      depths, idoms, domTree, dfsNumbers := map[], map[], map[], map[];
      order, number, par, num := [], map[], [], map[];
    }

    method Intersect(first: MIRBlock, second: MIRBlock, rpoIndex: map<MIRBlock, nat>, ghost order: seq<MIRBlock>,
                     ghost par: seq<nat>, ghost a: nat, ghost b: nat)
      returns (r: MIRBlock)
      requires Tracks(order, rpoIndex, par, idoms)
      requires a < |par| && b < |par| && order[a] == first && order[b] == second
      ensures r == order[Nca(par, a, b)]
    {
      var b1, b2 := first, second;
      ghost var x: nat, y: nat := a, b;
      while b1 != b2
        invariant x < |par| && y < |par| && order[x] == b1 && order[y] == b2
        invariant Nca(par, x, y) == Nca(par, a, b)
        decreases x + y
      {
        ghost var x0, y0 := x, y;
        while rpoIndex[b1] > rpoIndex[b2]
          invariant x <= x0 && order[x] == b1
          invariant Nca(par, x, y) == Nca(par, a, b)
          decreases x
        {
          b1, x := idoms[b1], par[x];
        }
        while rpoIndex[b2] > rpoIndex[b1]
          invariant y <= y0 && order[y] == b2
          invariant Nca(par, x, y) == Nca(par, a, b)
          decreases y
        {
          b2, y := idoms[b2], par[y];
        }
      }
      r := b1;
    }

    /** The first predecessor that has an entry in the map. */
    method FirstProcessedPred(block: MIRBlock) returns (pred: MIRBlock?)
      ensures pred == null ==> forall b :: b in block.predecessors ==> b !in idoms
      ensures pred != null ==> pred in block.predecessors && pred in idoms
    {
      var k := 0;
      while k < |block.predecessors|
        invariant k <= |block.predecessors|
        invariant forall b :: b in block.predecessors[..k] ==> b !in idoms
      {
        if block.predecessors[k] in idoms {
          return block.predecessors[k];
        }
        k := k + 1;
      }
      return null;
    }

    /** Folds the processed predecessors of a block in the current tree. */
    method MeetPreds(block: MIRBlock, first: MIRBlock, rpoIndex: map<MIRBlock, nat>, ghost order: seq<MIRBlock>,
                     ghost par: seq<nat>)
      returns (newIDom: MIRBlock, ghost v: nat, ghost ps: seq<nat>)
      requires Tracks(order, rpoIndex, par, idoms)
      requires first in block.predecessors && first in idoms
      ensures v in ps && v < |par|
      ensures forall j :: 0 <= j < |ps| ==> ps[j] < |par| && order[ps[j]] in block.predecessors
      ensures forall b :: b in block.predecessors && b in idoms ==> rpoIndex[b] in ps
      ensures newIDom == order[MeetList(par, v, ps)]
    {
      newIDom := first;
      v, ps := rpoIndex[first], [];
      ghost var r := v;
      var k := 0;
      while k < |block.predecessors|
        invariant k <= |block.predecessors|
        invariant forall j :: 0 <= j < |ps| ==> ps[j] < |par| && order[ps[j]] in block.predecessors
        invariant forall b :: b in block.predecessors[..k] && b in idoms ==> rpoIndex[b] in ps
        invariant r == MeetList(par, v, ps) && newIDom == order[r]
      {
        var pred := block.predecessors[k];
        if pred in idoms {
          ghost var p := rpoIndex[pred];
          if pred != newIDom {
            newIDom := Intersect(pred, newIDom, rpoIndex, order, par, p, r);
          }
          assert (ps + [p])[..|ps|] == ps;
          ps, r := ps + [p], Nca(par, p, r);
        }
        k := k + 1;
      }
      assert block.predecessors[..k] == block.predecessors;
    }

    /** The body of the pass for block number i: afterwards the map holds the tree in which
        that block has the meet of its predecessors as its parent. */
    method ProcessBlock(block: MIRBlock, rpoIndex: map<MIRBlock, nat>,
                        ghost order: seq<MIRBlock>, ghost preds: Preds, ghost par: seq<nat>, ghost i: nat)
      returns (changed: bool, ghost par': seq<nat>)
      requires Tracks(order, rpoIndex, par, idoms)
      requires PassInv(preds, par, i) && i < |preds| == |order| && order[i] == block
      requires Lists(order, preds[i], block.predecessors)
      modifies this`idoms
      ensures Tracks(order, rpoIndex, par', idoms) && PassInv(preds, par', i + 1)
      ensures !changed ==> par' == par && i < |par| && Below(preds, par, i, par[i])
      ensures changed ==> Measure(par', |preds|) < Measure(par, |preds|)
    {
      changed, par' := false, par;
      var newIDom := FirstProcessedPred(block);
      SomePredIsProcessed(order, rpoIndex, par, idoms, preds, i, block.predecessors);
      if newIDom != null {
        ghost var v, ps;
        newIDom, v, ps := MeetPreds(block, newIDom, rpoIndex, order, par);
        BlockReceivesMeet(order, rpoIndex, par, idoms, preds, i, block.predecessors, v, ps);
        if block !in idoms || idoms[block] != newIDom {
          idoms, par' := idoms[block := newIDom], Assign(par, i, MeetList(par, v, ps));
          changed := true;
        }
      }
    }

    /** Block number i of a pass; the entry is skipped. */
    method VisitBlock(block: MIRBlock, entry: MIRBlock, rpoIndex: map<MIRBlock, nat>,
                      ghost order: seq<MIRBlock>, ghost preds: Preds, ghost par: seq<nat>, ghost i: nat)
      returns (changed: bool, ghost par': seq<nat>)
      requires Tracks(order, rpoIndex, par, idoms)
      requires |preds| == |order| && forall x :: 0 <= x < |order| ==> Lists(order, preds[x], order[x].predecessors)
      requires i < |order| && order[i] == block && order[0] == entry
      requires PassInv(preds, par, Next(i))
      modifies this`idoms
      ensures Tracks(order, rpoIndex, par', idoms) && PassInv(preds, par', Next(i + 1))
      ensures !changed ==> par' == par && (BelowUpTo(preds, par, i) ==> BelowUpTo(preds, par, i + 1))
      ensures changed ==> Measure(par', |preds|) < Measure(par, |preds|)
    {
      changed, par' := false, par;
      OnlyEntryIsFirst(order, rpoIndex, i);
      if block != entry {
        changed, par' := ProcessBlock(block, rpoIndex, order, preds, par, i);
      }
    }

    /** One pass over the blocks other than the entry. A pass that changes nothing has found
        the fixpoint; one that changes something lowers the measure. */
    method RunPass(rpoStack: seq<MIRBlock>, entry: MIRBlock, rpoIndex: map<MIRBlock, nat>,
                   ghost order: seq<MIRBlock>, ghost preds: Preds, ghost par: seq<nat>)
      returns (changed: bool, ghost par': seq<nat>)
      requires Tracks(order, rpoIndex, par, idoms)
      requires order == Reverse(rpoStack) && |order| > 0 && order[0] == entry
      requires |preds| == |order| && forall x :: 0 <= x < |order| ==> Lists(order, preds[x], order[x].predecessors)
      requires PassInv(preds, par, 1)
      modifies this`idoms
      ensures Tracks(order, rpoIndex, par', idoms) && PassInv(preds, par', |preds|)
      ensures !changed ==> par' == par && Fixpoint(preds, par)
      ensures changed ==> Measure(par', |preds|) < Measure(par, |preds|)
    {
      hide Lists, Measure, Fixpoint;
      changed, par' := false, par;
      var i := 0;
      while i < |rpoStack|
        invariant i <= |rpoStack|
        invariant Tracks(order, rpoIndex, par', idoms) && PassInv(preds, par', Next(i))
        invariant !changed ==> par' == par && BelowUpTo(preds, par, i)
        invariant changed ==> Measure(par', |preds|) < Measure(par, |preds|)
      {
        var updated;
        updated, par' := VisitBlock(rpoStack[|rpoStack| - 1 - i], entry, rpoIndex, order, preds, par', i);
        changed := changed || updated;
        i := i + 1;
      }
      if !changed {
        NothingMoved(preds, par);
      }
    }

    /** The loop that repeats passes until nothing changes. */
    method IterateToFixpoint(rpoStack: seq<MIRBlock>, entry: MIRBlock, rpoIndex: map<MIRBlock, nat>,
                             ghost order: seq<MIRBlock>, ghost preds: Preds)
      returns (ghost par: seq<nat>)
      requires Indexed(order, rpoIndex)
      requires order == Reverse(rpoStack) && |order| > 0 && order[0] == entry
      requires |preds| == |order| && forall x :: 0 <= x < |order| ==> Lists(order, preds[x], order[x].predecessors)
      requires Numbered(preds)
      modifies this`idoms
      ensures Tracks(order, rpoIndex, par, idoms) && Fixpoint(preds, par) && |par| == |order|
    {
      idoms, par := map[entry := entry], [0];
      var changed := true;
      while changed
        invariant Tracks(order, rpoIndex, par, idoms)
        invariant PassInv(preds, par, 1)
        invariant !changed ==> Fixpoint(preds, par)
        decreases Measure(par, |preds|), changed
      {
        changed, par := RunPass(rpoStack, entry, rpoIndex, order, preds, par);
        NextPass(preds, par);
      }
    }

    method ComputeDFS(root: MIRBlock, counter: int, visited: set<MIRBlock>,
                      ghost order: seq<MIRBlock>, ghost number: map<MIRBlock, nat>, ghost par: seq<nat>,
                      ghost num: map<nat, (int, int)>)
      returns (counter': int, visited': set<MIRBlock>, ghost num': map<nat, (int, int)>)
      requires IsTree(par) && ListsChildren(order, number, par, domTree) && root in number
      requires NumbersAre(order, number, dfsNumbers, num)
      requires root !in visited ==> Unvisited(order, Descendants(par, number[root]), visited)
      modifies this`domTree, this`dfsNumbers
      ensures ListsChildren(order, number, par, domTree)
      ensures forall b :: b in old(domTree) ==> b in domTree && domTree[b] == old(domTree)[b]
      ensures NumbersAre(order, number, dfsNumbers, num')
      ensures root in visited ==> counter' == counter && visited' == visited && num' == num
      ensures root !in visited ==>
        Intervals(order, par, Descendants(par, number[root]), num, num', visited, visited', counter, counter')
      decreases |par| - (if root in number then number[root] else 0)
    {
      hide *;
      counter', visited', num' := counter, visited, num;
      if root in visited {
        return;
      }
      ghost var x := number[root];
      visited' := visited' + {root};
      counter' := counter' + 1;
      var start := counter';
      if root !in domTree {
        EmptyListIsFine(order, number, par, domTree, root);
        domTree := domTree[root := []];
      }
      var children := domTree[root];
      WholeSubtree(order, number, par, domTree, root);
      ChildrenOfListed(order, number, par, domTree, root);
      ghost var cs := NumbersOf(number, children);
      IntervalsNothing(order, par, cs, num, visited', start);
      var k := 0;
      while k < |children|
        invariant k <= |children|
        invariant ListsChildren(order, number, par, domTree) && root in domTree && domTree[root] == children
        invariant forall b :: b in old(domTree) ==> b in domTree && domTree[b] == old(domTree)[b]
        invariant NumbersAre(order, number, dfsNumbers, num')
        invariant Intervals(order, par, DescendantsOf(par, cs[..k]), num, num', visited + {root}, visited', start,
          counter')
      {
        ghost var num1, visited1, mid := num', visited', counter';
        NextChildIsUnvisited(order, number, par, x, cs, k, num, num', visited, visited', start, counter');
        counter', visited', num' := ComputeDFS(children[k], counter', visited', order, number, par, num');
        IntervalsOneMore(order, par, x, cs, k, num, num1, num', visited + {root}, visited1, visited', start, mid,
          counter');
        k := k + 1;
      }
      assert cs[..k] == cs;
      IntervalsRoot(order, number, par, x, DescendantsOf(par, cs), num, num', visited, visited', counter, counter');
      NumbersAreUpdated(order, number, dfsNumbers, num', root, (start, counter'));
      dfsNumbers := dfsNumbers[root := (start, counter')];
      num' := num'[x := (start, counter')];
    }

    /** The tree is read off the map, in whatever order the map is walked. */
    method BuildDomTree(ghost order: seq<MIRBlock>, ghost number: map<MIRBlock, nat>, ghost par: seq<nat>)
      requires Tracks(order, number, par, idoms) && |par| == |order| && domTree == map[]
      modifies this`domTree
      ensures IsTree(par) && ListsChildren(order, number, par, domTree)
    {
      var rest := idoms.Keys;
      NothingListed(order, number, par, idoms);
      while rest != {}
        invariant rest <= idoms.Keys
        invariant PartlyListed(order, number, par, domTree, rest)
      {
        var block :| block in rest;
        ghost var y := number[block];
        TrackedEntry(order, number, par, idoms, block);
        if block != idoms[block] {
          ListOneMore(order, number, par, domTree, rest, y);
          domTree := domTree[idoms[block] := ListAt(domTree, idoms[block]) + [block]];
        } else {
          SkipEntry(order, number, par, domTree, rest);
        }
        rest := rest - {block};
      }
      AllListed(order, number, par, domTree);
    }

    /** The length of the chain from a block to the entry; 0 for a block without an entry. */
    method DepthOf(block: MIRBlock, entry: MIRBlock,
                   ghost order: seq<MIRBlock>, ghost number: map<MIRBlock, nat>, ghost par: seq<nat>)
      returns (d: int)
      requires Tracks(order, number, par, idoms) && |order| > 0 && order[0] == entry
      ensures block !in idoms ==> d == 0
      ensures block in idoms ==> d == Depth(par, number[block])
    {
      var curr := block;
      d := 0;
      while curr != entry
        invariant block in idoms ==> curr in idoms && d + Depth(par, number[curr]) == Depth(par, number[block])
        invariant block !in idoms ==> curr == block && d == 0
        decreases if curr in number then number[curr] else 0
      {
        if curr !in idoms || idoms[curr] == curr {
          break;
        }
        TrackedEntry(order, number, par, idoms, curr);
        curr, d := idoms[curr], d + 1;
      }
      if block in idoms {
        TrackedEntry(order, number, par, idoms, curr);
      }
    }

    /** The maps of this object describe the graph g. */
    ghost predicate Analyzed(g: Cfg, entry: MIRBlock)
      reads this, func
    {
      && g.WellWired() && IsReversePostOrder(g, entry, order) && |par| == |order|
      && Tracks(order, number, par, idoms) && Fixpoint(IndexPreds(g, order), par)
      && ListsChildren(order, number, par, domTree)
      && NumbersAre(order, number, dfsNumbers, num) && MirrorsTree(par, num)
      && DepthsAre(func.blocks, number, par, depths)
    }

    lemma ResultsAreAnalyzed(g: Cfg, entry: MIRBlock)
      requires g.WellWired() && IsReversePostOrder(g, entry, order) && |par| == |order|
      requires Tracks(order, number, par, idoms) && Fixpoint(IndexPreds(g, order), par)
      requires ListsChildren(order, number, par, domTree)
      requires NumbersAre(order, number, dfsNumbers, num) && MirrorsTree(par, num)
      requires DepthsAre(func.blocks, number, par, depths)
      ensures Analyzed(g, entry)
    {
    }

    method NumberBlocks(rpoStack: seq<MIRBlock>) returns (rpoIndex: map<MIRBlock, nat>)
      requires NoDuplicates(rpoStack)
      ensures Indexed(Reverse(rpoStack), rpoIndex)
    {
      ghost var order := Reverse(rpoStack);
      rpoIndex := map[];
      var idx := 0;
      while idx < |rpoStack|
        invariant idx <= |rpoStack|
        invariant forall x :: 0 <= x < idx ==> order[x] in rpoIndex && rpoIndex[order[x]] == x
        invariant forall b :: b in rpoIndex ==> rpoIndex[b] < idx && order[rpoIndex[b]] == b
      {
        rpoIndex := rpoIndex[rpoStack[|rpoStack| - 1 - idx] := idx];
        idx := idx + 1;
      }
    }

    method OrderBlocks(entry: MIRBlock, ghost blocks: set<MIRBlock>)
      returns (rpoStack: seq<MIRBlock>, rpoIndex: map<MIRBlock, nat>)
      requires CfgOf(blocks).WellWired() && entry in blocks
      ensures IsReversePostOrder(CfgOf(blocks), entry, Reverse(rpoStack)) && Indexed(Reverse(rpoStack), rpoIndex)
      ensures entry in rpoIndex && rpoIndex[entry] == 0
    {
      hide *;
      ghost var g := CfgOf(blocks);
      NothingWalked(g);
      var visited;
      rpoStack, visited := ComputeRPO(entry, [], {}, blocks);
      WalkIsReversePostOrder(g, entry, rpoStack, visited);
      rpoIndex := NumberBlocks(rpoStack);
      EntryIsFirst(g, entry, Reverse(rpoStack), rpoIndex);
    }

    method ComputeDepths(entry: MIRBlock, ghost order: seq<MIRBlock>, ghost number: map<MIRBlock, nat>,
                         ghost par: seq<nat>)
      requires Tracks(order, number, par, idoms) && |par| == |order| && |order| > 0 && order[0] == entry
      requires depths == map[]
      modifies this`depths
      ensures DepthsAre(func.blocks, number, par, depths)
    {
      var k := 0;
      while k < |func.blocks|
        invariant k <= |func.blocks|
        invariant DepthsAre(func.blocks[..k], number, par, depths)
      {
        var block := func.blocks[k];
        var d := DepthOf(block, entry, order, number, par);
        assert block in idoms <==> block in number by {
          if block in number {
            assert par[number[block]] < |par|;
          }
        }
        depths := depths[block := d];
        k := k + 1;
      }
      assert func.blocks[..k] == func.blocks;
    }

    /** Order, numbering and the immediate dominators. */
    method ComputeIdoms(entry: MIRBlock, ghost blocks: set<MIRBlock>, ghost g: Cfg)
      returns (ghost order: seq<MIRBlock>, ghost number: map<MIRBlock, nat>, ghost par: seq<nat>)
      requires g == CfgOf(blocks) && g.WellWired() && entry in blocks
      modifies this`idoms
      ensures IsReversePostOrder(g, entry, order) && |par| == |order| > 0 && order[0] == entry
      ensures entry in number && number[entry] == 0
      ensures Tracks(order, number, par, idoms) && Fixpoint(IndexPreds(g, order), par)
    {
      hide *;
      var rpoStack, rpoIndex := OrderBlocks(entry, blocks);
      order, number := Reverse(rpoStack), rpoIndex;
      ghost var preds := PredNumbers(blocks, entry, order);
      par := IterateToFixpoint(rpoStack, entry, rpoIndex, order, preds);
    }

    /** Depths, child lists and intervals of the finished tree. */
    method NumberTree(entry: MIRBlock, ghost order: seq<MIRBlock>, ghost number: map<MIRBlock, nat>,
                      ghost par: seq<nat>)
      returns (ghost num: map<nat, (int, int)>)
      requires Tracks(order, number, par, idoms) && |par| == |order| > 0 && order[0] == entry
      requires entry in number && number[entry] == 0
      requires depths == map[] && domTree == map[] && dfsNumbers == map[]
      modifies this`depths, this`domTree, this`dfsNumbers
      ensures IsTree(par) && ListsChildren(order, number, par, domTree)
      ensures NumbersAre(order, number, dfsNumbers, num) && MirrorsTree(par, num)
      ensures DepthsAre(func.blocks, number, par, depths)
    {
      hide *;
      ComputeDepths(entry, order, number, par);
      BuildDomTree(order, number, par);
      NothingNumbered(order, number, par);
      var counter, visited;
      counter, visited, num := ComputeDFS(entry, 0, {}, order, number, par, map[]);
      IntervalsMirrorTree(order, par, num, {}, visited, 0, counter);
    }

    /** The analysis of a function that has an entry block. */
    method AnalyzeFrom(entry: MIRBlock, ghost blocks: set<MIRBlock>, ghost g: Cfg)
      requires g == CfgOf(blocks) && g.WellWired() && entry in blocks
      modifies this
      ensures Analyzed(g, entry)
    {
      hide *;
      idoms, domTree, dfsNumbers, depths := map[], map[], map[], map[];
      order, number, par := ComputeIdoms(entry, blocks, g);
      num := NumberTree(entry, order, number, par);
      ResultsAreAnalyzed(g, entry);
    }

    method Analyze()
      requires CfgOf(func.BlockSet()).WellWired()
      modifies this
      ensures func.blocks == [] ==>
        depths == old(depths) && idoms == old(idoms) && domTree == old(domTree) && dfsNumbers == old(dfsNumbers)
      ensures func.blocks != [] ==> Analyzed(CfgOf(func.BlockSet()), func.blocks[0])
    {
      hide Analyzed;
      if func.blocks == [] {
        return;
      }
      AnalyzeFrom(func.blocks[0], func.BlockSet(), CfgOf(func.BlockSet()));
    }

    // ---------------------------------------------------------------- queries

    predicate Dominates(a: MIRBlock?, b: MIRBlock?)
      reads this
    {
      a == b || (a != null && b != null && a in dfsNumbers && b in dfsNumbers && Contains(dfsNumbers[a], dfsNumbers[b]))
    }

    function GetIDom(b: MIRBlock): MIRBlock?
      reads this
    {
      if b in idoms then idoms[b] else null
    }

    function GetChildren(b: MIRBlock): seq<MIRBlock>
      reads this
    {
      ListAt(domTree, b)
    }

    /** An operand that is an instruction is defined in a block that dominates b. */
    predicate ValueFits(v: Value, b: MIRBlock?)
      reads this, if v.InstValue? then {v.inst} else {}
    {
      v.InstValue? ==> Dominates(v.inst.parent, b)
    }

    ghost predicate InstFits(inst: MIRInst, useBlock: MIRBlock)
      reads *
    {
      if inst.kind.Phi? then
        forall k :: 0 <= k < |inst.kind.incoming| ==> ValueFits(inst.kind.incoming[k].0, inst.kind.incoming[k].1)
      else
        forall k :: 0 <= k < |GetOperands(inst.kind)| ==> ValueFits(GetOperands(inst.kind)[k], useBlock)
    }

    ghost predicate BlockFits(b: MIRBlock)
      reads *
    {
      forall j :: 0 <= j < |b.instructions| ==> InstFits(b.instructions[j], b)
    }

    method VerifySSA() returns (ok: bool)
      ensures ok <==> forall i :: 0 <= i < |func.blocks| ==> BlockFits(func.blocks[i])
    {
      for i := 0 to |func.blocks|
        invariant forall k :: 0 <= k < i ==> BlockFits(func.blocks[k])
      {
        var useBlock := func.blocks[i];
        for j := 0 to |useBlock.instructions|
          invariant forall k :: 0 <= k < j ==> InstFits(useBlock.instructions[k], useBlock)
        {
          var inst := useBlock.instructions[j];
          if inst.kind.Phi? {
            for k := 0 to |inst.kind.incoming|
              invariant forall l :: 0 <= l < k ==> ValueFits(inst.kind.incoming[l].0, inst.kind.incoming[l].1)
            {
              if !ValueFits(inst.kind.incoming[k].0, inst.kind.incoming[k].1) {
                assert !InstFits(inst, useBlock);
                assert !BlockFits(useBlock);
                return false;
              }
            }
            continue;
          }
          var operands := GetOperands(inst.kind);
          for k := 0 to |operands|
            invariant forall l :: 0 <= l < k ==> ValueFits(operands[l], useBlock)
          {
            if !ValueFits(operands[k], useBlock) {
              assert !InstFits(inst, useBlock);
              assert !BlockFits(useBlock);
              return false;
            }
          }
        }
        assert BlockFits(useBlock);
      }
      return true;
    }
  }
}
