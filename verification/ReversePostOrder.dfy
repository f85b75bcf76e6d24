/** The recursive post-order walk of MIRDominance. */
module ReversePostOrder {
  import opened Mir
  import opened FlowGraph

  ghost function Elems(s: seq<MIRBlock>): set<MIRBlock> {
    set b | b in s
  }

  /** rpo[k] is the block `root` or has a predecessor pushed after it. */
  ghost predicate HasLaterPred(g: Cfg, rpo: seq<MIRBlock>, k: nat)
    requires k < |rpo| && forall b :: b in rpo ==> b in g.succ
  {
    exists j :: k < j < |rpo| && rpo[k] in g.succ[rpo[j]]
  }

  ghost predicate Closed(g: Cfg) {
    forall b, s :: b in g.succ && s in g.succ[b] ==> s in g.succ
  }

  /** What has been visited and what has been pushed by the walks that are finished. */
  ghost predicate Walked(g: Cfg, rpo: seq<MIRBlock>, visited: set<MIRBlock>) {
    && visited <= g.succ.Keys
    && Elems(rpo) <= visited
    && NoDuplicates(rpo)
    && (forall b, s :: b in rpo && s in g.succ[b] ==> s in visited)
  }

  /** How a walk extends what was there: exactly the newly visited blocks are pushed, and each
      of them except those in `roots` has a predecessor pushed after it. */
  ghost predicate Extends(g: Cfg, rpo: seq<MIRBlock>, visited: set<MIRBlock>,
                          rpo': seq<MIRBlock>, visited': set<MIRBlock>, roots: set<MIRBlock>)
    requires Walked(g, rpo', visited')
  {
    && rpo <= rpo'
    && visited !! Elems(rpo'[|rpo|..])
    && visited' == visited + Elems(rpo'[|rpo|..])
    && (forall k :: |rpo| <= k < |rpo'| && rpo'[k] !in roots ==> HasLaterPred(g, rpo', k))
  }

  lemma ExtendsTwice(g: Cfg, rpo: seq<MIRBlock>, visited: set<MIRBlock>, rpo': seq<MIRBlock>, visited': set<MIRBlock>,
                     rpo'': seq<MIRBlock>, visited'': set<MIRBlock>, roots: set<MIRBlock>, s: MIRBlock)
    requires Walked(g, rpo', visited') && Walked(g, rpo'', visited'')
    requires Extends(g, rpo, visited, rpo', visited', roots)
    requires Extends(g, rpo', visited', rpo'', visited'', {s})
    ensures Extends(g, rpo, visited, rpo'', visited'', roots + {s})
  {
    assert rpo''[|rpo|..] == rpo'[|rpo|..] + rpo''[|rpo'|..];
    forall k | |rpo| <= k < |rpo''| && rpo''[k] !in roots + {s} ensures HasLaterPred(g, rpo'', k) {
      if k < |rpo'| {
        assert rpo'[k] == rpo''[k];
        assert HasLaterPred(g, rpo', k);
        var j :| k < j < |rpo'| && rpo'[k] in g.succ[rpo'[j]];
        assert rpo'[j] == rpo''[j];
      }
    }
  }

  /** Pushing the root gives every child pushed so far a predecessor pushed after it. */
  lemma PushRoot(g: Cfg, rpo: seq<MIRBlock>, visited: set<MIRBlock>, rpo': seq<MIRBlock>, visited': set<MIRBlock>,
                 root: MIRBlock)
    requires root in g.succ && root !in visited && root !in rpo
    requires Walked(g, rpo', visited') && forall s :: s in g.succ[root] ==> s in visited'
    requires Extends(g, rpo, visited + {root}, rpo', visited', Elems(g.succ[root]))
    ensures Walked(g, rpo' + [root], visited')
    ensures Extends(g, rpo, visited, rpo' + [root], visited', {root})
  {
    var pushed := rpo' + [root];
    assert pushed[|rpo|..] == rpo'[|rpo|..] + [root];
    assert rpo' == rpo + rpo'[|rpo|..];
    assert root !in rpo';
    forall k | |rpo| <= k < |pushed| && pushed[k] !in {root} ensures HasLaterPred(g, pushed, k) {
      if rpo'[k] in Elems(g.succ[root]) {
        assert pushed[k] in g.succ[pushed[|rpo'|]];
      } else {
        assert HasLaterPred(g, rpo', k);
        var j :| k < j < |rpo'| && rpo'[k] in g.succ[rpo'[j]];
        assert pushed[j] == rpo'[j];
      }
    }
  }

  method ComputeRPO(entry: MIRBlock, rpo: seq<MIRBlock>, visited: set<MIRBlock>, ghost blocks: set<MIRBlock>)
    returns (rpo': seq<MIRBlock>, visited': set<MIRBlock>)
    requires Closed(CfgOf(blocks)) && entry in blocks && Walked(CfgOf(blocks), rpo, visited)
    ensures entry in visited' && Walked(CfgOf(blocks), rpo', visited')
    ensures entry in visited ==> rpo' == rpo && visited' == visited
    ensures entry !in visited ==> |rpo'| > 0 && rpo'[|rpo'| - 1] == entry
    ensures Extends(CfgOf(blocks), rpo, visited, rpo', visited', {entry})
    decreases blocks - visited
  {
    hide NoDuplicates, HasLaterPred;
    rpo', visited' := rpo, visited;
    if entry in visited {
      return;
    }
    ghost var g := CfgOf(blocks);
    visited' := visited' + {entry};
    var k := 0;
    while k < |entry.successors|
      invariant k <= |entry.successors|
      invariant entry in visited' && visited <= visited' && Walked(g, rpo', visited')
      invariant forall s :: s in entry.successors[..k] ==> s in visited'
      invariant Extends(g, rpo, visited + {entry}, rpo', visited', Elems(entry.successors[..k]))
    {
      var s := entry.successors[k];
      assert s in g.succ[entry];
      ghost var before, seen := rpo', visited';
      assert s in g.succ;
      rpo', visited' := ComputeRPO(s, rpo', visited', blocks);
      ExtendsTwice(g, rpo, visited + {entry}, before, seen, rpo', visited', Elems(entry.successors[..k]), s);
      assert Elems(entry.successors[..k + 1]) == Elems(entry.successors[..k]) + {s};
      k := k + 1;
    }
    assert entry.successors[..k] == g.succ[entry];
    PushRoot(g, rpo, visited, rpo', visited', entry);
    rpo' := rpo' + [entry];
  }

  ghost function Reverse(s: seq<MIRBlock>): (r: seq<MIRBlock>)
    ensures |r| == |s| && forall i :: 0 <= i < |s| ==> r[i] == s[|s| - 1 - i]
  {
    seq(|s|, i requires 0 <= i < |s| => s[|s| - 1 - i])
  }

  lemma NothingWalked(g: Cfg)
    requires g.WellWired()
    ensures Closed(g) && Walked(g, [], {})
  {
  }

  /** A complete walk, read backwards, is a reverse post-order. */
  lemma WalkIsReversePostOrder(g: Cfg, entry: MIRBlock, rpo: seq<MIRBlock>, visited: set<MIRBlock>)
    requires Walked(g, rpo, visited) && Extends(g, [], {}, rpo, visited, {entry})
    requires |rpo| > 0 && rpo[|rpo| - 1] == entry
    ensures IsReversePostOrder(g, entry, Reverse(rpo)) && NoDuplicates(rpo)
  {
    var order := Reverse(rpo);
    assert rpo[0..] == rpo;
    forall i, s | 0 <= i < |order| && s in g.succ[order[i]] ensures s in order {
      assert order[i] in rpo;
      assert s in Elems(rpo);
      var k :| 0 <= k < |rpo| && rpo[k] == s;
      assert order[|rpo| - 1 - k] == s;
    }
    forall j | 0 < j < |order| ensures HasEarlierPred(g, order, j) {
      var k := |rpo| - 1 - j;
      assert rpo[k] != entry;
      assert HasLaterPred(g, rpo, k);
      var l :| k < l < |rpo| && rpo[k] in g.succ[rpo[l]];
      assert order[|rpo| - 1 - l] == rpo[l];
    }
  }
}
