/** How the maps of MIRDominance, keyed by blocks, represent the trees and intervals of
    module DominatorTree, keyed by block numbers. */
module DominatorMaps {
  import opened Mir
  import opened DominatorTree
  import opened FlowGraph
  import opened ReversePostOrder

  // ---------------------------------------------------------------- the map of immediate dominators

  /** `number` gives every block of `order` its place, and knows no other block. */
  ghost predicate Indexed(order: seq<MIRBlock>, number: map<MIRBlock, nat>) {
    && (forall x :: 0 <= x < |order| ==> order[x] in number && number[order[x]] == x)
    && (forall b :: b in number ==> number[b] < |order| && order[number[b]] == b)
  }

  lemma OnlyEntryIsFirst(order: seq<MIRBlock>, number: map<MIRBlock, nat>, i: nat)
    requires Indexed(order, number) && i < |order|
    ensures order[i] == order[0] <==> i == 0
  {
    assert number[order[i]] == i && number[order[0]] == 0;
  }

  lemma EntryIsFirst(g: Cfg, entry: MIRBlock, order: seq<MIRBlock>, number: map<MIRBlock, nat>)
    requires IsReversePostOrder(g, entry, order) && Indexed(order, number)
    ensures entry in number && number[entry] == 0
  {
  }

  /** The map `idoms` holds the tree `par`, read through the numbering. */
  ghost predicate Tracks(order: seq<MIRBlock>, number: map<MIRBlock, nat>, par: seq<nat>,
                         idoms: map<MIRBlock, MIRBlock>) {
    && Indexed(order, number) && IsTree(par) && |par| <= |order|
    && (forall b :: b in idoms ==> b in number && number[b] < |par|)
    && (forall x {:trigger par[x]} :: 0 <= x < |par| ==>
          par[x] < |par| && order[x] in idoms && idoms[order[x]] == order[par[x]])
  }

  /** An entry of the map is an edge of the tree; only the entry block points to itself. */
  lemma TrackedEntry(order: seq<MIRBlock>, number: map<MIRBlock, nat>, par: seq<nat>, idoms: map<MIRBlock, MIRBlock>,
                     b: MIRBlock)
    requires Tracks(order, number, par, idoms) && b in idoms
    ensures b in number && number[b] < |par| && order[number[b]] == b
    ensures idoms[b] == order[par[number[b]]] && idoms[b] in idoms && number[idoms[b]] == par[number[b]]
    ensures idoms[b] == b <==> number[b] == 0
  {
    var x := number[b];
    assert par[x] < |par| && par[par[x]] < |par|;
  }

  lemma TracksAssign(order: seq<MIRBlock>, number: map<MIRBlock, nat>, par: seq<nat>, idoms: map<MIRBlock, MIRBlock>,
                     i: nat, v: nat)
    requires Tracks(order, number, par, idoms) && 0 < i < |order| && i <= |par| && v < i
    ensures Tracks(order, number, Assign(par, i, v), idoms[order[i] := order[v]])
  {
    var par', idoms' := Assign(par, i, v), idoms[order[i] := order[v]];
    forall x | 0 <= x < |par'|
      ensures par'[x] < |par'| && order[x] in idoms' && idoms'[order[x]] == order[par'[x]]
    {
      if x != i {
        assert number[order[x]] != number[order[i]] && par[x] < |par|;
      }
    }
  }

  // ---------------------------------------------------------------- one step of a pass

  /** `numbers` are the numbers of the blocks of `order` that occur in `list`. */
  ghost predicate Lists(order: seq<MIRBlock>, numbers: set<nat>, list: seq<MIRBlock>) {
    forall p: nat :: p < |order| ==> (p in numbers <==> order[p] in list)
  }

  /** The pass starts at block 1: the entry has its parent already. */
  ghost function Next(i: nat): nat {
    if i == 0 then 1 else i
  }

  /** Block number i has an earlier predecessor, and that one has an entry already. */
  lemma SomePredIsProcessed(order: seq<MIRBlock>, number: map<MIRBlock, nat>, par: seq<nat>,
                            idoms: map<MIRBlock, MIRBlock>, preds: Preds, i: nat, predecessors: seq<MIRBlock>)
    requires Tracks(order, number, par, idoms) && PassInv(preds, par, i) && i < |preds| == |order|
    requires Lists(order, preds[i], predecessors)
    ensures exists b :: b in predecessors && b in idoms
  {
    assert HasLowPred(preds, i);
    var low :| low in preds[i] && low < i;
    assert par[low] < |par| && order[low] in idoms && order[low] in predecessors;
  }

  lemma BlockReceivesMeet(order: seq<MIRBlock>, number: map<MIRBlock, nat>, par: seq<nat>,
                          idoms: map<MIRBlock, MIRBlock>, preds: Preds, i: nat,
                          predecessors: seq<MIRBlock>, v: nat, ps: seq<nat>)
    requires Tracks(order, number, par, idoms) && PassInv(preds, par, i) && i < |preds| == |order|
    requires Lists(order, preds[i], predecessors)
    requires v in ps && v < |par|
    requires forall j :: 0 <= j < |ps| ==> ps[j] < |par| && order[ps[j]] in predecessors
    requires forall b :: b in predecessors && b in idoms ==> number[b] in ps
    ensures var r := MeetList(par, v, ps);
            var par', idoms' := Assign(par, i, r), idoms[order[i] := order[r]];
            && PassInv(preds, par', i + 1) && Tracks(order, number, par', idoms')
            && (order[i] in idoms && idoms[order[i]] == order[r] ==>
                 par' == par && i < |par| && Below(preds, par, i, par[i]))
            && (order[i] !in idoms || idoms[order[i]] != order[r] ==> Measure(par', |preds|) < Measure(par, |preds|))
  {
    var r := MeetList(par, v, ps);
    forall p | p in preds[i] && p < |par| ensures p in ps {
      assert par[p] < |par| && order[p] in idoms;
    }
    StepByFolding(preds, par, i, v, ps);
    TracksAssign(order, number, par, idoms, i, r);
    if i < |par| {
      assert idoms[order[i]] == order[par[i]];
      assert par[i] == r ==> par[i := r] == par;
    }
    if i == |par| || par[i] != r {
      AssignLowersSum(par, |preds|, i, r, |preds|);
    } else {
      assert order[i] in idoms;
    }
    if order[i] in idoms && idoms[order[i]] == order[r] {
      assert number[order[i]] < |par| && number[order[par[i]]] == number[order[r]];
    }
  }

  /** The predecessor numbers of all blocks, as the passes need them. */
  lemma PredNumbers(blocks: set<MIRBlock>, entry: MIRBlock, order: seq<MIRBlock>) returns (preds: Preds)
    requires CfgOf(blocks).WellWired() && IsReversePostOrder(CfgOf(blocks), entry, order)
    ensures preds == IndexPreds(CfgOf(blocks), order) && Numbered(preds) && |preds| == |order| > 0 && order[0] == entry
    ensures forall x :: 0 <= x < |order| ==> Lists(order, preds[x], order[x].predecessors)
  {
    preds := IndexPreds(CfgOf(blocks), order);
    OrderIsNumbered(CfgOf(blocks), entry, order);
  }

  // ---------------------------------------------------------------- the dominator tree as child lists

  ghost function NumbersOf(number: map<MIRBlock, nat>, list: seq<MIRBlock>): (r: seq<nat>)
    requires forall b :: b in list ==> b in number
    ensures |r| == |list| && forall j :: 0 <= j < |list| ==> r[j] == number[list[j]]
  {
    seq(|list|, j requires 0 <= j < |list| => number[list[j]])
  }

  ghost predicate ChildList(number: map<MIRBlock, nat>, par: seq<nat>, x: nat, list: seq<MIRBlock>)
    requires IsTree(par)
  {
    (forall c :: c in list ==> c in number) && Children(par, x, NumbersOf(number, list))
  }

  /** The lists of `domTree` are the lists of children in the tree, in some order. */
  ghost predicate ListsChildren(order: seq<MIRBlock>, number: map<MIRBlock, nat>, par: seq<nat>,
                                domTree: map<MIRBlock, seq<MIRBlock>>)
    requires IsTree(par)
  {
    && |par| == |order| && Indexed(order, number)
    && (forall b :: b in domTree ==> b in number && ChildList(number, par, number[b], domTree[b]))
    && (forall y {:trigger par[y]} :: 0 < y < |par| ==> order[par[y]] in domTree && order[y] in domTree[order[par[y]]])
  }

  /** A list of children that contains every child covers the whole subtree. */
  lemma WholeSubtree(order: seq<MIRBlock>, number: map<MIRBlock, nat>, par: seq<nat>,
                     domTree: map<MIRBlock, seq<MIRBlock>>, b: MIRBlock)
    requires IsTree(par) && ListsChildren(order, number, par, domTree) && b in domTree
    ensures var cs := NumbersOf(number, domTree[b]);
            Descendants(par, number[b]) == DescendantsOf(par, cs) + {number[b]} && number[b] !in DescendantsOf(par, cs)
  {
    var cs := NumbersOf(number, domTree[b]);
    forall c | 0 < c < |par| && par[c] == number[b] ensures c in cs {
      assert order[c] in domTree[order[par[c]]];
      var j :| 0 <= j < |domTree[b]| && domTree[b][j] == order[c];
      assert cs[j] == c;
    }
    DescendantsByChildren(par, number[b], cs);
  }

  lemma ChildrenOfListed(order: seq<MIRBlock>, number: map<MIRBlock, nat>, par: seq<nat>,
                         domTree: map<MIRBlock, seq<MIRBlock>>, b: MIRBlock)
    requires IsTree(par) && ListsChildren(order, number, par, domTree) && b in domTree
    ensures |par| == |order| && Indexed(order, number) && b in number && number[b] < |par| && order[number[b]] == b
    ensures forall c :: c in domTree[b] ==> c in number
    ensures Children(par, number[b], NumbersOf(number, domTree[b]))
    ensures forall j :: 0 <= j < |domTree[b]| ==>
      number[b] < number[domTree[b][j]] < |par| && order[number[domTree[b][j]]] == domTree[b][j]
  {
    assert ChildList(number, par, number[b], domTree[b]);
    var cs := NumbersOf(number, domTree[b]);
    forall j | 0 <= j < |domTree[b]|
      ensures number[b] < number[domTree[b][j]] < |par| && order[number[domTree[b][j]]] == domTree[b][j]
    {
      assert domTree[b][j] in domTree[b] && par[cs[j]] == number[b];
    }
  }

  /** Looking up a leaf leaves an empty list behind. */
  lemma EmptyListIsFine(order: seq<MIRBlock>, number: map<MIRBlock, nat>, par: seq<nat>,
                        domTree: map<MIRBlock, seq<MIRBlock>>, b: MIRBlock)
    requires IsTree(par) && ListsChildren(order, number, par, domTree) && b in number && b !in domTree
    ensures ListsChildren(order, number, par, domTree[b := []])
  {
    assert ChildList(number, par, number[b], []);
  }

  /** The child lists while the blocks `rest` are still to be entered. */
  ghost predicate PartlyListed(order: seq<MIRBlock>, number: map<MIRBlock, nat>, par: seq<nat>,
                               domTree: map<MIRBlock, seq<MIRBlock>>, rest: set<MIRBlock>)
    requires IsTree(par) && |par| == |order|
  {
    && (forall b :: b in domTree ==> b in number && ChildList(number, par, number[b], domTree[b]))
    && (forall b, c :: b in domTree && c in domTree[b] ==> c !in rest)
    && (forall y {:trigger par[y]} :: 0 < y < |par| && order[y] !in rest ==>
          order[par[y]] in domTree && order[y] in domTree[order[par[y]]])
  }

  function ListAt(domTree: map<MIRBlock, seq<MIRBlock>>, b: MIRBlock): seq<MIRBlock> {
    if b in domTree then domTree[b] else []
  }

  lemma NothingListed(order: seq<MIRBlock>, number: map<MIRBlock, nat>, par: seq<nat>, idoms: map<MIRBlock, MIRBlock>)
    requires Tracks(order, number, par, idoms) && |par| == |order|
    ensures PartlyListed(order, number, par, map[], idoms.Keys)
  {
    forall y {:trigger par[y]} | 0 < y < |par| ensures order[y] in idoms.Keys {
      assert par[y] < |par|;
    }
  }

  lemma ListOneMore(order: seq<MIRBlock>, number: map<MIRBlock, nat>, par: seq<nat>,
                    domTree: map<MIRBlock, seq<MIRBlock>>, rest: set<MIRBlock>, y: nat)
    requires Indexed(order, number) && IsTree(par) && |par| == |order| && 0 < y < |par| && order[y] in rest
    requires PartlyListed(order, number, par, domTree, rest)
    ensures var p := order[par[y]];
            PartlyListed(order, number, par, domTree[p := ListAt(domTree, p) + [order[y]]], rest - {order[y]})
  {
    var p := order[par[y]];
    var list := ListAt(domTree, p);
    assert number[p] == par[y] && number[order[y]] == y;
    assert ChildList(number, par, number[p], list + [order[y]]) by {
      if p in domTree {
        assert ChildList(number, par, number[p], list);
      }
      forall j | 0 <= j < |list| ensures number[list[j]] != y {
        assert list[j] in list && list[j] !in rest;
      }
    }
    var domTree' := domTree[p := list + [order[y]]];
    forall z | 0 < z < |par| && order[z] !in rest - {order[y]}
      ensures order[par[z]] in domTree' && order[z] in domTree'[order[par[z]]]
    {
      if order[z] == order[y] {
        assert number[order[z]] == z;
      }
    }
  }

  lemma SkipEntry(order: seq<MIRBlock>, number: map<MIRBlock, nat>, par: seq<nat>,
                  domTree: map<MIRBlock, seq<MIRBlock>>, rest: set<MIRBlock>)
    requires Indexed(order, number) && IsTree(par) && |par| == |order|
    requires PartlyListed(order, number, par, domTree, rest)
    ensures PartlyListed(order, number, par, domTree, rest - {order[0]})
  {
    forall y | 0 < y < |par| && order[y] !in rest - {order[0]} ensures order[y] !in rest {
      OnlyEntryIsFirst(order, number, y);
    }
  }

  lemma AllListed(order: seq<MIRBlock>, number: map<MIRBlock, nat>, par: seq<nat>,
                  domTree: map<MIRBlock, seq<MIRBlock>>)
    requires Indexed(order, number) && IsTree(par) && |par| == |order|
    requires PartlyListed(order, number, par, domTree, {})
    ensures ListsChildren(order, number, par, domTree)
  {
  }

  // ---------------------------------------------------------------- interval numbers

  /** The intervals found so far, by number. */
  ghost predicate NumbersAre(order: seq<MIRBlock>, number: map<MIRBlock, nat>,
                             dfsNumbers: map<MIRBlock, (int, int)>, num: map<nat, (int, int)>) {
    && (forall b :: b in dfsNumbers ==> b in number)
    && (forall y: nat {:trigger order[y] in dfsNumbers} :: y < |order| ==>
          (y in num <==> order[y] in dfsNumbers) && (y in num ==> num[y] == dfsNumbers[order[y]]))
  }

  lemma NumbersAreUpdated(order: seq<MIRBlock>, number: map<MIRBlock, nat>, dfsNumbers: map<MIRBlock, (int, int)>,
                          num: map<nat, (int, int)>, b: MIRBlock, interval: (int, int))
    requires Indexed(order, number) && NumbersAre(order, number, dfsNumbers, num) && b in number
    ensures NumbersAre(order, number, dfsNumbers[b := interval], num[number[b] := interval])
  {
    forall y: nat | y < |order| && order[y] == b ensures y == number[b] {
    }
  }

  /** A walk has numbered the blocks D within (lo, hi], and visited exactly those besides. */
  ghost predicate Intervals(order: seq<MIRBlock>, par: seq<nat>, D: set<nat>,
                         num: map<nat, (int, int)>, num': map<nat, (int, int)>,
                         visited: set<MIRBlock>, visited': set<MIRBlock>, lo: int, hi: int)
    requires IsTree(par)
  {
    && lo <= hi
    && Nested(par, D, num', lo, hi)
    && OnlyChangedOn(D, num, num')
    && forall y {:trigger order[y]} :: 0 <= y < |order| ==> (order[y] in visited' <==> order[y] in visited || y in D)
  }

  ghost predicate Unvisited(order: seq<MIRBlock>, D: set<nat>, visited: set<MIRBlock>) {
    forall y :: y in D && y < |order| ==> order[y] !in visited
  }

  lemma NothingNumbered(order: seq<MIRBlock>, number: map<MIRBlock, nat>, par: seq<nat>)
    requires IsTree(par)
    ensures NumbersAre(order, number, map[], map[]) && Unvisited(order, Descendants(par, 0), {})
  {
  }

  /** The next child may be walked: nothing below it has been visited. */
  lemma NextChildIsUnvisited(order: seq<MIRBlock>, number: map<MIRBlock, nat>, par: seq<nat>, x: nat,
                             cs: seq<nat>, k: nat,
                             num: map<nat, (int, int)>, num': map<nat, (int, int)>,
                             visited: set<MIRBlock>, visited': set<MIRBlock>, lo: int, hi: int)
    requires IsTree(par) && |par| == |order| && Indexed(order, number) && x < |par|
    requires Children(par, x, cs) && k < |cs| && Unvisited(order, Descendants(par, x), visited)
    requires Intervals(order, par, DescendantsOf(par, cs[..k]), num, num', visited + {order[x]}, visited', lo, hi)
    ensures Unvisited(order, Descendants(par, cs[k]), visited') && order[cs[k]] !in visited'
  {
    var D := Descendants(par, cs[k]);
    NewChildIsUnrelated(par, x, cs[..k], cs[k]);
    forall y | y in D ensures order[y] !in visited' {
      assert DescendantsOf(par, [cs[k]]) == DescendantsOf(par, []) + D;
      DescendantsOfSome(par, x, [cs[k]], y);
      assert y in Descendants(par, x) && number[order[y]] != number[order[x]];
    }
    assert cs[k] in D;
  }

  lemma IntervalsNothing(order: seq<MIRBlock>, par: seq<nat>, cs: seq<nat>, num: map<nat, (int, int)>,
                         visited: set<MIRBlock>, lo: int)
    requires IsTree(par)
    ensures Intervals(order, par, DescendantsOf(par, cs[..0]), num, num, visited, visited, lo, lo)
  {
  }

  lemma IntervalsOneMore(order: seq<MIRBlock>, par: seq<nat>, x: nat, cs: seq<nat>, k: nat,
                      num: map<nat, (int, int)>, num1: map<nat, (int, int)>, num2: map<nat, (int, int)>,
                      visited: set<MIRBlock>, visited1: set<MIRBlock>, visited2: set<MIRBlock>,
                      lo: int, mid: int, hi: int)
    requires IsTree(par) && Children(par, x, cs) && k < |cs|
    requires Intervals(order, par, DescendantsOf(par, cs[..k]), num, num1, visited, visited1, lo, mid)
    requires Intervals(order, par, Descendants(par, cs[k]), num1, num2, visited1, visited2, mid, hi)
    ensures Intervals(order, par, DescendantsOf(par, cs[..k + 1]), num, num2, visited, visited2, lo, hi)
  {
    NewChildIsUnrelated(par, x, cs[..k], cs[k]);
    SideBySide(par, DescendantsOf(par, cs[..k]), Descendants(par, cs[k]), num1, num2, lo, mid, hi);
    assert cs[..k + 1][..k] == cs[..k];
  }

  lemma IntervalsRoot(order: seq<MIRBlock>, number: map<MIRBlock, nat>, par: seq<nat>, x: nat, S: set<nat>,
                   num: map<nat, (int, int)>, num1: map<nat, (int, int)>,
                   visited: set<MIRBlock>, visited': set<MIRBlock>, lo: int, hi: int)
    requires IsTree(par) && |par| == |order| && Indexed(order, number) && x < |par|
    requires Descendants(par, x) == S + {x} && x !in S
    requires Intervals(order, par, S, num, num1, visited + {order[x]}, visited', lo + 1, hi)
    ensures Intervals(order, par, Descendants(par, x), num, num1[x := (lo + 1, hi)], visited, visited', lo, hi)
  {
    var num2 := num1[x := (lo + 1, hi)];
    OnTop(par, x, S, num2, lo, hi);
    forall y | 0 <= y < |order| && order[y] == order[x] ensures y == x {
      assert number[order[y]] == number[order[x]];
    }
  }

  /** The whole tree is numbered, and the intervals nest along it. */
  ghost predicate MirrorsTree(par: seq<nat>, num: map<nat, (int, int)>)
    requires IsTree(par)
  {
    && (forall y :: y in num <==> 0 <= y < |par|)
    && (forall a, b {:trigger Contains(num[a], num[b])} :: a in num && b in num ==>
          (Anc(par, a, b) <==> Contains(num[a], num[b])))
  }

  lemma IntervalsMirrorTree(order: seq<MIRBlock>, par: seq<nat>, num: map<nat, (int, int)>,
                            visited: set<MIRBlock>, visited': set<MIRBlock>, lo: int, hi: int)
    requires IsTree(par) && Intervals(order, par, Descendants(par, 0), map[], num, visited, visited', lo, hi)
    ensures MirrorsTree(par, num)
  {
    forall y | 0 <= y < |par| ensures y in Descendants(par, 0) {
      EntryIsAnc(par, y);
    }
  }

  // ---------------------------------------------------------------- depths

  ghost predicate DepthsAre(blocks: seq<MIRBlock>, number: map<MIRBlock, nat>, par: seq<nat>,
                            depths: map<MIRBlock, int>)
    requires IsTree(par)
  {
    && depths.Keys == Elems(blocks)
    && (forall b :: b in number ==> number[b] < |par|)
    && (forall b :: b in depths ==> depths[b] == if b in number then Depth(par, number[b]) else 0)
  }
}
