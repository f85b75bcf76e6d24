/** The worklist iteration always ends when no instruction ends a loan. */
module LoanGrowth {
  import opened Mir
  import opened Loans
  import opened LoanTransfer
  import opened LoanRuns
  import opened LoanTermination

  /** No instruction of the block ends a loan. */
  ghost predicate OnlyAdds(f: Transfer, code: seq<MIRInst>, universe: set<Key>) {
    forall keys, k :: keys <= universe && 0 <= k < |code| ==> Effect(f, code, keys, k) <= Effect(f, code, keys, k + 1)
  }

  ghost predicate AllOnlyAdd(f: Transfer, flow: Flow, universe: set<Key>) {
    forall b :: b in flow.code ==> OnlyAdds(f, flow.code[b], universe)
  }

  /** Blocks are predecessors of their successors. The converse is not needed. */
  ghost predicate LeadsBack(flow: Flow)
    requires Closed(flow)
  {
    forall b, s :: b in flow.succ && s in flow.succ[b] ==> s in flow.preds && b in flow.preds[s]
  }

  lemma {:induction false} EffectsRise(f: Transfer, code: seq<MIRInst>, universe: set<Key>, keys: set<Key>, m: nat,
                                       n: nat)
    requires OnlyAdds(f, code, universe) && keys <= universe && m <= n <= |code|
    ensures Effect(f, code, keys, m) <= Effect(f, code, keys, n)
    decreases n
  {
    hide Effect;
    if m < n {
      EffectsRise(f, code, universe, keys, m, n - 1);
    }
  }

  lemma EffectOfNothing(f: Transfer, code: seq<MIRInst>, keys: set<Key>)
    ensures Effect(f, code, keys, 0) == keys
  {
  }

  /** A block that wavers lets out more loans than it starts with. */
  lemma WaveringAdds(f: Transfer, code: seq<MIRInst>, universe: set<Key>, keys: set<Key>)
    requires OnlyAdds(f, code, universe) && keys <= universe && Wavers(f, code, keys)
    ensures keys < OutAfter(f, code, keys, {})
  {
    hide Effect;
    var k :| 0 < k < |code| && Effect(f, code, keys, k) != Effect(f, code, keys, |code|);
    EffectOfNothing(f, code, keys);
    EffectsRise(f, code, universe, keys, 0, k);
    EffectsRise(f, code, universe, keys, k, |code|);
  }

  // ---------------------------------------------------------------- weights

  /** More than `degree` times the weight one rank lower. */
  ghost function WeightOf(degree: nat, rank: nat): (w: nat)
    ensures w > 0
  {
    if rank == 0 then 1 else 1 + degree * WeightOf(degree, rank - 1)
  }

  lemma {:induction false} WeightRises(degree: nat, low: nat, high: nat)
    requires low <= high && degree > 0
    ensures WeightOf(degree, low) <= WeightOf(degree, high)
    decreases high
  {
    if low < high {
      WeightRises(degree, low, high - 1);
      assert WeightOf(degree, high) == 1 + degree * WeightOf(degree, high - 1);
      AtLeastOnce(degree, WeightOf(degree, high - 1));
    }
  }

  lemma AtLeastOnce(n: nat, w: nat)
    requires n > 0
    ensures n * w >= w
  {
  }

  /** How many loans could be added. */
  ghost function Room(universe: set<Key>, keys: set<Key>): nat {
    |universe - keys|
  }

  /** The fewer loans a block starts with, the more it weighs. */
  ghost function Weights(flow: Flow, degree: nat, universe: set<Key>, outs: Sets): map<MIRBlock, nat>
    requires Closed(flow)
  {
    var ins := InsOf(flow, outs);
    map b | b in flow.code :: WeightOf(degree, Room(universe, ins[b]))
  }

  lemma {:induction false} SumAtMost(weight: map<MIRBlock, nat>, blocks: seq<MIRBlock>, bound: nat)
    requires forall b :: b in blocks ==> b in weight && weight[b] <= bound
    ensures Sum(weight, blocks) <= |blocks| * bound
    decreases |blocks|
  {
    if blocks != [] {
      SumAtMost(weight, blocks[..|blocks| - 1], bound);
      assert |blocks| * bound == (|blocks| - 1) * bound + bound;
    }
  }

  lemma FewerTimes(m: nat, n: nat, w: nat)
    requires m <= n
    ensures m * w <= n * w
  {
  }

  ghost predicate DegreeAtMost(flow: Flow, degree: nat)
    requires Closed(flow)
  {
    degree > 0 && forall b :: b in flow.succ ==> |flow.succ[b]| <= degree
  }

  lemma {:induction false} SomeDegree(flow: Flow, blocks: seq<MIRBlock>) returns (degree: nat)
    ensures degree > 0 && forall b :: b in blocks && b in flow.succ ==> |flow.succ[b]| <= degree
    decreases |blocks|
  {
    degree := 1;
    if blocks != [] {
      var b := blocks[|blocks| - 1];
      degree := SomeDegree(flow, blocks[..|blocks| - 1]);
      if b in flow.succ && |flow.succ[b]| > degree {
        degree := |flow.succ[b]|;
      }
      assert blocks == blocks[..|blocks| - 1] + [b];
    }
  }

  /** Lighter blocks, not too many of them, weigh less together. */
  lemma LighterTogether(weight: map<MIRBlock, nat>, blocks: seq<MIRBlock>, degree: nat, rank: nat)
    requires rank > 0 && |blocks| <= degree
    requires forall s :: s in blocks ==> s in weight && weight[s] <= WeightOf(degree, rank - 1)
    ensures Sum(weight, blocks) < WeightOf(degree, rank)
  {
    hide Sum;
    SumAtMost(weight, blocks, WeightOf(degree, rank - 1));
    FewerTimes(|blocks|, degree, WeightOf(degree, rank - 1));
    WeightStep(degree, rank);
  }

  lemma WeightIs(flow: Flow, degree: nat, universe: set<Key>, outs: Sets, b: MIRBlock)
    requires Closed(flow) && b in flow.code
    ensures var weight, ins := Weights(flow, degree, universe, outs), InsOf(flow, outs);
      && weight.Keys == flow.code.Keys && b in flow.preds && ins[b] == InKeys(outs, flow.preds[b])
      && weight[b] == WeightOf(degree, Room(universe, ins[b]))
  {
    hide InKeys, NoDuplicates;
  }

  lemma DegreeAt(flow: Flow, degree: nat, b: MIRBlock)
    requires Closed(flow) && DegreeAtMost(flow, degree) && b in flow.succ
    ensures degree > 0 && |flow.succ[b]| <= degree
  {
    hide NoDuplicates;
  }

  /** Successors of a wavering block whose equation holds weigh less than it does, together. */
  lemma SuccessorsWeighLess(f: Transfer, flow: Flow, degree: nat, universe: set<Key>, outs: Sets, b: MIRBlock)
    requires Closed(flow) && LeadsBack(flow) && DegreeAtMost(flow, degree) && Within(outs, universe)
    requires b in flow.code && b in flow.preds && b in flow.succ && b in outs && outs[b] == Equation(f, flow, outs, b)
    requires OnlyAdds(f, flow.code[b], universe)
    ensures var weight := Weights(flow, degree, universe, outs);
      weight.Keys == flow.code.Keys && WeightAt(f, flow, InsOf(flow, outs), weight, b)
  {
    hide Wavers, Equation, OnlyAdds, Sum, WeightOf, Room, Closed, LeadsBack, DegreeAtMost, Within, Weights,
      InsOf, InKeys;
    DegreeAt(flow, degree, b);
    WeightIs(flow, degree, universe, outs, b);
    if Wavers(f, flow.code[b], InKeys(outs, flow.preds[b])) {
      WaveringHasMore(f, flow, universe, outs, b);
      SuccessorsTogether(flow, degree, universe, outs, b, Room(universe, InKeys(outs, flow.preds[b])));
    }
  }

  lemma SuccessorsTogether(flow: Flow, degree: nat, universe: set<Key>, outs: Sets, b: MIRBlock, rank: nat)
    requires Closed(flow) && LeadsBack(flow) && Within(outs, universe) && degree > 0
    requires b in flow.succ && |flow.succ[b]| <= degree && b in outs && Room(universe, outs[b]) < rank
    ensures var weight := Weights(flow, degree, universe, outs);
      (forall s :: s in flow.succ[b] ==> s in weight) && Sum(weight, flow.succ[b]) < WeightOf(degree, rank)
  {
    hide Sum, WeightOf, Room, Closed, LeadsBack, Within, Weights;
    var weight := Weights(flow, degree, universe, outs);
    forall s | s in flow.succ[b] ensures s in weight && weight[s] <= WeightOf(degree, rank - 1) {
      SuccessorIsLighter(flow, degree, universe, outs, b, rank, s);
    }
    LighterTogether(weight, flow.succ[b], degree, rank);
  }

  lemma SuccessorIsLighter(flow: Flow, degree: nat, universe: set<Key>, outs: Sets, b: MIRBlock, rank: nat, s: MIRBlock)
    requires Closed(flow) && LeadsBack(flow) && Within(outs, universe) && degree > 0
    requires b in flow.succ && s in flow.succ[b] && b in outs && Room(universe, outs[b]) < rank
    ensures var weight := Weights(flow, degree, universe, outs); s in weight && weight[s] <= WeightOf(degree, rank - 1)
  {
    hide WeightOf, Room, Closed, LeadsBack, Within, InsOf, Weights;
    SuccessorHasMore(flow, universe, outs, b, s);
    WeightIs(flow, degree, universe, outs, s);
    WeightRises(degree, Room(universe, InsOf(flow, outs)[s]), rank - 1);
  }

  lemma WaveringHasMore(f: Transfer, flow: Flow, universe: set<Key>, outs: Sets, b: MIRBlock)
    requires Closed(flow) && Within(outs, universe) && b in flow.code && b in flow.preds && b in outs
    requires outs[b] == Equation(f, flow, outs, b) && OnlyAdds(f, flow.code[b], universe)
    requires Wavers(f, flow.code[b], InKeys(outs, flow.preds[b]))
    ensures Room(universe, outs[b]) < Room(universe, InKeys(outs, flow.preds[b]))
  {
    hide Wavers, OutAfter, OnlyAdds, Closed, InKeys;
    var keys := InKeys(outs, flow.preds[b]);
    InKeysWithin(outs, flow.preds[b], universe);
    WaveringAdds(f, flow.code[b], universe, keys);
    FewerLeft(keys, outs[b], universe);
  }

  lemma WeightStep(degree: nat, rank: nat)
    requires rank > 0
    ensures WeightOf(degree, rank) > degree * WeightOf(degree, rank - 1)
  {
  }

  lemma SuccessorHasMore(flow: Flow, universe: set<Key>, outs: Sets, b: MIRBlock, s: MIRBlock)
    requires Closed(flow) && LeadsBack(flow) && Within(outs, universe)
    requires b in flow.succ && s in flow.succ[b] && b in outs
    ensures s in flow.code && Room(universe, InsOf(flow, outs)[s]) <= Room(universe, outs[b])
  {
    hide NoDuplicates;
    assert s in flow.preds && b in flow.preds[s];
    InKeysWithin(outs, flow.preds[s], universe);
    assert outs[b] <= InKeys(outs, flow.preds[s]);
    FewerLeft(outs[b], InKeys(outs, flow.preds[s]), universe);
  }

  // ---------------------------------------------------------------- the iteration ends

  /** A turn that lets nothing out lightens the queue. */
  lemma IdleTurnLightens(f: Transfer, flow: Flow, universe: set<Key>, degree: nat, run: Run)
    requires Moving(f, flow, universe, run) && LeadsBack(flow) && DegreeAtMost(flow, degree)
    requires AllOnlyAdd(f, flow, universe)
    requires run.queue != [] && !Unsettled(f, flow, run.outs, run.queue[0])
    ensures var run', weight := Turn(f, flow, run), Weights(flow, degree, universe, run.outs);
      && Moving(f, flow, universe, run') && run'.outs == run.outs
      && Sum(weight, run'.queue) < Sum(weight, run.queue)
  {
    var b, rest := run.queue[0], run.queue[1..];
    SettledTurnKeepsOuts(f, flow, universe, run);
    TurnSettles(f, flow, universe, run);
    SuccessorsAreBlocks(flow, b);
    hide Consistent, Tame, OnlyAdds, NoDuplicates, Equation, Weights, WeightAt, Sum, Closed;
    SuccessorsWeighLess(f, flow, degree, universe, run.outs, b);
    VisitLightens(f, flow, run, b, rest, Weights(flow, degree, universe, run.outs));
  }

  /** Each turn lets out more, or lets out the same and lightens the queue. */
  lemma {:induction false} Empties(f: Transfer, flow: Flow, universe: set<Key>, degree: nat, run: Run) returns (n: nat)
    requires Moving(f, flow, universe, run) && LeadsBack(flow) && DegreeAtMost(flow, degree)
    requires AllOnlyAdd(f, flow, universe)
    ensures Turns(f, flow, run, n).queue == []
    decreases Missing(run.outs, universe, flow.order), Sum(Weights(flow, degree, universe, run.outs), run.queue)
  {
    hide Consistent, Growing, Tame, OnlyAdds, NoDuplicates, Equation, Weights, Sum, Missing, Turn, Closed, LeadsBack,
      AllOnlyAdd;
    n := 0;
    if run.queue != [] {
      if Unsettled(f, flow, run.outs, run.queue[0]) {
        TurnAddsLoans(f, flow, universe, run);
        TurnSettles(f, flow, universe, run);
      } else {
        IdleTurnLightens(f, flow, universe, degree, run);
      }
      n := Empties(f, flow, universe, degree, Turn(f, flow, run));
      TurnsAdd(f, flow, run, 1, n);
      n := 1 + n;
    }
  }

  /** If no instruction ends a loan, the worklist runs empty, whatever the graph is. */
  lemma AddingFinishes(f: Transfer, flow: Flow, universe: set<Key>) returns (enough: nat)
    requires Closed(flow) && LeadsBack(flow) && Tame(f, flow, universe) && AllOnlyAdd(f, flow, universe)
    ensures forall n: nat :: n >= enough ==> Finished(f, flow, n)
  {
    StartGrows(f, flow, universe);
    var degree := SomeDegree(flow, flow.order);
    assert DegreeAtMost(flow, degree);
    hide Closed, Tame, LeadsBack, AllOnlyAdd, Turns, Start;
    enough := Empties(f, flow, universe, degree, Start(flow));
    forall n: nat | n >= enough ensures Finished(f, flow, n) {
      FinishedStays(f, flow, enough, n);
    }
  }
}
