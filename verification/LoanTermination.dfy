/** When the worklist iteration ends, and what it has then computed, for blocks that turn more
    loans into more loans, whether or not they also end loans. */
module LoanTermination {
  import opened Mir
  import opened Loans
  import opened LoanTransfer
  import opened LoanRuns

  // ---------------------------------------------------------------- growth

  ghost predicate Within(outs: Sets, universe: set<Key>) {
    forall b :: b in outs ==> outs[b] <= universe
  }

  /** A block as a whole turns more loans into more loans, within a finite set of loans. */
  ghost predicate TameBlock(f: Transfer, code: seq<MIRInst>, universe: set<Key>) {
    forall s, t {:trigger OutAfter(f, code, s, {}), OutAfter(f, code, t, {})} :: s <= t <= universe ==>
      OutAfter(f, code, s, {}) <= OutAfter(f, code, t, {}) <= universe
  }

  ghost predicate Tame(f: Transfer, flow: Flow, universe: set<Key>) {
    forall b :: b in flow.code ==> TameBlock(f, flow.code[b], universe)
  }

  lemma TameInstructions(f: Transfer, insts: set<MIRInst>, flow: Flow, universe: set<Key>)
    requires Respects(f, insts) && Monotone(f, insts, universe)
    requires forall b :: b in flow.code ==> Inside(flow.code[b], insts)
    ensures Tame(f, flow, universe)
  {
    hide Effect, Respects, Monotone, Inside;
    forall b | b in flow.code ensures TameBlock(f, flow.code[b], universe) {
      forall s: set<Key>, t: set<Key> {:trigger OutAfter(f, flow.code[b], s, {}), OutAfter(f, flow.code[b], t, {})}
        | s <= t <= universe
        ensures OutAfter(f, flow.code[b], s, {}) <= OutAfter(f, flow.code[b], t, {}) <= universe
      {
        EffectIsMonotone(f, insts, universe, flow.code[b], s, t, |flow.code[b]|);
      }
    }
  }

  lemma InKeysGrow(outs: Sets, outs': Sets, preds: seq<MIRBlock>)
    requires Below(outs, outs')
    ensures InKeys(outs, preds) <= InKeys(outs', preds)
  {
  }

  lemma InKeysWithin(outs: Sets, preds: seq<MIRBlock>, universe: set<Key>)
    requires Within(outs, universe)
    ensures InKeys(outs, preds) <= universe
  {
  }

  /** Blocks have been visited with no more loans than they would be visited with now. */
  ghost predicate Growing(flow: Flow, run: Run, universe: set<Key>)
    requires Closed(flow) && Fits(flow, run)
  {
    && Within(run.outs, universe)
    && forall b :: b in run.ins ==> run.ins[b] <= InKeys(run.outs, flow.preds[b])
  }

  /** What a block lets out only grows from one visit to the next. */
  lemma OutGrows(f: Transfer, code: seq<MIRInst>, universe: set<Key>, visited: bool, before: set<Key>, keys: set<Key>,
                 out: set<Key>)
    requires TameBlock(f, code, universe) && keys <= universe && (visited ==> before <= keys)
    requires out == if visited then OutAfter(f, code, before, {}) else {}
    ensures OutAfter(f, code, keys, out) == OutAfter(f, code, keys, {})
    ensures out <= OutAfter(f, code, keys, {}) <= universe
  {
    hide Effect;
    assert OutAfter(f, code, keys, {}) <= OutAfter(f, code, keys, {}) <= universe;
  }

  /** The block at the head of the queue, when it is visited. */
  lemma VisitGrows(f: Transfer, flow: Flow, run: Run, universe: set<Key>, b: MIRBlock)
    requires Closed(flow) && Fits(flow, run) && Tame(f, flow, universe)
    requires Consistent(f, flow, run) && Growing(flow, run, universe) && b in flow.code
    ensures b in flow.preds && b in run.outs
    ensures var out := OutAfter(f, flow.code[b], InKeys(run.outs, flow.preds[b]), run.outs[b]);
      out == Equation(f, flow, run.outs, b) && run.outs[b] <= out <= universe
  {
    SuccessorsAreBlocks(flow, b);
    assert BlockConsistent(f, flow, run, b) && b in run.outs;
    InKeysWithin(run.outs, flow.preds[b], universe);
    hide Closed, NoDuplicates, Within, InKeys, OutAfter, TameBlock, Mirrored;
    var keys := InKeys(run.outs, flow.preds[b]);
    if b in run.ins {
      OutGrows(f, flow.code[b], universe, true, run.ins[b], keys, run.outs[b]);
    } else {
      OutGrows(f, flow.code[b], universe, false, {}, keys, run.outs[b]);
    }
  }

  lemma TurnGrows(f: Transfer, flow: Flow, run: Run, universe: set<Key>)
    requires Closed(flow) && Fits(flow, run) && Tame(f, flow, universe)
    requires Consistent(f, flow, run) && Growing(flow, run, universe)
    ensures Fits(flow, Turn(f, flow, run)) && Consistent(f, flow, Turn(f, flow, run))
    ensures Growing(flow, Turn(f, flow, run), universe) && Below(run.outs, Turn(f, flow, run).outs)
  {
    TurnIsConsistent(f, flow, run);
    if run.queue != [] {
      VisitGrows(f, flow, run, universe, run.queue[0]);
      SuccessorsAreBlocks(flow, run.queue[0]);
      AfterVisit(f, flow, run, universe, run.queue[0], run.queue[1..]);
    }
  }

  lemma AfterVisit(f: Transfer, flow: Flow, run: Run, universe: set<Key>, b: MIRBlock, rest: seq<MIRBlock>)
    requires Closed(flow) && Fits(flow, run) && Growing(flow, run, universe)
    requires b in flow.code && b in flow.preds && b in flow.succ && b in run.outs
    requires run.outs[b] <= OutAfter(f, flow.code[b], InKeys(run.outs, flow.preds[b]), run.outs[b]) <= universe
    requires Fits(flow, Visit(f, flow, run, b, rest))
    ensures Growing(flow, Visit(f, flow, run, b, rest), universe) && Below(run.outs, Visit(f, flow, run, b, rest).outs)
  {
    var run' := Visit(f, flow, run, b, rest);
    BelowUpdateOf(run.outs, b, run'.outs[b]);
    assert flow.preds.Keys == flow.code.Keys && run'.ins.Keys <= flow.code.Keys;
    hide Closed, Fits, InKeys, OutAfter, Still, Enqueue, Below;
    forall c | c in run'.ins ensures c in flow.preds && run'.ins[c] <= InKeys(run'.outs, flow.preds[c]) {
      InKeysGrow(run.outs, run'.outs, flow.preds[c]);
    }
  }

  lemma BelowUpdateOf(outs: Sets, b: MIRBlock, out: set<Key>)
    requires b in outs && outs[b] <= out
    ensures Below(outs, outs[b := out])
  {
  }

  lemma StartGrows(f: Transfer, flow: Flow, universe: set<Key>)
    requires Closed(flow)
    ensures Consistent(f, flow, Start(flow)) && Growing(flow, Start(flow), universe)
  {
    StartIsConsistent(f, flow);
  }

  /** No solution lets out less than a run has let out. */
  lemma TurnStaysBelow(f: Transfer, flow: Flow, run: Run, universe: set<Key>, sol: Sets)
    requires Closed(flow) && Fits(flow, run) && Tame(f, flow, universe)
    requires Consistent(f, flow, run) && Growing(flow, run, universe)
    requires Solution(f, flow, sol) && Within(sol, universe) && Below(run.outs, sol)
    ensures Below(Turn(f, flow, run).outs, sol)
  {
    if run.queue != [] {
      var b := run.queue[0];
      VisitGrows(f, flow, run, universe, b);
      EquationGrows(f, flow, universe, run.outs, sol, b);
      assert b in sol && sol[b] == Equation(f, flow, sol, b);
      BelowUpdate(run.outs, sol, b, Equation(f, flow, run.outs, b));
      hide *;
      TurnOuts(f, flow, run);
    }
  }

  lemma TurnOuts(f: Transfer, flow: Flow, run: Run)
    requires Closed(flow) && Fits(flow, run) && run.queue != []
    ensures var b := run.queue[0];
      && b in flow.code && b in flow.preds && b in run.outs
      && Turn(f, flow, run).outs ==
           run.outs[b := OutAfter(f, flow.code[b], InKeys(run.outs, flow.preds[b]), run.outs[b])]
  {
    hide InKeys, Still, Enqueue, NoDuplicates, OutAfter;
  }

  lemma BelowUpdate(outs: Sets, sol: Sets, b: MIRBlock, out: set<Key>)
    requires Below(outs, sol) && b in outs && b in sol && out <= sol[b]
    ensures Below(outs[b := out], sol)
  {
  }

  lemma EquationGrows(f: Transfer, flow: Flow, universe: set<Key>, outs: Sets, outs': Sets, b: MIRBlock)
    requires Closed(flow) && Tame(f, flow, universe) && b in flow.code && b in flow.preds
    requires Below(outs, outs') && Within(outs', universe)
    ensures Equation(f, flow, outs, b) <= Equation(f, flow, outs', b)
  {
    InKeysGrow(outs, outs', flow.preds[b]);
    InKeysWithin(outs', flow.preds[b], universe);
    hide InKeys, OutAfter, Closed, Below, Within;
    assert TameBlock(f, flow.code[b], universe);
  }

  // ---------------------------------------------------------------- reaching a solution

  ghost predicate Unsettled(f: Transfer, flow: Flow, outs: Sets, b: MIRBlock)
    requires Closed(flow)
  {
    b in flow.code && b in outs && b in flow.preds && outs[b] != Equation(f, flow, outs, b)
  }

  /** How many loans the blocks could still let out. */
  ghost function Missing(outs: Sets, universe: set<Key>, order: seq<MIRBlock>): nat
    decreases |order|
  {
    if order == [] then 0
    else
      var b := order[|order| - 1];
      Missing(outs, universe, order[..|order| - 1]) + if b in outs then |universe - outs[b]| else 0
  }

  lemma {:induction false} MissingDrops(outs: Sets, outs': Sets, universe: set<Key>, order: seq<MIRBlock>, b: MIRBlock)
    requires Below(outs, outs') && Within(outs', universe) && outs.Keys == outs'.Keys
    ensures Missing(outs', universe, order) <= Missing(outs, universe, order)
    ensures b in order && b in outs && outs[b] != outs'[b] ==>
      Missing(outs', universe, order) < Missing(outs, universe, order)
    decreases |order|
  {
    if order != [] {
      var front, c := order[..|order| - 1], order[|order| - 1];
      MissingDrops(outs, outs', universe, front, b);
      assert order == front + [c];
      if c in outs {
        FewerLeft(outs[c], outs'[c], universe);
      }
    }
  }

  lemma FewerLeft(s: set<Key>, t: set<Key>, universe: set<Key>)
    requires s <= t <= universe
    ensures |universe - t| <= |universe - s|
    ensures s != t ==> |universe - t| < |universe - s|
  {
    assert universe - s == (universe - t) + (t - s);
  }

  /** How many settled blocks stand before the first one that is not. */
  ghost function Lead(f: Transfer, flow: Flow, outs: Sets, queue: seq<MIRBlock>): nat
    requires Closed(flow)
    decreases |queue|
  {
    if queue == [] || Unsettled(f, flow, outs, queue[0]) then 0 else 1 + Lead(f, flow, outs, queue[1..])
  }

  lemma {:induction false} LeadOfPrefix(f: Transfer, flow: Flow, outs: Sets, queue: seq<MIRBlock>,
                                        queue': seq<MIRBlock>, b: MIRBlock)
    requires Closed(flow) && queue <= queue' && b in queue && Unsettled(f, flow, outs, b)
    ensures Lead(f, flow, outs, queue') == Lead(f, flow, outs, queue)
    decreases |queue|
  {
    hide Unsettled, Closed;
    if !Unsettled(f, flow, outs, queue[0]) {
      assert queue == [queue[0]] + queue[1..] && queue'[0] == queue[0];
      LeadOfPrefix(f, flow, outs, queue[1..], queue'[1..], b);
    }
  }

  /** A state that a run can get to ... */
  ghost predicate Moving(f: Transfer, flow: Flow, universe: set<Key>, run: Run) {
    Closed(flow) && Tame(f, flow, universe) && Fits(flow, run) && Consistent(f, flow, run) &&
    Growing(flow, run, universe)
  }

  /** ... in a function whose blocks have predecessors that lead to them. */
  ghost predicate Underway(f: Transfer, flow: Flow, universe: set<Key>, run: Run) {
    Closed(flow) && Mirrored(flow) && Moving(f, flow, universe, run)
  }

  lemma NotSolution(f: Transfer, flow: Flow, universe: set<Key>, run: Run) returns (b: MIRBlock)
    requires Underway(f, flow, universe, run) && !Solution(f, flow, run.outs)
    ensures b in run.queue && Unsettled(f, flow, run.outs, b)
  {
    b :| b in flow.code && run.outs[b] != Equation(f, flow, run.outs, b);
    assert BlockConsistent(f, flow, run, b);
  }

  /** A turn lets out what the equation of the first block in the queue asks for. */
  lemma TurnSettles(f: Transfer, flow: Flow, universe: set<Key>, run: Run)
    requires Moving(f, flow, universe, run) && run.queue != []
    ensures Moving(f, flow, universe, Turn(f, flow, run))
    ensures var b, outs' := run.queue[0], Turn(f, flow, run).outs;
      && b in flow.order && b in flow.code && b in flow.preds && b in run.outs
      && outs' == run.outs[b := Equation(f, flow, run.outs, b)] && outs'.Keys == run.outs.Keys
      && Below(run.outs, outs') && Within(outs', universe)
  {
    TurnGrows(f, flow, run, universe);
    TurnOuts(f, flow, run);
    VisitGrows(f, flow, run, universe, run.queue[0]);
    hide InKeys, OutAfter, Turn, Consistent, Mirrored, Tame, Below, Within, NoDuplicates;
  }

  /** A turn that visits an unsettled block lets out more. */
  lemma TurnAddsLoans(f: Transfer, flow: Flow, universe: set<Key>, run: Run)
    requires Moving(f, flow, universe, run) && run.queue != [] && Unsettled(f, flow, run.outs, run.queue[0])
    ensures Missing(Turn(f, flow, run).outs, universe, flow.order) < Missing(run.outs, universe, flow.order)
  {
    hide Closed, Fits, Consistent, Growing, Tame, Mirrored, Turn, Equation, Below, Within, Missing;
    TurnSettles(f, flow, universe, run);
    MissingDrops(run.outs, Turn(f, flow, run).outs, universe, flow.order, run.queue[0]);
  }

  lemma SettledTurnKeepsOuts(f: Transfer, flow: Flow, universe: set<Key>, run: Run)
    requires Moving(f, flow, universe, run) && run.queue != [] && !Unsettled(f, flow, run.outs, run.queue[0])
    ensures Turn(f, flow, run).outs == run.outs
  {
    hide Closed, Fits, Consistent, Growing, Tame, Mirrored, Turn, Equation, Below, Within;
    TurnSettles(f, flow, universe, run);
  }

  lemma LeadDrops(f: Transfer, flow: Flow, outs: Sets, queue: seq<MIRBlock>, queue': seq<MIRBlock>, c: MIRBlock)
    requires Closed(flow) && queue != [] && queue[1..] <= queue' && !Unsettled(f, flow, outs, queue[0])
    requires c in queue && Unsettled(f, flow, outs, c)
    ensures Lead(f, flow, outs, queue') < Lead(f, flow, outs, queue)
  {
    hide Unsettled, Closed;
    assert queue == [queue[0]] + queue[1..];
    LeadOfPrefix(f, flow, outs, queue[1..], queue', c);
  }

  /** Any other turn changes nothing that is let out and brings the first unsettled block closer. */
  lemma TurnPassesSettled(f: Transfer, flow: Flow, universe: set<Key>, run: Run, c: MIRBlock)
    requires Underway(f, flow, universe, run) && run.queue != [] && !Unsettled(f, flow, run.outs, run.queue[0])
    requires c in run.queue && Unsettled(f, flow, run.outs, c)
    ensures var run' := Turn(f, flow, run);
      run'.outs == run.outs && Lead(f, flow, run'.outs, run'.queue) < Lead(f, flow, run.outs, run.queue)
  {
    hide Closed, Fits, Consistent, Growing, Tame, Mirrored, Turn, Unsettled, Lead;
    QueueAfterTurn(f, flow, run);
    SettledTurnKeepsOuts(f, flow, universe, run);
    LeadDrops(f, flow, run.outs, run.queue, Turn(f, flow, run).queue, c);
  }

  lemma TurnProgresses(f: Transfer, flow: Flow, universe: set<Key>, run: Run)
    requires Underway(f, flow, universe, run) && !Solution(f, flow, run.outs)
    ensures var run' := Turn(f, flow, run);
      && Underway(f, flow, universe, run')
      && (|| Missing(run'.outs, universe, flow.order) < Missing(run.outs, universe, flow.order)
          || (run'.outs == run.outs && Lead(f, flow, run'.outs, run'.queue) < Lead(f, flow, run.outs, run.queue)))
  {
    var c := NotSolution(f, flow, universe, run);
    hide Unsettled, Solution, Missing, Lead, Turn;
    TurnSettles(f, flow, universe, run);
    if Unsettled(f, flow, run.outs, run.queue[0]) {
      TurnAddsLoans(f, flow, universe, run);
    } else {
      TurnPassesSettled(f, flow, universe, run, c);
    }
  }

  lemma QueueAfterTurn(f: Transfer, flow: Flow, run: Run)
    requires Closed(flow) && Fits(flow, run) && run.queue != []
    ensures run.queue[1..] <= Turn(f, flow, run).queue
  {
    var b, rest := run.queue[0], run.queue[1..];
    SuccessorsAreBlocks(flow, b);
    EnqueueElements(rest, flow.succ[b]);
    hide InKeys, Still, NoDuplicates, OutAfter, Closed;
  }

  /** After some turns the equations are solved. */
  lemma {:induction false} Stabilises(f: Transfer, flow: Flow, universe: set<Key>, run: Run) returns (n: nat)
    requires Underway(f, flow, universe, run)
    ensures Underway(f, flow, universe, Turns(f, flow, run, n))
    ensures Solution(f, flow, Turns(f, flow, run, n).outs)
    decreases Missing(run.outs, universe, flow.order), Lead(f, flow, run.outs, run.queue)
  {
    hide Missing, Lead, Solution, Turn, Consistent, Growing, Tame, Mirrored, Closed, Fits;
    n := 0;
    if !Solution(f, flow, run.outs) {
      TurnProgresses(f, flow, universe, run);
      n := Stabilises(f, flow, universe, Turn(f, flow, run));
      TurnsAdd(f, flow, run, 1, n);
      n := 1 + n;
    }
  }

  // ---------------------------------------------------------------- emptying the queue

  /** The loans at the start of the blocks when the blocks let these out. */
  ghost function InsOf(flow: Flow, outs: Sets): (ins: Sets)
    requires Closed(flow)
    ensures ins.Keys == flow.code.Keys
  {
    map b | b in flow.code :: InKeys(outs, flow.preds[b])
  }

  ghost function Sum(weight: map<MIRBlock, nat>, blocks: seq<MIRBlock>): nat
    decreases |blocks|
  {
    if blocks == [] then 0
    else
      var b := blocks[|blocks| - 1];
      Sum(weight, blocks[..|blocks| - 1]) + if b in weight then weight[b] else 0
  }

  lemma {:induction false} SumOfEnqueue(weight: map<MIRBlock, nat>, queue: seq<MIRBlock>, blocks: seq<MIRBlock>)
    ensures Sum(weight, Enqueue(queue, blocks)) <= Sum(weight, queue) + Sum(weight, blocks)
    decreases |blocks|
  {
    if blocks != [] {
      var front, b := blocks[..|blocks| - 1], blocks[|blocks| - 1];
      SumOfEnqueue(weight, queue, front);
      var q := Enqueue(queue, front);
      assert (q + [b])[..|q|] == q;
    }
  }

  lemma {:induction false} SumOfRest(weight: map<MIRBlock, nat>, queue: seq<MIRBlock>)
    requires queue != [] && queue[0] in weight
    ensures Sum(weight, queue) == weight[queue[0]] + Sum(weight, queue[1..])
    decreases |queue|
  {
    if |queue| > 1 {
      var front := queue[..|queue| - 1];
      SumOfRest(weight, front);
      assert queue[1..][..|queue| - 2] == front[1..];
    }
  }

  ghost predicate WeightAt(f: Transfer, flow: Flow, ins: Sets, weight: map<MIRBlock, nat>, b: MIRBlock)
    requires Closed(flow) && b in flow.code && b in weight && b in ins
  {
    && weight[b] > 0
    && (Wavers(f, flow.code[b], ins[b]) ==>
          (forall s :: s in flow.succ[b] ==> s in weight) && weight[b] > Sum(weight, flow.succ[b]))
  }

  /** A wavering block weighs more than all its successors together. */
  ghost predicate Weighted(f: Transfer, flow: Flow, ins: Sets, weight: map<MIRBlock, nat>)
    requires Closed(flow) && ins.Keys == flow.code.Keys
  {
    weight.Keys <= flow.code.Keys && forall b :: b in weight ==> WeightAt(f, flow, ins, weight, b)
  }

  lemma {:induction false} SumAgrees(weight: map<MIRBlock, nat>, weight': map<MIRBlock, nat>, blocks: seq<MIRBlock>)
    requires forall b :: b in blocks ==> b in weight && b in weight' && weight[b] == weight'[b]
    ensures Sum(weight, blocks) == Sum(weight', blocks)
    decreases |blocks|
  {
    if blocks != [] {
      SumAgrees(weight, weight', blocks[..|blocks| - 1]);
    }
  }

  /** Giving one more block its weight does not disturb the others. */
  lemma WeightOneMore(f: Transfer, flow: Flow, ins: Sets, weight: map<MIRBlock, nat>, b: MIRBlock)
    requires Closed(flow) && ins.Keys == flow.code.Keys && Weighted(f, flow, ins, weight)
    requires b in flow.code && b !in weight
    requires Wavers(f, flow.code[b], ins[b]) ==> forall s :: s in flow.succ[b] ==> s in weight
    ensures Weighted(f, flow, ins, weight[b := 1 + Sum(weight, flow.succ[b])])
  {
    var weight' := weight[b := 1 + Sum(weight, flow.succ[b])];
    hide Wavers, Sum, NoDuplicates;
    forall c | c in weight' ensures WeightAt(f, flow, ins, weight', c) {
      if c != b {
        assert WeightAt(f, flow, ins, weight, c);
      }
      if Wavers(f, flow.code[c], ins[c]) {
        SumAgrees(weight, weight', flow.succ[c]);
      }
    }
  }

  /** Some blocks waver in a circle at these loans. */
  ghost predicate Circling(f: Transfer, flow: Flow, ins: Sets)
    requires Closed(flow)
  {
    exists spin: set<MIRBlock> :: spin <= flow.code.Keys && spin != {} && Spinning(f, flow, ins, spin)
  }

  lemma NextToWeigh(f: Transfer, flow: Flow, ins: Sets, left: set<MIRBlock>) returns (b: MIRBlock)
    requires Closed(flow) && ins.Keys == flow.code.Keys && !Circling(f, flow, ins)
    requires left != {} && left <= flow.code.Keys
    ensures b in left && b in ins && b in flow.succ
    ensures Wavers(f, flow.code[b], ins[b]) ==> forall s :: s in flow.succ[b] ==> s !in left
  {
    hide Wavers, NoDuplicates;
    assert left <= flow.code.Keys && flow.succ.Keys == flow.code.Keys;
    assert !Spinning(f, flow, ins, left);
    hide Closed, Circling;
    b :| b in left && !(Wavers(f, flow.code[b], ins[b]) && exists s :: s in flow.succ[b] && s in left);
  }

  /** Unless some blocks waver in a circle, weights can be found for all. */
  lemma {:induction false} FindWeights(f: Transfer, flow: Flow, ins: Sets,
                                       weight: map<MIRBlock, nat>) returns (all: map<MIRBlock, nat>)
    requires Closed(flow) && ins.Keys == flow.code.Keys && Weighted(f, flow, ins, weight) && !Circling(f, flow, ins)
    ensures Weighted(f, flow, ins, all) && all.Keys == flow.code.Keys
    decreases flow.code.Keys - weight.Keys
  {
    hide Circling, Wavers, Sum, NoDuplicates, Spinning, WeightAt;
    var left := flow.code.Keys - weight.Keys;
    if left == {} {
      assert flow.code.Keys == weight.Keys + left;
      all := weight;
    } else {
      var b := NextToWeigh(f, flow, ins, left);
      SuccessorsAreBlocks(flow, b);
      WeightOneMore(f, flow, ins, weight, b);
      all := FindWeights(f, flow, ins, weight[b := 1 + Sum(weight, flow.succ[b])]);
    }
  }

  lemma SteadyBlockIsStill(f: Transfer, code: seq<MIRInst>, keys: set<Key>, out: set<Key>)
    requires !Wavers(f, code, keys) && out == OutAfter(f, code, keys, {})
    ensures Still(f, code, keys, out)
  {
    hide Effect;
    forall k | 0 < k <= |code| ensures Effect(f, code, keys, k) == out {
    }
  }

  /** Once the equations are solved, every turn lowers the weight of the queue. */
  lemma TurnLightens(f: Transfer, flow: Flow, universe: set<Key>, run: Run, weight: map<MIRBlock, nat>)
    requires Underway(f, flow, universe, run) && Solution(f, flow, run.outs) && run.queue != []
    requires weight.Keys == flow.code.Keys && Weighted(f, flow, InsOf(flow, run.outs), weight)
    ensures Underway(f, flow, universe, Turn(f, flow, run)) && Turn(f, flow, run).outs == run.outs
    ensures Sum(weight, Turn(f, flow, run).queue) < Sum(weight, run.queue)
  {
    var b, rest := run.queue[0], run.queue[1..];
    assert !Unsettled(f, flow, run.outs, b);
    SettledTurnKeepsOuts(f, flow, universe, run);
    TurnSettles(f, flow, universe, run);
    assert WeightAt(f, flow, InsOf(flow, run.outs), weight, b);
    VisitLightens(f, flow, run, b, rest, weight);
  }

  lemma VisitLightens(f: Transfer, flow: Flow, run: Run, b: MIRBlock, rest: seq<MIRBlock>, weight: map<MIRBlock, nat>)
    requires Closed(flow) && b in flow.code && b in flow.preds && b in flow.succ && b in run.outs && b in weight
    requires run.queue != [] && run.queue[0] == b && rest == run.queue[1..]
    requires run.outs[b] == Equation(f, flow, run.outs, b)
    requires WeightAt(f, flow, InsOf(flow, run.outs), weight, b)
    ensures Sum(weight, Visit(f, flow, run, b, rest).queue) < Sum(weight, run.queue)
  {
    hide Closed, Sum, Wavers, Still, OutAfter, Enqueue, InKeys;
    var keys := InKeys(run.outs, flow.preds[b]);
    SumOfRest(weight, run.queue);
    if !Wavers(f, flow.code[b], keys) {
      SteadyBlockIsStill(f, flow.code[b], keys, run.outs[b]);
    } else {
      SumOfEnqueue(weight, rest, flow.succ[b]);
    }
  }

  lemma {:induction false} Drains(f: Transfer, flow: Flow, universe: set<Key>, run: Run,
                                  weight: map<MIRBlock, nat>) returns (n: nat)
    requires Underway(f, flow, universe, run) && Solution(f, flow, run.outs)
    requires weight.Keys == flow.code.Keys && Weighted(f, flow, InsOf(flow, run.outs), weight)
    ensures Turns(f, flow, run, n).queue == []
    decreases Sum(weight, run.queue)
  {
    hide Solution, Turn, Consistent, Growing, Tame, Mirrored, Closed, Fits, Weighted, Sum;
    n := 0;
    if run.queue != [] {
      TurnLightens(f, flow, universe, run, weight);
      n := Drains(f, flow, universe, Turn(f, flow, run), weight);
      TurnsAdd(f, flow, run, 1, n);
      n := 1 + n;
    }
  }

  // ---------------------------------------------------------------- the theorems

  /** The solution that lets out least, among those within the universe. */
  ghost predicate IsLeast(f: Transfer, flow: Flow, universe: set<Key>, sol: Sets)
    requires Closed(flow)
  {
    && Solution(f, flow, sol) && Within(sol, universe)
    && forall other: Sets :: Solution(f, flow, other) && Within(other, universe) ==> Below(sol, other)
  }

  lemma StartIsUnderway(f: Transfer, flow: Flow, universe: set<Key>)
    requires Closed(flow) && Mirrored(flow) && Tame(f, flow, universe)
    ensures Underway(f, flow, universe, Start(flow))
  {
    StartGrows(f, flow, universe);
  }

  lemma {:induction false} RunIsUnderway(f: Transfer, flow: Flow, universe: set<Key>, n: nat)
    requires Closed(flow) && Mirrored(flow) && Tame(f, flow, universe)
    ensures Underway(f, flow, universe, Turns(f, flow, Start(flow), n))
  {
    hide Consistent, Growing, Tame, Mirrored, Closed, Fits, Turn, Start;
    if n == 0 {
      StartGrows(f, flow, universe);
    } else {
      RunIsUnderway(f, flow, universe, n - 1);
      TurnGrows(f, flow, Turns(f, flow, Start(flow), n - 1), universe);
    }
  }

  lemma StartIsBelow(f: Transfer, flow: Flow, sol: Sets)
    requires Closed(flow) && Solution(f, flow, sol)
    ensures Below(Start(flow).outs, sol)
  {
  }

  lemma {:induction false} RunStaysBelow(f: Transfer, flow: Flow, universe: set<Key>, n: nat, sol: Sets)
    requires Closed(flow) && Mirrored(flow) && Tame(f, flow, universe)
    requires Solution(f, flow, sol) && Within(sol, universe)
    ensures Below(Turns(f, flow, Start(flow), n).outs, sol)
  {
    hide Consistent, Growing, Tame, Mirrored, Closed, Fits, Turn, Start, Solution, Within, Below;
    if n == 0 {
      StartIsBelow(f, flow, sol);
    } else {
      RunStaysBelow(f, flow, universe, n - 1, sol);
      RunIsUnderway(f, flow, universe, n - 1);
      TurnStaysBelow(f, flow, Turns(f, flow, Start(flow), n - 1), universe, sol);
    }
  }

  /** A run whose equations are solved has reached the least solution. */
  lemma SolvedIsLeast(f: Transfer, flow: Flow, universe: set<Key>, n: nat)
    requires Closed(flow) && Mirrored(flow) && Tame(f, flow, universe)
    requires Solution(f, flow, Turns(f, flow, Start(flow), n).outs)
    ensures IsLeast(f, flow, universe, Turns(f, flow, Start(flow), n).outs)
  {
    RunIsUnderway(f, flow, universe, n);
    hide Turns, Start, Solution, Below, Tame, Mirrored, Within, Consistent;
    forall other: Sets | Solution(f, flow, other) && Within(other, universe)
      ensures Below(Turns(f, flow, Start(flow), n).outs, other)
    {
      RunStaysBelow(f, flow, universe, n, other);
    }
  }

  /** The worklist runs empty after n turns. */
  ghost predicate Finished(f: Transfer, flow: Flow, n: nat)
    requires Closed(flow)
  {
    Turns(f, flow, Start(flow), n).queue == []
  }

  lemma FinishedStays(f: Transfer, flow: Flow, m: nat, n: nat)
    requires Closed(flow) && Finished(f, flow, m) && m <= n
    ensures Finished(f, flow, n)
  {
    hide Closed, Turns, Start;
    EmptyStays(f, flow, Start(flow), m, n);
  }

  /** What has been computed when the worklist is empty is the least solution. */
  lemma FinishedIsLeast(f: Transfer, flow: Flow, universe: set<Key>, n: nat)
    requires Closed(flow) && Mirrored(flow) && Tame(f, flow, universe) && Finished(f, flow, n)
    ensures IsLeast(f, flow, universe, Turns(f, flow, Start(flow), n).outs)
  {
    EmptyQueueIsSolution(f, flow, n);
    SolvedIsLeast(f, flow, universe, n);
  }

  lemma BelowBothWays(a: Sets, b: Sets)
    requires Below(a, b) && Below(b, a)
    ensures a == b
  {
    assert a.Keys == b.Keys;
    assert forall x :: x in a ==> a[x] == b[x];
  }

  lemma LeastIsBelow(f: Transfer, flow: Flow, universe: set<Key>, sol: Sets, other: Sets)
    requires Closed(flow) && IsLeast(f, flow, universe, sol) && IsLeast(f, flow, universe, other)
    ensures Below(sol, other)
  {
    hide Closed, Solution, Within, Below;
  }

  lemma LeastSolutionsAgree(f: Transfer, flow: Flow, universe: set<Key>, a: Sets, b: Sets)
    requires Closed(flow) && IsLeast(f, flow, universe, a) && IsLeast(f, flow, universe, b)
    ensures a == b
  {
    hide *;
    LeastIsBelow(f, flow, universe, a, b);
    LeastIsBelow(f, flow, universe, b, a);
    BelowBothWays(a, b);
  }

  /** There is a least solution, and some turns reach it, whether or not the worklist ever runs
      empty. */
  lemma LeastSolutionIsReached(f: Transfer, flow: Flow, universe: set<Key>) returns (n: nat)
    requires Closed(flow) && Mirrored(flow) && Tame(f, flow, universe)
    ensures IsLeast(f, flow, universe, Turns(f, flow, Start(flow), n).outs)
  {
    StartIsUnderway(f, flow, universe);
    n := Stabilises(f, flow, universe, Start(flow));
    SolvedIsLeast(f, flow, universe, n);
  }

  /** The worklist runs empty, for every number of turns from some number on, exactly if no
      blocks waver in a circle at the loans of the least solution; otherwise it never does. */
  lemma FinishesIff(f: Transfer, flow: Flow, universe: set<Key>, sol: Sets) returns (enough: nat)
    requires Closed(flow) && Mirrored(flow) && Tame(f, flow, universe) && IsLeast(f, flow, universe, sol)
    ensures !Circling(f, flow, InsOf(flow, sol)) ==> forall n: nat :: n >= enough ==> Finished(f, flow, n)
    ensures Circling(f, flow, InsOf(flow, sol)) ==> forall n: nat :: !Finished(f, flow, n)
  {
    hide Closed, Mirrored, Tame, IsLeast, Circling, Finished, InsOf;
    enough := 0;
    if Circling(f, flow, InsOf(flow, sol)) {
      forall n: nat ensures !Finished(f, flow, n) {
        if Finished(f, flow, n) {
          FinishedDoesNotCircle(f, flow, universe, sol, n);
        }
      }
    } else {
      enough := FinishesUnlessCircling(f, flow, universe, sol);
      forall n: nat | n >= enough ensures Finished(f, flow, n) {
        FinishedStays(f, flow, enough, n);
      }
    }
  }

  lemma FinishedIns(f: Transfer, flow: Flow, n: nat)
    requires Closed(flow) && Mirrored(flow) && Finished(f, flow, n)
    ensures var run := Turns(f, flow, Start(flow), n); run.ins == InsOf(flow, run.outs)
  {
    hide Solution, Mirrored, Turns, Start, InKeys;
    EmptyQueueIsSolution(f, flow, n);
  }

  lemma FinishedDoesNotCircle(f: Transfer, flow: Flow, universe: set<Key>, sol: Sets, n: nat)
    requires Closed(flow) && Mirrored(flow) && Tame(f, flow, universe) && IsLeast(f, flow, universe, sol)
    requires Finished(f, flow, n)
    ensures !Circling(f, flow, InsOf(flow, sol))
  {
    hide Closed, Mirrored, Tame, IsLeast, Turns, Start, Spinning, InsOf;
    var run := Turns(f, flow, Start(flow), n);
    FinishedIsLeast(f, flow, universe, n);
    LeastSolutionsAgree(f, flow, universe, run.outs, sol);
    FinishedIns(f, flow, n);
    forall spin: set<MIRBlock> | spin <= flow.code.Keys && spin != {}
      ensures !Spinning(f, flow, InsOf(flow, sol), spin)
    {
      EmptyQueueDoesNotSpin(f, flow, n, spin);
    }
  }

  lemma DrainsUnlessCircling(f: Transfer, flow: Flow, universe: set<Key>, run: Run) returns (n: nat)
    requires Underway(f, flow, universe, run) && Solution(f, flow, run.outs)
    requires !Circling(f, flow, InsOf(flow, run.outs))
    ensures Turns(f, flow, run, n).queue == []
  {
    hide Closed, Fits, Consistent, Growing, Tame, Mirrored, Solution, Circling, Turns, InsOf, Weighted;
    NothingWeighted(f, flow, InsOf(flow, run.outs));
    var weight := FindWeights(f, flow, InsOf(flow, run.outs), map[]);
    n := Drains(f, flow, universe, run, weight);
  }

  lemma FinishesUnlessCircling(f: Transfer, flow: Flow, universe: set<Key>, sol: Sets) returns (n: nat)
    requires Closed(flow) && Mirrored(flow) && Tame(f, flow, universe) && IsLeast(f, flow, universe, sol)
    requires !Circling(f, flow, InsOf(flow, sol))
    ensures Finished(f, flow, n)
  {
    hide Closed, Fits, Consistent, Growing, Tame, Mirrored, IsLeast, Solution, Circling, Turns, InsOf, Start;
    StartIsUnderway(f, flow, universe);
    var m := Stabilises(f, flow, universe, Start(flow));
    SolvedIsLeast(f, flow, universe, m);
    var run := Turns(f, flow, Start(flow), m);
    LeastSolutionsAgree(f, flow, universe, run.outs, sol);
    var k := DrainsUnlessCircling(f, flow, universe, run);
    TurnsAdd(f, flow, Start(flow), m, k);
    n := m + k;
  }

  lemma NothingWeighted(f: Transfer, flow: Flow, ins: Sets)
    requires Closed(flow) && ins.Keys == flow.code.Keys
    ensures Weighted(f, flow, ins, map[])
  {
  }

  /** Blocks that waver at some loans each lead to another one of them, or to itself. */
  ghost predicate MayCircle(f: Transfer, flow: Flow, universe: set<Key>)
    requires Closed(flow)
  {
    exists spin: set<MIRBlock> :: spin <= flow.code.Keys && spin != {} && MayCircleIn(f, flow, universe, spin)
  }

  ghost predicate MayWaver(f: Transfer, code: seq<MIRInst>, universe: set<Key>) {
    exists keys :: keys <= universe && Wavers(f, code, keys)
  }

  ghost predicate MayCircleIn(f: Transfer, flow: Flow, universe: set<Key>, spin: set<MIRBlock>)
    requires Closed(flow)
  {
    forall b :: b in spin ==>
      b in flow.code && MayWaver(f, flow.code[b], universe) && exists s :: s in flow.succ[b] && s in spin
  }

  /** In particular the worklist runs empty if every cycle holds a block that never wavers. */
  lemma CalmCyclesFinish(f: Transfer, flow: Flow, universe: set<Key>) returns (enough: nat)
    requires Closed(flow) && Mirrored(flow) && Tame(f, flow, universe) && !MayCircle(f, flow, universe)
    ensures forall n: nat :: n >= enough ==> Finished(f, flow, n)
  {
    hide Closed, Mirrored, Tame, Circling, Finished, InsOf, MayCircle, Turns, Start, Solution;
    var n := LeastSolutionIsReached(f, flow, universe);
    var sol := Turns(f, flow, Start(flow), n).outs;
    CirclingMayCircle(f, flow, universe, sol);
    enough := FinishesIff(f, flow, universe, sol);
  }

  lemma CirclingMayCircle(f: Transfer, flow: Flow, universe: set<Key>, sol: Sets)
    requires Closed(flow) && Within(sol, universe)
    ensures Circling(f, flow, InsOf(flow, sol)) ==> MayCircle(f, flow, universe)
  {
    InsOfWithin(flow, sol, universe);
    hide Wavers, NoDuplicates, InKeys, InsOf, Closed, Spinning, MayCircleIn;
    forall spin: set<MIRBlock> | spin <= flow.code.Keys && spin != {} && Spinning(f, flow, InsOf(flow, sol), spin)
      ensures MayCircleIn(f, flow, universe, spin)
    {
      SpinningMayCircle(f, flow, universe, InsOf(flow, sol), spin);
    }
  }

  lemma InsOfWithin(flow: Flow, sol: Sets, universe: set<Key>)
    requires Closed(flow) && Within(sol, universe)
    ensures Within(InsOf(flow, sol), universe)
  {
    forall b | b in flow.code ensures InKeys(sol, flow.preds[b]) <= universe {
      InKeysWithin(sol, flow.preds[b], universe);
    }
  }

  lemma SpinningMayCircle(f: Transfer, flow: Flow, universe: set<Key>, ins: Sets, spin: set<MIRBlock>)
    requires Closed(flow) && Within(ins, universe) && Spinning(f, flow, ins, spin)
    ensures MayCircleIn(f, flow, universe, spin)
  {
    hide Wavers, NoDuplicates;
  }

  // ---------------------------------------------------------------- blocks that waver at any loans

  ghost predicate Restless(f: Transfer, code: seq<MIRInst>) {
    forall keys :: Wavers(f, code, keys)
  }

  lemma {:induction false} QueuedOrVisited(f: Transfer, flow: Flow, n: nat, b: MIRBlock)
    requires Closed(flow) && b in flow.code
    ensures var run := Turns(f, flow, Start(flow), n); b in run.queue || b in run.ins
  {
    hide Turn, Start, Fits, Closed;
    if n == 0 {
      StartQueues(flow, b);
    } else {
      QueuedOrVisited(f, flow, n - 1, b);
      TurnQueuesOrVisits(f, flow, Turns(f, flow, Start(flow), n - 1), b);
    }
  }

  lemma StartQueues(flow: Flow, b: MIRBlock)
    requires Closed(flow) && b in flow.code
    ensures b in Start(flow).queue
  {
  }

  lemma TurnQueuesOrVisits(f: Transfer, flow: Flow, run: Run, b: MIRBlock)
    requires Closed(flow) && Fits(flow, run) && (b in run.queue || b in run.ins)
    ensures b in Turn(f, flow, run).queue || b in Turn(f, flow, run).ins
  {
    if run.queue != [] {
      RestFits(run.queue);
      QueueAfterTurn(f, flow, run);
      hide Closed, NoDuplicates, Still, Enqueue, OutAfter, InKeys;
    }
  }

  lemma FinishedVisitsAll(f: Transfer, flow: Flow, n: nat)
    requires Closed(flow) && Finished(f, flow, n)
    ensures flow.code.Keys <= Turns(f, flow, Start(flow), n).ins.Keys
  {
    hide Closed, Turns, Start;
    forall b | b in flow.code.Keys ensures b in Turns(f, flow, Start(flow), n).ins.Keys {
      QueuedOrVisited(f, flow, n, b);
    }
  }

  /** Restless blocks each of which leads to another one of them, or to itself. */
  ghost predicate RestlessCircle(f: Transfer, flow: Flow, spin: set<MIRBlock>)
    requires Closed(flow)
  {
    forall b :: b in spin ==> b in flow.code && Restless(f, flow.code[b]) && exists s :: s in flow.succ[b] && s in spin
  }

  lemma RestlessSpins(f: Transfer, flow: Flow, ins: Sets, spin: set<MIRBlock>)
    requires Closed(flow) && RestlessCircle(f, flow, spin) && flow.code.Keys <= ins.Keys
    ensures Spinning(f, flow, ins, spin)
  {
    hide Wavers, NoDuplicates;
  }

  /** Restless blocks in a circle keep the worklist busy for ever, whatever the transfer does
      elsewhere. */
  lemma RestlessNeverFinishes(f: Transfer, flow: Flow, spin: set<MIRBlock>, n: nat)
    requires Closed(flow) && spin != {} && RestlessCircle(f, flow, spin)
    ensures !Finished(f, flow, n)
  {
    hide Closed, RestlessCircle, Turns, Start, Spinning;
    if Finished(f, flow, n) {
      FinishedVisitsAll(f, flow, n);
      RestlessSpins(f, flow, Turns(f, flow, Start(flow), n).ins, spin);
      EmptyQueueDoesNotSpin(f, flow, n, spin);
    }
  }

  lemma {:induction false} StaysEnded(f: Transfer, code: seq<MIRInst>, loans: seq<Loan>, j: nat, n: nat, key: Key)
    requires j < n <= |code| && forall a :: key !in Keys(f(code[j], a))
    requires forall k, a :: j < k < |code| && key !in Keys(a) ==> key !in Keys(f(code[k], a))
    ensures key !in Keys(Through(f, code, loans, n))
  {
    hide Keys;
    if n > j + 1 {
      StaysEnded(f, code, loans, j, n - 1, key);
    }
  }

  /** For transfers that end loans: a loan that one instruction makes, a later one ends and none
      after that makes again. */
  lemma GenThenKillIsRestless(f: Transfer, code: seq<MIRInst>, i: nat, j: nat, key: Key)
    requires i < j < |code| && (forall a :: key in Keys(f(code[i], a))) && (forall a :: key !in Keys(f(code[j], a)))
    requires forall k, a :: j < k < |code| && key !in Keys(a) ==> key !in Keys(f(code[k], a))
    ensures Restless(f, code)
  {
    hide Keys;
    forall keys ensures Wavers(f, code, keys) {
      StaysEnded(f, code, ListOf(keys), j, |code|, key);
      assert Effect(f, code, keys, i + 1) != Effect(f, code, keys, |code|);
    }
  }

  /** With such a transfer, a block that makes a loan, ends it and branches back to itself keeps
      the worklist busy for ever. */
  lemma LoopNeverFinishes(f: Transfer, flow: Flow, b: MIRBlock, gen: MIRInst, kill: MIRInst, branch: MIRInst, key: Key,
                          n: nat)
    requires Closed(flow) && b in flow.code && flow.code[b] == [gen, kill, branch]
    requires branch.kind == Branch(b) && forall t :: t in Targets(branch.kind) ==> t in flow.succ[b]
    requires (forall a :: key in Keys(f(gen, a))) && (forall a :: key !in Keys(f(kill, a)))
    requires forall a :: f(branch, a) == a
    ensures !Finished(f, flow, n)
  {
    GenThenKillIsRestless(f, flow.code[b], 0, 1, key);
    assert b in Targets(branch.kind);
    RestlessNeverFinishes(f, flow, {b}, n);
  }
}
