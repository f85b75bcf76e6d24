/** What the iteration computes with the effects of the checker itself: it ends on every function,
    and a place counts as moved out of exactly where a path leads from a move. */
module LoanMoves {
  import opened Mir
  import opened Loans
  import opened LoanTransfer
  import opened LoanEffects
  import opened LoanRuns
  import opened LoanTermination
  import opened LoanGrowth

  // ---------------------------------------------------------------- one block

  ghost predicate HaveOperands(code: seq<MIRInst>) {
    forall k :: 0 <= k < |code| ==> HasOperand(code[k])
  }

  /** The moves among the first n instructions. */
  ghost function Moves(facts: Facts, code: seq<MIRInst>, n: nat): set<Key>
    requires n <= |code|
  {
    if n == 0 then {} else Moves(facts, code, n - 1) + MovedKeys(facts, code[n - 1])
  }

  lemma {:induction false} ThroughIsMoves(facts: Facts, code: seq<MIRInst>, loans: seq<Loan>, n: nat)
    requires HaveOperands(code) && HeldByNone(Keys(loans)) && n <= |code|
    ensures var after := Keys(Through(Own(facts), code, loans, n));
      after == Keys(loans) + Moves(facts, code, n) && HeldByNone(after)
  {
    hide Keys, HeldByNone, StepKeys, Step, MovedKeys, HasOperand;
    if n > 0 {
      ThroughIsMoves(facts, code, loans, n - 1);
      StepIs(facts, code[n - 1], Through(Own(facts), code, loans, n - 1));
      StepOnlyMoves(facts, code[n - 1], Keys(Through(Own(facts), code, loans, n - 1)));
    }
  }

  /** Of loans that no pointer holds a block ends none, and it adds its moves. */
  lemma EffectIsMoves(facts: Facts, code: seq<MIRInst>, keys: set<Key>, n: nat)
    requires HaveOperands(code) && HeldByNone(keys) && n <= |code|
    ensures Effect(Own(facts), code, keys, n) == keys + Moves(facts, code, n)
  {
    ThroughIsMoves(facts, code, ListOf(keys), n);
  }

  /** All the moves that a function can make. */
  ghost function MovesOf(facts: Facts, insts: set<MIRInst>): set<Key> {
    set i, k | i in insts && k in MovedKeys(facts, i) :: k
  }

  lemma MovesAreHeldByNone(facts: Facts, insts: set<MIRInst>)
    ensures HeldByNone(MovesOf(facts, insts))
  {
    hide IsMoveType;
  }

  lemma {:induction false} MovesInside(facts: Facts, insts: set<MIRInst>, code: seq<MIRInst>, m: nat, n: nat)
    requires Inside(code, insts) && m <= n <= |code|
    ensures Moves(facts, code, m) <= Moves(facts, code, n) <= MovesOf(facts, insts)
    decreases n
  {
    hide MovedKeys;
    if n > 0 {
      assert code[n - 1] in insts;
      MovesInside(facts, insts, code, if m < n then m else n - 1, n - 1);
    }
  }

  // ---------------------------------------------------------------- the iteration ends

  /** The function is well formed, and its casts and loads have operands. */
  ghost predicate Proper(flow: Flow, insts: set<MIRInst>) {
    && Closed(flow)
    && (forall b :: b in flow.code ==> Inside(flow.code[b], insts))
    && (forall i :: i in insts ==> HasOperand(i))
  }

  lemma BlockHasOperands(flow: Flow, insts: set<MIRInst>, b: MIRBlock)
    requires Proper(flow, insts) && b in flow.code
    ensures Inside(flow.code[b], insts) && HaveOperands(flow.code[b])
  {
    hide Closed, HasOperand;
  }

  lemma OwnIsTame(facts: Facts, flow: Flow, insts: set<MIRInst>)
    requires Proper(flow, insts)
    ensures Tame(Own(facts), flow, MovesOf(facts, insts)) && AllOnlyAdd(Own(facts), flow, MovesOf(facts, insts))
  {
    hide Closed, HasOperand, Effect, Moves, MovesOf, HeldByNone, OutAfter;
    forall b | b in flow.code
      ensures TameBlock(Own(facts), flow.code[b], MovesOf(facts, insts))
      ensures OnlyAdds(Own(facts), flow.code[b], MovesOf(facts, insts))
    {
      BlockHasOperands(flow, insts, b);
      BlockIsTame(facts, insts, flow.code[b]);
      BlockOnlyAdds(facts, insts, flow.code[b]);
    }
  }

  lemma FewerAreHeldByNone(s: set<Key>, t: set<Key>)
    requires s <= t && HeldByNone(t)
    ensures HeldByNone(s)
  {
  }

  lemma BlockIsTame(facts: Facts, insts: set<MIRInst>, code: seq<MIRInst>)
    requires Inside(code, insts) && HaveOperands(code)
    ensures TameBlock(Own(facts), code, MovesOf(facts, insts))
  {
    var universe := MovesOf(facts, insts);
    MovesAreHeldByNone(facts, insts);
    MovesInside(facts, insts, code, 0, |code|);
    hide Effect, Moves, MovesOf, HeldByNone, Own, HaveOperands, Inside;
    forall s: set<Key>, t: set<Key> {:trigger OutAfter(Own(facts), code, s, {}), OutAfter(Own(facts), code, t, {})}
      | s <= t <= universe
      ensures OutAfter(Own(facts), code, s, {}) <= OutAfter(Own(facts), code, t, {}) <= universe
    {
      FewerAreHeldByNone(s, universe);
      FewerAreHeldByNone(t, universe);
      EffectIsMoves(facts, code, s, |code|);
      EffectIsMoves(facts, code, t, |code|);
    }
  }

  lemma BlockOnlyAdds(facts: Facts, insts: set<MIRInst>, code: seq<MIRInst>)
    requires Inside(code, insts) && HaveOperands(code)
    ensures OnlyAdds(Own(facts), code, MovesOf(facts, insts))
  {
    var universe := MovesOf(facts, insts);
    MovesAreHeldByNone(facts, insts);
    hide Effect, Moves, MovesOf, HeldByNone, Own, HaveOperands, Inside;
    forall keys, k | keys <= universe && 0 <= k < |code|
      ensures Effect(Own(facts), code, keys, k) <= Effect(Own(facts), code, keys, k + 1)
    {
      FewerAreHeldByNone(keys, universe);
      EffectIsMoves(facts, code, keys, k);
      EffectIsMoves(facts, code, keys, k + 1);
      MovesInside(facts, insts, code, k, k + 1);
    }
  }

  /** With its own effects the worklist iteration ends on every function. */
  lemma OwnFinishes(facts: Facts, flow: Flow, insts: set<MIRInst>) returns (enough: nat)
    requires Proper(flow, insts) && LeadsBack(flow)
    ensures forall n: nat :: n >= enough ==> Finished(Own(facts), flow, n)
  {
    OwnIsTame(facts, flow, insts);
    hide Tame, AllOnlyAdd, LeadsBack, Own, Finished;
    enough := AddingFinishes(Own(facts), flow, MovesOf(facts, insts));
  }

  // ---------------------------------------------------------------- what it has then computed

  /** A path from a block that moves out of the place to b, each block being a recorded
      predecessor of the next. Blocks without instructions let nothing through. */
  ghost predicate MovePath(facts: Facts, flow: Flow, older path: seq<MIRBlock>, key: Key, b: MIRBlock)
    requires Closed(flow)
  {
    && |path| > 0 && path[|path| - 1] == b
    && (forall k :: 0 <= k < |path| ==> path[k] in flow.code && path[k] in flow.preds && flow.code[path[k]] != [])
    && (forall k :: 0 < k < |path| ==> path[k - 1] in flow.preds[path[k]])
    && key in Moves(facts, flow.code[path[0]], |flow.code[path[0]]|)
  }

  ghost predicate MovedOnSomePath(facts: Facts, flow: Flow, key: Key, b: MIRBlock)
    requires Closed(flow)
  {
    exists path :: MovePath(facts, flow, path, key, b)
  }

  lemma MovesHere(facts: Facts, flow: Flow, key: Key, b: MIRBlock)
    requires Closed(flow) && b in flow.code && flow.code[b] != []
    requires key in Moves(facts, flow.code[b], |flow.code[b]|)
    ensures MovedOnSomePath(facts, flow, key, b)
  {
    hide NoDuplicates, Moves;
    assert MovePath(facts, flow, [b], key, b);
  }

  lemma MovesGoOn(facts: Facts, flow: Flow, key: Key, p: MIRBlock, b: MIRBlock)
    requires Closed(flow) && b in flow.code && flow.code[b] != [] && b in flow.preds && p in flow.preds[b]
    requires MovedOnSomePath(facts, flow, key, p)
    ensures MovedOnSomePath(facts, flow, key, b)
  {
    hide NoDuplicates, Moves, Closed;
    var path :| MovePath(facts, flow, path, key, p);
    assert MovePath(facts, flow, path + [b], key, b);
  }

  /** What blocks let out comes from moves on paths. */
  ghost predicate OnPaths(facts: Facts, flow: Flow, outs: Sets)
    requires Closed(flow)
  {
    forall b, key :: b in outs && key in outs[b] ==> key.pointer == NULL && MovedOnSomePath(facts, flow, key, b)
  }

  lemma VisitKeepsPaths(facts: Facts, flow: Flow, insts: set<MIRInst>, outs: Sets, b: MIRBlock, key: Key)
    requires Proper(flow, insts) && OnPaths(facts, flow, outs)
    requires b in flow.code && b in flow.preds && flow.code[b] != []
    requires key in OutAfter(Own(facts), flow.code[b], InKeys(outs, flow.preds[b]), {})
    ensures key.pointer == NULL && MovedOnSomePath(facts, flow, key, b)
  {
    var keys := InKeys(outs, flow.preds[b]);
    var code := flow.code[b];
    ComesInByNone(facts, flow, outs, flow.preds[b]);
    BlockHasOperands(flow, insts, b);
    EffectIsMoves(facts, code, keys, |code|);
    MovesInside(facts, insts, code, 0, |code|);
    MovesAreHeldByNone(facts, insts);
    hide Effect, Moves, MovesOf, MovedOnSomePath, Closed;
    if key in keys {
      var p :| p in flow.preds[b] && p in outs && key in outs[p];
      MovesGoOn(facts, flow, key, p, b);
    } else {
      MovesHere(facts, flow, key, b);
    }
  }

  lemma TurnKeepsPaths(facts: Facts, flow: Flow, insts: set<MIRInst>, run: Run)
    requires Proper(flow, insts) && Fits(flow, run) && OnPaths(facts, flow, run.outs)
    ensures OnPaths(facts, flow, Turn(Own(facts), flow, run).outs)
  {
    if run.queue != [] {
      var b := run.queue[0];
      var outs' := Turn(Own(facts), flow, run).outs;
      TurnOuts(Own(facts), flow, run);
      hide Effect, Closed, Turn, MovedOnSomePath, InKeys;
      forall c, key: Key | c in outs' && key in outs'[c]
        ensures key.pointer == NULL && MovedOnSomePath(facts, flow, key, c)
      {
        if c == b && flow.code[b] != [] {
          VisitKeepsPaths(facts, flow, insts, run.outs, b, key);
        }
      }
    }
  }

  lemma {:induction false} RunKeepsPaths(facts: Facts, flow: Flow, insts: set<MIRInst>, n: nat)
    requires Proper(flow, insts)
    ensures OnPaths(facts, flow, Turns(Own(facts), flow, Start(flow), n).outs)
  {
    hide Closed, Turn, MovedOnSomePath, Own, Fits;
    if n > 0 {
      RunKeepsPaths(facts, flow, insts, n - 1);
      hide Start;
      TurnKeepsPaths(facts, flow, insts, Turns(Own(facts), flow, Start(flow), n - 1));
    }
  }

  /** A solution lets out of a block what comes in and what the block moves. */
  lemma SolutionAt(facts: Facts, flow: Flow, insts: set<MIRInst>, outs: Sets, b: MIRBlock)
    requires Proper(flow, insts) && Solution(Own(facts), flow, outs) && OnPaths(facts, flow, outs)
    requires b in flow.code && b in flow.preds && flow.code[b] != []
    ensures b in outs
    ensures outs[b] == InKeys(outs, flow.preds[b]) + Moves(facts, flow.code[b], |flow.code[b]|)
  {
    SolvedAt(Own(facts), flow, outs, b);
    hide Effect, Moves, OnPaths, HeldByNone, InKeys, Solution, Own, HaveOperands, Proper;
    ComesInByNone(facts, flow, outs, flow.preds[b]);
    BlockHasOperands(flow, insts, b);
    EffectIsMoves(facts, flow.code[b], InKeys(outs, flow.preds[b]), |flow.code[b]|);
  }

  lemma SolvedAt(f: Transfer, flow: Flow, outs: Sets, b: MIRBlock)
    requires Closed(flow) && Solution(f, flow, outs) && b in flow.code && b in flow.preds
    ensures b in outs && outs[b] == Equation(f, flow, outs, b)
  {
    hide Closed, Equation;
  }

  lemma ComesInByNone(facts: Facts, flow: Flow, outs: Sets, preds: seq<MIRBlock>)
    requires Closed(flow) && OnPaths(facts, flow, outs)
    ensures HeldByNone(InKeys(outs, preds))
  {
    hide Closed, MovedOnSomePath;
  }

  lemma PathFront(facts: Facts, flow: Flow, path: seq<MIRBlock>, key: Key, b: MIRBlock)
    requires Closed(flow) && MovePath(facts, flow, path, key, b) && |path| > 1
    ensures b in flow.preds && path[|path| - 2] in flow.preds[b]
    ensures MovePath(facts, flow, path[..|path| - 1], key, path[|path| - 2])
  {
    hide Closed, Moves;
  }

  lemma {:induction false} PathArrives(facts: Facts, flow: Flow, insts: set<MIRInst>, outs: Sets, path: seq<MIRBlock>,
                                       key: Key, b: MIRBlock)
    requires Proper(flow, insts) && Solution(Own(facts), flow, outs) && OnPaths(facts, flow, outs)
    requires MovePath(facts, flow, path, key, b)
    ensures b in outs && key in outs[b]
    decreases |path|
  {
    hide Moves, OnPaths, Closed, Solution, Own;
    assert path[|path| - 1] == b;
    SolutionAt(facts, flow, insts, outs, b);
    if |path| > 1 {
      hide MovePath;
      PathFront(facts, flow, path, key, b);
      PathArrives(facts, flow, insts, outs, path[..|path| - 1], key, path[|path| - 2]);
    }
  }

  /** When the worklist is empty, a block lets out a loan exactly if no pointer holds it and some
      path to the block starts with a move out of its place. */
  lemma MovedIffOnPath(facts: Facts, flow: Flow, insts: set<MIRInst>, n: nat, b: MIRBlock, key: Key)
    requires Proper(flow, insts) && Mirrored(flow) && Finished(Own(facts), flow, n) && b in flow.code
    ensures var outs := Turns(Own(facts), flow, Start(flow), n).outs;
      b in outs && (key in outs[b] <==> MovedOnSomePath(facts, flow, key, b))
  {
    EmptyQueueIsSolution(Own(facts), flow, n);
    RunKeepsPaths(facts, flow, insts, n);
    var outs := Turns(Own(facts), flow, Start(flow), n).outs;
    hide Closed, Turns, Start, Own, Mirrored, Equation, MovePath;
    if MovedOnSomePath(facts, flow, key, b) {
      var path :| MovePath(facts, flow, path, key, b);
      PathArrives(facts, flow, insts, outs, path, key, b);
    }
  }

  // ---------------------------------------------------------------- operands are needed

  /** Whatever the operands are, blocks turn more loans into more. */
  lemma OwnIsTameAnyway(facts: Facts, flow: Flow, insts: set<MIRInst>)
    requires forall b :: b in flow.code ==> Inside(flow.code[b], insts)
    ensures Tame(Own(facts), flow, Universe(facts, insts))
  {
    OwnRespects(facts, insts);
    OwnIsMonotone(facts, insts);
    hide Respects, Monotone, Own, Universe, Inside;
    TameInstructions(Own(facts), insts, flow, Universe(facts, insts));
  }

  lemma ThroughThree(f: Transfer, code: seq<MIRInst>, loans: seq<Loan>)
    requires |code| == 3
    ensures Through(f, code, loans, 1) == f(code[0], loans)
    ensures Through(f, code, loans, 2) == f(code[1], Through(f, code, loans, 1))
    ensures Through(f, code, loans, 3) == f(code[2], Through(f, code, loans, 2))
  {
  }

  /** A cast of null is held to inherit what no pointer holds. If the sweep after a load takes that
      loan out again, the block wavers, and on a cycle it keeps the worklist busy for ever. */
  lemma CastOfNullLoops(facts: Facts, flow: Flow, b: MIRBlock, move: MIRInst, cast: MIRInst, load: MIRInst, base: nat,
                        n: nat)
    requires Closed(flow) && b in flow.code && flow.code[b] == [move, cast, load] && b in flow.succ && b in flow.succ[b]
    requires Key(base, NULL) in MovedKeys(facts, move) && cast.kind == Cast(NullValue)
    requires load.kind.Load? && !IsMoveType(facts.typeOf(load), facts.isBorrow(load))
    requires facts.Ends(load, Key(base, facts.Address(InstValue(cast))))
    ensures !Finished(Own(facts), flow, n)
  {
    var code := flow.code[b];
    forall keys ensures Wavers(Own(facts), code, keys) {
      CastOfNullWavers(facts, code, keys, base);
    }
    assert Restless(Own(facts), flow.code[b]);
    hide Own, Wavers, Closed, Restless;
    assert RestlessCircle(Own(facts), flow, {b});
    RestlessNeverFinishes(Own(facts), flow, {b}, n);
  }

  lemma CastOfNullWavers(facts: Facts, code: seq<MIRInst>, keys: set<Key>, base: nat)
    requires |code| == 3 && Key(base, NULL) in MovedKeys(facts, code[0]) && code[1].kind == Cast(NullValue)
    requires code[2].kind.Load? && !IsMoveType(facts.typeOf(code[2]), facts.isBorrow(code[2]))
    requires facts.Ends(code[2], Key(base, facts.Address(InstValue(code[1]))))
    ensures Wavers(Own(facts), code, keys)
  {
    hide IsMoveType, IsAggregate;
    var handed := Key(base, facts.Address(InstValue(code[1])));
    var loans := ListOf(keys);
    ThroughThree(Own(facts), code, loans);
    StepIs(facts, code[0], loans);
    StepIs(facts, code[1], Through(Own(facts), code, loans, 1));
    StepIs(facts, code[2], Through(Own(facts), code, loans, 2));
    hide Keys, Step, Through;
    assert Key(base, NULL) in Effect(Own(facts), code, keys, 1);
    assert handed in Effect(Own(facts), code, keys, 2);
    assert handed !in Effect(Own(facts), code, keys, 3);
  }
}
