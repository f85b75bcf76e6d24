/** What the recorded loans are, not only which: each is that of a place a load moves out of, with
    the projections of the place. */
module LoanContents {
  import opened Mir
  import opened Loans
  import opened LoanTransfer
  import opened LoanEffects
  import opened LoanRuns
  import opened LoanMoves
  import TypeInterning

  /** The instruction is a load, not a borrow and not only read, of a promise or an owned pointer,
      and the place is one that its operand leads to: a place in an alloca. */
  predicate MovesOutOf(facts: Facts, load: MIRInst, p: Place) {
    && load.kind.Load? && !load.kind.loadPtr.NullValue?
    && !facts.isBorrow(load) && !facts.isOnlyRead(load)
    && facts.typeOf(load).Type?
    && (facts.typeOf(load).kind == PromiseKind ||
        (facts.typeOf(load).kind == PointerKind && facts.typeOf(load).own == TypeInterning.Owned))
    && p in facts.places(1 + facts.number(load.kind.loadPtr)) && p.base != 0 && facts.isAlloca(p.base)
  }

  function MoveOf(p: Place): Loan {
    Loan(p.base, p.projections, 0, true)
  }

  ghost predicate AllMoves(loans: seq<Loan>) {
    forall l :: l in loans ==> l.pointer == 0
  }

  predicate HoldsBase(loans: seq<Loan>, base: nat) {
    exists l :: l in loans && l.base == base && l.pointer == 0
  }

  /** The k-th place is moved out of, and is the first with its base that is, among those whose
      base is not held. */
  predicate IsNewMove(facts: Facts, load: MIRInst, loans: seq<Loan>, places: seq<Place>, k: nat)
    requires k < |places|
  {
    && MovesOutOf(facts, load, places[k]) && !HoldsBase(loans, places[k].base)
    && forall j :: 0 <= j < k && MovesOutOf(facts, load, places[j]) ==> places[j].base != places[k].base
  }

  /** The loans after are those before and the new moves, in the order of the places. */
  ghost predicate AddsMoves(facts: Facts, load: MIRInst, places: seq<Place>, before: seq<Loan>, after: seq<Loan>,
                            at: seq<nat>) {
    && |after| == |before| + |at| && before <= after
    && (forall n :: 0 <= n < |at| ==>
          at[n] < |places| && IsNewMove(facts, load, before, places, at[n]) &&
          after[|before| + n] == MoveOf(places[at[n]]))
    && (forall m, n :: 0 <= m < n < |at| ==> at[m] < at[n])
    && (forall k :: 0 <= k < |places| && IsNewMove(facts, load, before, places, k) ==> k in at)
  }

  /** The places that the operand of a load leads to. */
  function PlacesRead(facts: Facts, load: MIRInst): seq<Place>
    requires load.kind.Load?
  {
    facts.places(1 + facts.number(load.kind.loadPtr))
  }

  /** What an instruction leaves of loans that no pointer holds. */
  ghost predicate NextLoans(facts: Facts, inst: MIRInst, before: seq<Loan>, after: seq<Loan>) {
    if inst.kind.Load? && !inst.kind.loadPtr.NullValue? then
      exists at :: AddsMoves(facts, inst, PlacesRead(facts, inst), before, after, at)
    else after == before
  }

  // ---------------------------------------------------------------- the effects do that

  /** The list after the first places are taken up. */
  lemma {:induction false} BorrowingAdds(facts: Facts, load: MIRInst, loans: seq<Loan>, all: seq<Place>, n: nat)
      returns (at: seq<nat>)
    requires n <= |all| && AllMoves(loans)
    requires forall p :: p in all ==> (facts.Movable(p) <==> MovesOutOf(facts, load, p))
    ensures AddsMoves(facts, load, all[..n], loans, Borrowing(loans, all[..n], p => facts.Movable(p), NULL, true), at)
  {
    var after := Borrowing(loans, all[..n], p => facts.Movable(p), NULL, true);
    at := [];
    if n > 0 {
      at := BorrowingAdds(facts, load, loans, all, n - 1);
      assert all[..n][..n - 1] == all[..n - 1] && all[..n] == all[..n - 1] + [all[n - 1]];
      var before := Borrowing(loans, all[..n - 1], p => facts.Movable(p), NULL, true);
      at := PlaceAdds(facts, load, loans, before, all[..n - 1], all[n - 1], at);
    }
  }

  lemma PlaceAdds(facts: Facts, load: MIRInst, loans: seq<Loan>, before: seq<Loan>, places: seq<Place>, p: Place,
                  at: seq<nat>) returns (at': seq<nat>)
    requires AllMoves(loans) && AddsMoves(facts, load, places, loans, before, at)
    requires facts.Movable(p) <==> MovesOutOf(facts, load, p)
    ensures AddsMoves(facts, load, places + [p], loans,
                      if facts.Movable(p) then Added(before, Loan(p.base, p.projections, NULL, true)) else before, at')
  {
    at' := at;
    var longer := places + [p];
    hide MovesOutOf;
    assert forall k :: 0 <= k < |places| ==>
      (IsNewMove(facts, load, loans, longer, k) <==> IsNewMove(facts, load, loans, places, k)) &&
      longer[k] == places[k];
    HeldAlready(facts, load, loans, before, places, p, at);
    if IsNewMove(facts, load, loans, longer, |places|) {
      at' := at + [|places|];
      assert forall k :: k in at ==> k in at';
      assert at'[|at|] == |places|;
    }
  }

  /** Whether the place adds a loan is whether it is a new move. */
  lemma HeldAlready(facts: Facts, load: MIRInst, loans: seq<Loan>, before: seq<Loan>, places: seq<Place>, p: Place,
                    at: seq<nat>)
    requires AllMoves(loans) && AddsMoves(facts, load, places, loans, before, at)
    ensures MovesOutOf(facts, load, p) ==>
      (Holds(before, MoveOf(p)) <==> !IsNewMove(facts, load, loans, places + [p], |places|))
  {
    var longer := places + [p];
    hide MovesOutOf;
    if MovesOutOf(facts, load, p) {
      HeldBaseIsHeld(loans, before, p);
      if !HoldsBase(loans, p.base) {
        MovedBaseIsHeld(facts, load, loans, before, places, p, at);
      }
      if Holds(before, MoveOf(p)) {
        var k :| 0 <= k < |before| && KeyOf(before[k]) == KeyOf(MoveOf(p));
        if k < |loans| {
          assert before[k] == loans[k] && HoldsBase(loans, p.base);
        } else {
          assert before[|loans| + (k - |loans|)] == MoveOf(places[at[k - |loans|]]);
          assert longer[at[k - |loans|]].base == p.base;
        }
      }
    }
  }

  lemma HeldBaseIsHeld(loans: seq<Loan>, before: seq<Loan>, p: Place)
    requires loans <= before
    ensures HoldsBase(loans, p.base) ==> Holds(before, MoveOf(p))
  {
    if l :| l in loans && l.base == p.base && l.pointer == 0 {
      var k :| 0 <= k < |loans| && loans[k] == l;
      assert before[k] == l;
    }
  }

  lemma MovedBaseIsHeld(facts: Facts, load: MIRInst, loans: seq<Loan>, before: seq<Loan>, places: seq<Place>, p: Place,
                        at: seq<nat>)
    requires AddsMoves(facts, load, places, loans, before, at) && !HoldsBase(loans, p.base)
    ensures forall j :: 0 <= j < |places| && MovesOutOf(facts, load, places[j]) && places[j].base == p.base ==>
      Holds(before, MoveOf(p))
  {
    hide MovesOutOf;
    forall j | 0 <= j < |places| && MovesOutOf(facts, load, places[j]) && places[j].base == p.base
      ensures Holds(before, MoveOf(p))
    {
      var first := FirstMove(facts, load, places, p.base, j);
      assert IsNewMove(facts, load, loans, places, first);
      var n :| 0 <= n < |at| && at[n] == first;
      assert KeyOf(before[|loans| + n]) == KeyOf(MoveOf(p));
    }
  }

  lemma {:induction false} FirstMove(facts: Facts, load: MIRInst, places: seq<Place>, base: nat, j: nat)
      returns (first: nat)
    requires j < |places| && MovesOutOf(facts, load, places[j]) && places[j].base == base
    ensures first <= j && MovesOutOf(facts, load, places[first]) && places[first].base == base
    ensures forall i :: 0 <= i < first && MovesOutOf(facts, load, places[i]) ==> places[i].base != base
    decreases j
  {
    hide MovesOutOf;
    first := j;
    if i :| 0 <= i < j && MovesOutOf(facts, load, places[i]) && places[i].base == base {
      first := FirstMove(facts, load, places, base, i);
    }
  }

  lemma MovableIsMove(facts: Facts, load: MIRInst)
    requires load.kind.Load? && !load.kind.loadPtr.NullValue?
    ensures var t := facts.typeOf(load);
      forall p :: p in PlacesRead(facts, load) ==>
        (MovesOutOf(facts, load, p) <==>
           facts.Movable(p) && IsMoveType(t, facts.isBorrow(load)) && !facts.isOnlyRead(load))
  {
  }

  lemma {:induction false} NothingInherited(loans: seq<Loan>, n: nat, qualifies: Key -> bool, pointer: nat)
    requires n <= |loans| && forall l :: l in loans ==> !qualifies(KeyOf(l))
    ensures Inherited(loans, n, qualifies, pointer) == loans
  {
    if n > 0 {
      NothingInherited(loans, n - 1, qualifies, pointer);
    }
  }

  lemma {:induction false} NothingEnds(loans: seq<Loan>, ends: Key -> bool)
    requires forall l :: l in loans ==> !ends(KeyOf(l))
    ensures Remaining(loans, ends) == loans
    decreases |loans|
  {
    if loans != [] {
      NothingEnds(loans[..|loans| - 1], ends);
    }
  }

  lemma MovesAreMoves(facts: Facts, load: MIRInst, places: seq<Place>, before: seq<Loan>, after: seq<Loan>,
                      at: seq<nat>)
    requires AllMoves(before) && AddsMoves(facts, load, places, before, after, at)
    ensures AllMoves(after)
  {
    hide IsNewMove;
    forall l | l in after ensures l.pointer == 0 {
      var k :| 0 <= k < |after| && after[k] == l;
      if k >= |before| {
        assert after[|before| + (k - |before|)] == MoveOf(places[at[k - |before|]]);
      }
    }
  }

  lemma NoMoves(facts: Facts, load: MIRInst, places: seq<Place>, loans: seq<Loan>)
    requires forall p :: p in places ==> !MovesOutOf(facts, load, p)
    ensures AddsMoves(facts, load, places, loans, loans, [])
  {
  }

  /** With its operand, an instruction does to loans that no pointer holds just this. */
  lemma StepIsNext(facts: Facts, inst: MIRInst, loans: seq<Loan>)
    requires HasOperand(inst) && AllMoves(loans)
    ensures NextLoans(facts, inst, loans, Own(facts)(inst, loans)) && AllMoves(Own(facts)(inst, loans))
  {
    hide Borrowing, Inherited, Remaining, IsMoveType, IsPointerType, IsAggregate, AddsMoves;
    match inst.kind
    case Cast(v) =>
      NothingInherited(loans, |loans|, (k: Key) => k.pointer == facts.Address(v), facts.Address(InstValue(inst)));
    case Load(_) =>
      LoadedIsNext(facts, inst, loans);
      NothingEnds(Loaded(facts, inst, loans), k => facts.Ends(inst, k));
    case _ =>
  }

  lemma LoadedIsNext(facts: Facts, inst: MIRInst, loans: seq<Loan>)
    requires inst.kind.Load? && HasOperand(inst) && AllMoves(loans)
    ensures NextLoans(facts, inst, loans, Loaded(facts, inst, loans)) && AllMoves(Loaded(facts, inst, loans))
  {
    var t, pointer := facts.typeOf(inst), facts.Address(inst.kind.loadPtr);
    var places := PlacesRead(facts, inst);
    MovableIsMove(facts, inst);
    MoveTypesAreNoPointers(t, facts.isBorrow(inst));
    hide Borrowing, Inherited, IsMoveType, IsPointerType, IsAggregate, AddsMoves, MovesOutOf;
    if IsMoveType(t, facts.isBorrow(inst)) && !facts.isOnlyRead(inst) {
      var at := BorrowingAdds(facts, inst, loans, places, |places|);
      assert places[..|places|] == places;
      MovesAreMoves(facts, inst, places, loans, MoveLoans(facts, inst, loans), at);
    } else {
      NoMoves(facts, inst, places, loans);
    }
    if IsMoveType(t, facts.isBorrow(inst)) {
      var moved := MoveLoans(facts, inst, loans);
      NothingInherited(moved, |moved|, k => facts.Inherits(pointer, k), facts.Address(InstValue(inst)));
    }
  }

  // ---------------------------------------------------------------- where recorded loans come from

  /** One of the first n instructions moves out of the place whose loan this is. */
  ghost predicate MadeBy(facts: Facts, code: seq<MIRInst>, n: nat, l: Loan) {
    exists j, p :: 0 <= j < n && j < |code| && MovesOutOf(facts, code[j], p) && l == MoveOf(p)
  }

  /** A path from a block that makes the loan to b, each block being a recorded predecessor of the
      next. */
  ghost predicate LoanPath(facts: Facts, flow: Flow, older path: seq<MIRBlock>, l: Loan, b: MIRBlock)
    requires Closed(flow)
  {
    && |path| > 0 && path[|path| - 1] == b
    && (forall k :: 0 <= k < |path| ==> path[k] in flow.code && path[k] in flow.preds && flow.code[path[k]] != [])
    && (forall k :: 0 < k < |path| ==> path[k - 1] in flow.preds[path[k]])
    && MadeBy(facts, flow.code[path[0]], |flow.code[path[0]]|, l)
  }

  ghost predicate MadeOnPath(facts: Facts, flow: Flow, l: Loan, b: MIRBlock)
    requires Closed(flow)
  {
    exists path :: LoanPath(facts, flow, path, l, b)
  }

  /** Some recorded predecessor lets the loan through. */
  ghost predicate ComesIn(facts: Facts, flow: Flow, l: Loan, b: MIRBlock)
    requires Closed(flow) && b in flow.preds
  {
    exists p :: p in flow.preds[b] && MadeOnPath(facts, flow, l, p)
  }

  /** All loans let out are moves on paths ... */
  ghost predicate OutsAreMade(facts: Facts, flow: Flow, outs: map<MIRBlock, seq<Loan>>)
    requires Closed(flow)
  {
    forall b, l :: b in outs && l in outs[b] ==> l.pointer == 0 && MadeOnPath(facts, flow, l, b)
  }

  /** ... and so are those that blocks start with. */
  ghost predicate InsAreMade(facts: Facts, flow: Flow, ins: map<MIRBlock, seq<Loan>>)
    requires Closed(flow)
  {
    forall b, l :: b in ins && l in ins[b] ==> l.pointer == 0 && b in flow.preds && ComesIn(facts, flow, l, b)
  }

  lemma NextOrigin(facts: Facts, inst: MIRInst, before: seq<Loan>, after: seq<Loan>, l: Loan)
    requires NextLoans(facts, inst, before, after) && l in after
    ensures l in before || exists p :: MovesOutOf(facts, inst, p) && l == MoveOf(p)
  {
    hide MovesOutOf;
    if l !in before {
      var at :| AddsMoves(facts, inst, PlacesRead(facts, inst), before, after, at);
      var k :| 0 <= k < |after| && after[k] == l;
      assert k >= |before|;
      assert after[|before| + (k - |before|)] == MoveOf(PlacesRead(facts, inst)[at[k - |before|]]);
    }
  }

  lemma {:induction false} ThroughOrigin(facts: Facts, code: seq<MIRInst>, loans: seq<Loan>, n: nat)
    requires HaveOperands(code) && AllMoves(loans) && n <= |code|
    ensures AllMoves(Through(Own(facts), code, loans, n))
    ensures forall l :: l in Through(Own(facts), code, loans, n) ==> l in loans || MadeBy(facts, code, n, l)
  {
    hide MovesOutOf, Own, HasOperand, NextLoans;
    if n > 0 {
      ThroughOrigin(facts, code, loans, n - 1);
      var before := Through(Own(facts), code, loans, n - 1);
      StepIsNext(facts, code[n - 1], before);
      forall l | l in Through(Own(facts), code, loans, n) ensures l in loans || MadeBy(facts, code, n, l) {
        NextOrigin(facts, code[n - 1], before, Through(Own(facts), code, loans, n), l);
      }
    }
  }

  lemma MadeHere(facts: Facts, flow: Flow, l: Loan, b: MIRBlock, n: nat)
    requires Closed(flow) && b in flow.code && n <= |flow.code[b]| && MadeBy(facts, flow.code[b], n, l)
    ensures MadeOnPath(facts, flow, l, b)
  {
    hide NoDuplicates, MovesOutOf;
    assert LoanPath(facts, flow, [b], l, b);
  }

  lemma MadeBefore(facts: Facts, flow: Flow, l: Loan, b: MIRBlock)
    requires Closed(flow) && b in flow.code && b in flow.preds && flow.code[b] != [] && ComesIn(facts, flow, l, b)
    ensures MadeOnPath(facts, flow, l, b)
  {
    hide NoDuplicates, MadeBy, Closed;
    var p :| p in flow.preds[b] && MadeOnPath(facts, flow, l, p);
    var path :| LoanPath(facts, flow, path, l, p);
    assert LoanPath(facts, flow, path + [b], l, b);
  }

  /** What a visit of b lets out is made on paths to it. */
  lemma VisitIsMade(facts: Facts, flow: Flow, insts: set<MIRInst>, b: MIRBlock, loans: seq<Loan>, n: nat, l: Loan)
    requires Proper(flow, insts) && b in flow.code && b in flow.preds && 0 < n <= |flow.code[b]|
    requires forall m :: m in loans ==> m.pointer == 0 && ComesIn(facts, flow, m, b)
    requires l in Through(Own(facts), flow.code[b], loans, n)
    ensures l.pointer == 0 && MadeOnPath(facts, flow, l, b)
  {
    BlockHasOperands(flow, insts, b);
    hide Own, Through, MadeBy, ComesIn, MadeOnPath, HaveOperands, Closed;
    ThroughOrigin(facts, flow.code[b], loans, n);
    if l in loans {
      MadeBefore(facts, flow, l, b);
    } else {
      MadeHere(facts, flow, l, b, n);
    }
  }

  // ---------------------------------------------------------------- what is recorded

  /** The loans recorded at the instructions of a visited block: the first has those that the block
      starts with, each next one those that its predecessor leaves. */
  ghost predicate RecordedAsMoves(facts: Facts, code: seq<MIRInst>, ins: seq<Loan>, active: map<MIRInst, seq<Loan>>) {
    && (forall k :: 0 <= k < |code| ==> code[k] in active)
    && (code != [] ==> active[code[0]] == ins)
    && (forall k :: 0 <= k < |code| - 1 ==> NextLoans(facts, code[k], active[code[k]], active[code[k + 1]]))
  }

  /** A loan recorded at an instruction is that of a place which an earlier instruction of the block
      moves out of, or one on a path to the block. */
  ghost predicate AllFromMoves(facts: Facts, flow: Flow, b: MIRBlock, active: map<MIRInst, seq<Loan>>)
    requires Closed(flow) && b in flow.code && b in flow.preds
  {
    forall k, l :: 0 <= k < |flow.code[b]| && flow.code[b][k] in active && l in active[flow.code[b][k]] ==>
      MadeBy(facts, flow.code[b], k, l) || ComesIn(facts, flow, l, b)
  }

  lemma BlockIsRecordedAsMoves(facts: Facts, flow: Flow, insts: set<MIRInst>, b: MIRBlock, loans: seq<Loan>,
                               active: map<MIRInst, seq<Loan>>)
    requires Proper(flow, insts) && b in flow.code && b in flow.preds
    requires forall m :: m in loans ==> m.pointer == 0 && ComesIn(facts, flow, m, b)
    requires forall k :: 0 <= k < |flow.code[b]| ==>
      flow.code[b][k] in active && active[flow.code[b][k]] == Through(Own(facts), flow.code[b], loans, k)
    ensures RecordedAsMoves(facts, flow.code[b], loans, active) && AllFromMoves(facts, flow, b, active)
  {
    var code := flow.code[b];
    BlockHasOperands(flow, insts, b);
    assert HaveOperands(code) && AllMoves(loans);
    hide Own, MadeBy, ComesIn, HasOperand, NextLoans, Closed, Proper;
    forall k | 0 <= k < |code|
      ensures k < |code| - 1 ==> NextLoans(facts, code[k], active[code[k]], active[code[k + 1]])
      ensures forall l :: l in active[code[k]] ==> MadeBy(facts, code, k, l) || ComesIn(facts, flow, l, b)
    {
      ThroughOrigin(facts, code, loans, k);
      StepIsNext(facts, code[k], Through(Own(facts), code, loans, k));
    }
  }
}
