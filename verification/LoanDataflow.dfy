/** The worklist iteration that carries loans along the edges of a function. */
module LoanDataflow {
  import opened Mir
  import opened Loans
  import opened LoanTransfer
  import opened LoanEffects
  import opened LoanRuns
  import opened LoanTermination
  import opened LoanGrowth
  import opened LoanMoves
  import opened LoanContents

  type Outs = map<MIRBlock, seq<Loan>>

  function OutOf(outs: Outs, b: MIRBlock): seq<Loan> {
    if b in outs then outs[b] else []
  }

  ghost function OutKeys(outs: Outs, preds: seq<MIRBlock>): set<Key> {
    set p, k | p in preds && k in Keys(OutOf(outs, p)) :: k
  }

  /** The lists of the predecessors, merged one after the other. */
  ghost predicate AreMerged(outs: Outs, preds: seq<MIRBlock>, stages: seq<seq<Loan>>) {
    && |stages| == |preds| + 1 && stages[0] == []
    && forall i :: 0 <= i < |preds| ==> Merges(stages[i], OutOf(outs, preds[i]), stages[i + 1])
  }

  lemma MergedNext(outs: Outs, preds: seq<MIRBlock>, stages: seq<seq<Loan>>, p: MIRBlock, loans: seq<Loan>)
    requires AreMerged(outs, preds, stages) && Merges(stages[|preds|], OutOf(outs, p), loans)
    ensures AreMerged(outs, preds + [p], stages + [loans])
  {
    hide Merges, OutOf;
    var preds', stages' := preds + [p], stages + [loans];
    forall i | 0 <= i < |preds'| ensures Merges(stages'[i], OutOf(outs, preds'[i]), stages'[i + 1]) {
      assert i < |preds| ==> stages'[i] == stages[i] && stages'[i + 1] == stages[i + 1] && preds'[i] == preds[i];
    }
  }

  /** Whatever is merged comes from one of the lists. */
  lemma {:induction false} MergedComesIn(outs: Outs, preds: seq<MIRBlock>, stages: seq<seq<Loan>>, n: nat, l: Loan)
    requires AreMerged(outs, preds, stages) && n <= |preds| && l in stages[n]
    ensures exists p :: p in preds && l in OutOf(outs, p)
  {
    hide OutOf;
    if n > 0 {
      var before, out := stages[n - 1], OutOf(outs, preds[n - 1]);
      assert Merges(before, out, stages[n]);
      if l in before {
        MergedComesIn(outs, preds, stages, n - 1, l);
      } else {
        MergedIsNew(before, out, stages[n], l);
        assert preds[n - 1] in preds;
      }
    }
  }

  lemma MergedIsNew(held: seq<Loan>, loans: seq<Loan>, all: seq<Loan>, l: Loan)
    requires Merges(held, loans, all) && l in all && l !in held
    ensures l in loans
  {
    hide IsNew;
    var at :| Appends(held, loans, all, at);
    var k :| 0 <= k < |all| && all[k] == l;
    assert k >= |held|;
    assert all[|held| + (k - |held|)] == loans[at[k - |held|]];
  }

  /** What a block lets out after its first n instructions: the last list that differed, as a set,
      from the one before. */
  ghost function OutList(f: Transfer, code: seq<MIRInst>, loans: seq<Loan>, out: seq<Loan>, n: nat): seq<Loan>
    requires n <= |code|
  {
    if n == 0 then out
    else
      var before, current := OutList(f, code, loans, out, n - 1), Through(f, code, loans, n);
      if Keys(before) == Keys(current) then before else current
  }

  lemma {:induction false} OutListIsThrough(f: Transfer, code: seq<MIRInst>, loans: seq<Loan>, out: seq<Loan>, n: nat)
      returns (k: nat)
    requires n <= |code|
    ensures k <= n && OutList(f, code, loans, out, n) == if k == 0 then out else Through(f, code, loans, k)
  {
    hide Through, Keys;
    k := 0;
    if n > 0 {
      k := OutListIsThrough(f, code, loans, out, n - 1);
      if OutList(f, code, loans, out, n) != OutList(f, code, loans, out, n - 1) {
        k := n;
      }
    }
  }

  lemma OutListNext(f: Transfer, code: seq<MIRInst>, loans: seq<Loan>, out: seq<Loan>, i: nat, before: seq<Loan>,
                    after: seq<Loan>)
    requires i < |code| && before == OutList(f, code, loans, out, i)
    requires after == if Keys(before) == Keys(Through(f, code, loans, i + 1)) then before
      else Through(f, code, loans, i + 1)
    ensures after == OutList(f, code, loans, out, i + 1)
  {
    hide Through, Keys;
  }

  ghost predicate AllDistinct(outs: Outs) {
    forall b :: b in outs ==> Distinct(outs[b])
  }

  /** The loans recorded at the first n instructions of a list that starts with `loans`. */
  ghost predicate Recorded(active: map<MIRInst, seq<Loan>>, f: Transfer, code: seq<MIRInst>, loans: seq<Loan>, n: nat)
    requires n <= |code|
  {
    forall k :: 0 <= k < n ==> code[k] in active && active[code[k]] == Through(f, code, loans, k)
  }

  ghost predicate SameOutside(active: map<MIRInst, seq<Loan>>, active': map<MIRInst, seq<Loan>>, code: seq<MIRInst>) {
    forall i :: i in active && i !in code ==> i in active' && active'[i] == active[i]
  }

  lemma RecordedNext(active: map<MIRInst, seq<Loan>>, active': map<MIRInst, seq<Loan>>, f: Transfer, code: seq<MIRInst>,
                     loans: seq<Loan>, i: nat)
    requires i < |code| && NoDuplicates(code) && Recorded(active, f, code, loans, i)
    requires active' == active[code[i] := Through(f, code, loans, i)]
    ensures Recorded(active', f, code, loans, i + 1) && SameOutside(active, active', code)
  {
    hide Through;
  }

  lemma SameOutsideTwice(active: map<MIRInst, seq<Loan>>, active': map<MIRInst, seq<Loan>>,
                         active'': map<MIRInst, seq<Loan>>, code: seq<MIRInst>)
    requires SameOutside(active, active', code) && SameOutside(active', active'', code)
    ensures SameOutside(active, active'', code)
  {
  }

  ghost predicate SameBut(outs: Outs, outs': Outs, b: MIRBlock) {
    forall x :: x in outs.Keys + outs'.Keys && x != b ==> OutOf(outs', x) == OutOf(outs, x)
  }

  lemma SameButTwice(outs: Outs, outs': Outs, outs'': Outs, b: MIRBlock)
    requires SameBut(outs, outs', b) && SameBut(outs', outs'', b)
    ensures SameBut(outs, outs'', b)
  {
  }

  ghost predicate Apart(code: seq<MIRInst>, code': seq<MIRInst>) {
    forall i :: i in code ==> i !in code'
  }

  lemma RecordedFrame(active: map<MIRInst, seq<Loan>>, active': map<MIRInst, seq<Loan>>, f: Transfer,
                      code: seq<MIRInst>, code': seq<MIRInst>, loans: seq<Loan>)
    requires Recorded(active, f, code, loans, |code|) && SameOutside(active, active', code') && Apart(code, code')
    ensures Recorded(active', f, code, loans, |code|)
  {
    hide Through;
  }

  // ---------------------------------------------------------------- from lists to sets

  ghost function KeysOf(ins: Outs): Sets {
    map b | b in ins :: Keys(ins[b])
  }

  ghost function SetsOf(blocks: set<MIRBlock>, outs: Outs): Sets {
    map b | b in blocks :: Keys(OutOf(outs, b))
  }

  lemma KeysOfUpdate(ins: Outs, b: MIRBlock, loans: seq<Loan>)
    ensures KeysOf(ins[b := loans]) == KeysOf(ins)[b := Keys(loans)]
  {
    hide Keys;
  }

  lemma SetsOfUpdate(blocks: set<MIRBlock>, outs: Outs, outs': Outs, b: MIRBlock)
    requires b in blocks && SameBut(outs, outs', b)
    ensures SetsOf(blocks, outs') == SetsOf(blocks, outs)[b := Keys(OutOf(outs', b))]
  {
    hide Keys;
    forall c | c in blocks && c != b ensures OutOf(outs', c) == OutOf(outs, c) {
      assert c in outs || c in outs' ==> c in outs.Keys + outs'.Keys;
    }
  }

  lemma UnionsAgree(blocks: set<MIRBlock>, outs: Outs, preds: seq<MIRBlock>)
    requires forall p :: p in preds ==> p in blocks
    ensures OutKeys(outs, preds) == InKeys(SetsOf(blocks, outs), preds)
  {
    hide Keys, OutOf;
    var sets := SetsOf(blocks, outs);
    assert forall p :: p in preds ==> p in sets && sets[p] == Keys(OutOf(outs, p));
  }

  /** The state of the iteration as a run on loan sets. */
  ghost function StateOf(flow: Flow, ins: Outs, outs: Outs, queue: seq<MIRBlock>): Run {
    Run(KeysOf(ins), SetsOf(flow.code.Keys, outs), queue)
  }

  /** Every instruction sits in one place, and predecessors are blocks of the function. */
  ghost predicate Sound(flow: Flow, insts: set<MIRInst>) {
    && flow.preds.Keys == flow.code.Keys
    && (forall b :: b in flow.code ==> NoDuplicates(flow.code[b]) && Inside(flow.code[b], insts))
    && (forall b, c :: b in flow.code && c in flow.code && b != c ==> Apart(flow.code[b], flow.code[c]))
    && (forall b, p :: b in flow.code && p in flow.preds[b] ==> p in flow.code)
  }

  /** The visited blocks have the loans at their instructions recorded. */
  ghost predicate AllRecorded(code: map<MIRBlock, seq<MIRInst>>, f: Transfer, ins: Outs,
                              active: map<MIRInst, seq<Loan>>) {
    forall b :: b in code && b in ins ==> Distinct(ins[b]) && Recorded(active, f, code[b], ins[b], |code[b]|)
  }

  lemma HeadIsBlock(flow: Flow, ins: Outs, outs: Outs, queue: seq<MIRBlock>)
    requires Closed(flow) && Fits(flow, StateOf(flow, ins, outs, queue)) && queue != []
    ensures queue[0] in flow.code
  {
    hide Closed, NoDuplicates;
    assert queue[0] in StateOf(flow, ins, outs, queue).queue;
  }

  lemma AboutBlock(flow: Flow, insts: set<MIRInst>, b: MIRBlock)
    requires Sound(flow, insts) && b in flow.code
    ensures b in flow.preds && (forall p :: p in flow.preds[b] ==> p in flow.code)
    ensures NoDuplicates(flow.code[b]) && Inside(flow.code[b], insts)
  {
    hide Apart;
  }

  lemma StillRecorded(flow: Flow, insts: set<MIRInst>, f: Transfer, b: MIRBlock, ins: Outs, ins': Outs,
                      active: map<MIRInst, seq<Loan>>, active': map<MIRInst, seq<Loan>>)
    requires Sound(flow, insts) && b in flow.code && b in ins' && ins' == ins[b := ins'[b]] && Distinct(ins'[b])
    requires AllRecorded(flow.code, f, ins, active)
    requires Recorded(active', f, flow.code[b], ins'[b], |flow.code[b]|) && SameOutside(active, active', flow.code[b])
    ensures AllRecorded(flow.code, f, ins', active')
  {
    hide Distinct, Recorded, SameOutside, NoDuplicates, Apart, Inside;
    forall c | c in flow.code && c in ins'
      ensures Distinct(ins'[c]) && Recorded(active', f, flow.code[c], ins'[c], |flow.code[c]|)
    {
      if c != b {
        RecordedFrame(active, active', f, flow.code[c], flow.code[b], ins[c]);
      }
    }
  }

  /** The loans at the start of a block are moves on paths to its recorded predecessors. */
  lemma MergedAreMade(facts: Facts, flow: Flow, b: MIRBlock, outs: Outs, loans: seq<Loan>)
    requires Closed(flow) && b in flow.code && b in flow.preds && OutsAreMade(facts, flow, outs)
    requires exists stages :: AreMerged(outs, flow.preds[b], stages) && stages[|flow.preds[b]|] == loans
    ensures forall l :: l in loans ==> l.pointer == 0 && ComesIn(facts, flow, l, b)
  {
    hide MadeOnPath, Closed, Appends;
    var stages :| AreMerged(outs, flow.preds[b], stages) && stages[|flow.preds[b]|] == loans;
    forall l | l in loans ensures l.pointer == 0 && ComesIn(facts, flow, l, b) {
      MergedComesIn(outs, flow.preds[b], stages, |flow.preds[b]|, l);
    }
  }

  lemma StillMade(facts: Facts, flow: Flow, insts: set<MIRInst>, b: MIRBlock, ins: Outs, outs: Outs, loans: seq<Loan>,
                  ins': Outs, outs': Outs)
    requires Proper(flow, insts) && b in flow.code && b in flow.preds
    requires OutsAreMade(facts, flow, outs) && InsAreMade(facts, flow, ins)
    requires forall l :: l in loans ==> l.pointer == 0 && ComesIn(facts, flow, l, b)
    requires ins' == ins[b := loans] && SameBut(outs, outs', b)
    requires OutOf(outs', b) == OutList(Own(facts), flow.code[b], loans, OutOf(outs, b), |flow.code[b]|)
    ensures OutsAreMade(facts, flow, outs') && InsAreMade(facts, flow, ins')
  {
    InsStillMade(facts, flow, b, ins, loans, ins');
    hide InsAreMade;
    var code := flow.code[b];
    var k := OutListIsThrough(Own(facts), code, loans, OutOf(outs, b), |code|);
    hide ComesIn, MadeOnPath, Own, Through, Closed, Inside, HasOperand, OutList;
    forall c, l | c in outs' && l in outs'[c] ensures l.pointer == 0 && MadeOnPath(facts, flow, l, c) {
      if c == b && k > 0 {
        VisitIsMade(facts, flow, insts, b, loans, k, l);
      } else {
        assert c in outs.Keys + outs'.Keys;
        OutIsMade(facts, flow, outs, c, l);
      }
    }
  }

  lemma InsStillMade(facts: Facts, flow: Flow, b: MIRBlock, ins: Outs, loans: seq<Loan>, ins': Outs)
    requires Closed(flow) && b in flow.preds && InsAreMade(facts, flow, ins) && ins' == ins[b := loans]
    requires forall l :: l in loans ==> l.pointer == 0 && ComesIn(facts, flow, l, b)
    ensures InsAreMade(facts, flow, ins')
  {
    hide Closed, ComesIn;
    forall c, l | c in ins' && l in ins'[c]
      ensures l.pointer == 0 && c in flow.preds && ComesIn(facts, flow, l, c)
    {
      if c == b {
        assert l in loans;
      } else {
        assert c in ins && ins'[c] == ins[c];
      }
    }
  }

  lemma OutIsMade(facts: Facts, flow: Flow, outs: Outs, b: MIRBlock, l: Loan)
    requires Closed(flow) && OutsAreMade(facts, flow, outs) && l in OutOf(outs, b)
    ensures l.pointer == 0 && MadeOnPath(facts, flow, l, b)
  {
    hide Closed, MadeOnPath;
  }

  lemma SetsOfBlock(flow: Flow, b: MIRBlock, outs: Outs)
    requires b in flow.code
    ensures b in SetsOf(flow.code.Keys, outs) && SetsOf(flow.code.Keys, outs)[b] == Keys(OutOf(outs, b))
  {
  }

  lemma StateAfter(flow: Flow, f: Transfer, b: MIRBlock, loans: seq<Loan>, ins: Outs, outs: Outs, queue: seq<MIRBlock>,
                   outs': Outs, queue': seq<MIRBlock>)
    requires Closed(flow) && Fits(flow, StateOf(flow, ins, outs, queue)) && queue != [] && queue[0] == b
    requires b in flow.code && b in flow.preds && b in flow.succ && forall p :: p in flow.preds[b] ==> p in flow.code
    requires Keys(loans) == OutKeys(outs, flow.preds[b]) && SameBut(outs, outs', b)
    requires Keys(OutOf(outs', b)) == OutAfter(f, flow.code[b], Keys(loans), Keys(OutOf(outs, b)))
    requires queue' == if Still(f, flow.code[b], Keys(loans), Keys(OutOf(outs, b))) then queue[1..]
                       else Enqueue(queue[1..], flow.succ[b])
    ensures StateOf(flow, ins[b := loans], outs', queue') == Turn(f, flow, StateOf(flow, ins, outs, queue))
  {
    hide Closed, Fits, Keys, OutOf, OutAfter, Still, Enqueue, InKeys, OutKeys, SameBut, KeysOf, SetsOf;
    UnionsAgree(flow.code.Keys, outs, flow.preds[b]);
    KeysOfUpdate(ins, b, loans);
    SetsOfUpdate(flow.code.Keys, outs, outs', b);
    SetsOfBlock(flow, b, outs);
    TurnIs(f, flow, StateOf(flow, ins, outs, queue), StateOf(flow, ins[b := loans], outs', queue'), b, Keys(loans));
  }

  lemma StartState(flow: Flow, f: Transfer, active: map<MIRInst, seq<Loan>>)
    requires Closed(flow)
    ensures StateOf(flow, map[], map[], flow.order) == Start(flow)
    ensures AllDistinct(map[]) && AllRecorded(flow.code, f, map[], active)
  {
    hide Closed;
    assert KeysOf(map[]) == map[];
    forall b | b in flow.code.Keys ensures SetsOf(flow.code.Keys, map[])[b] == {} {
    }
  }

  /** A function without blocks. */
  lemma NothingToDo(flow: Flow, f: Transfer, insts: set<MIRInst>, active: map<MIRInst, seq<Loan>>)
    requires flow == Flow([], map[], map[], map[])
    ensures Closed(flow) && LeadsBack(flow) && Finished(f, flow, 0)
    ensures StateOf(flow, map[], map[], []) == Turns(f, flow, Start(flow), 0)
    ensures AllDistinct(map[]) && AllRecorded(flow.code, f, map[], active)
  {
    StartState(flow, f, active);
  }

  // ---------------------------------------------------------------- one block on loan lists

  /** The first n instructions all leave the loans let out before. */
  ghost predicate StillUpTo(f: Transfer, code: seq<MIRInst>, loans: seq<Loan>, out: set<Key>, n: nat)
    requires n <= |code|
  {
    forall k :: 0 < k <= n ==> Keys(Through(f, code, loans, k)) == out
  }

  lemma StillUpToNext(f: Transfer, code: seq<MIRInst>, loans: seq<Loan>, out: set<Key>, i: nat)
    requires i < |code|
    ensures StillUpTo(f, code, loans, out, i + 1) <==>
            StillUpTo(f, code, loans, out, i) && Keys(Through(f, code, loans, i + 1)) == out
  {
    hide Through;
  }

  /** The visit of a block on lists is the visit on loan sets. */
  lemma ListsToSets(f: Transfer, insts: set<MIRInst>, code: seq<MIRInst>, loans: seq<Loan>, out: set<Key>)
    requires Respects(f, insts) && Inside(code, insts) && Distinct(loans)
    ensures StillUpTo(f, code, loans, out, |code|) <==> Still(f, code, Keys(loans), out)
    ensures OutAfter(f, code, Keys(loans), out) == if code == [] then out else Keys(Through(f, code, loans, |code|))
  {
    hide Respects, Inside, Distinct, Keys, Through, Effect;
    forall k: nat | k <= |code| ensures Keys(Through(f, code, loans, k)) == Effect(f, code, Keys(loans), k) {
      EffectOfList(f, insts, code, loans, k);
    }
  }

  lemma StartOf(f: Transfer, code: seq<MIRInst>, loans: seq<Loan>, active: map<MIRInst, seq<Loan>>, outs: Outs,
                b: MIRBlock, out: set<Key>)
    ensures Through(f, code, loans, 0) == loans
    ensures Recorded(active, f, code, loans, 0) && StillUpTo(f, code, loans, out, 0)
    ensures SameOutside(active, active, code) && SameBut(outs, outs, b)
    ensures OutList(f, code, loans, OutOf(outs, b), 0) == OutOf(outs, b)
  {
  }

  lemma NextList(f: Transfer, code: seq<MIRInst>, loans: seq<Loan>, i: nat)
    requires i < |code|
    ensures Through(f, code, loans, i + 1) == f(code[i], Through(f, code, loans, i))
  {
  }

  lemma StepKeepsDistinct(f: Transfer, insts: set<MIRInst>, code: seq<MIRInst>, loans: seq<Loan>, i: nat)
    requires Respects(f, insts) && Inside(code, insts) && Distinct(loans) && i < |code|
    ensures Distinct(f(code[i], loans))
  {
  }

  /** Queueing the same blocks a second time changes nothing. */
  lemma {:induction false} EnqueueKnown(queue: seq<MIRBlock>, blocks: seq<MIRBlock>)
    requires forall b :: b in blocks ==> b in queue
    ensures Enqueue(queue, blocks) == queue
    decreases |blocks|
  {
    if blocks != [] {
      EnqueueKnown(queue, blocks[..|blocks| - 1]);
    }
  }

  lemma EnqueueTwice(queue: seq<MIRBlock>, blocks: seq<MIRBlock>)
    ensures Enqueue(Enqueue(queue, blocks), blocks) == Enqueue(queue, blocks)
  {
    EnqueueElements(queue, blocks);
    EnqueueKnown(Enqueue(queue, blocks), blocks);
  }

  // ---------------------------------------------------------------- one instruction

  method AddLoan(loans: seq<Loan>, l: Loan) returns (r: seq<Loan>)
    ensures r == Added(loans, l)
  {
    r := loans;
    if !Holds(loans, l) {
      r := r + [l];
    }
  }

  /** The loans that qualify, among those that were there before, are held by one more pointer. */
  method HandOn(loans: seq<Loan>, qualifies: Key -> bool, pointer: nat) returns (r: seq<Loan>)
    ensures r == Inherited(loans, |loans|, qualifies, pointer)
  {
    r := loans;
    var n := |loans|;
    var i := 0;
    while i < n
      invariant i <= n && r == Inherited(loans, i, qualifies, pointer) && loans <= r
    {
      var active := r[i];
      if qualifies(KeyOf(active)) {
        r := AddLoan(r, Loan(active.base, active.projections, pointer, active.isMut));
      }
      i := i + 1;
    }
  }

  method Borrow(loans: seq<Loan>, places: seq<Place>, qualifies: Place -> bool, pointer: nat, isMut: bool)
    returns (r: seq<Loan>)
    ensures r == Borrowing(loans, places, qualifies, pointer, isMut)
  {
    r := loans;
    var i := 0;
    while i < |places|
      invariant i <= |places| && r == Borrowing(loans, places[..i], qualifies, pointer, isMut)
    {
      assert places[..i + 1][..i] == places[..i];
      if qualifies(places[i]) {
        r := AddLoan(r, Loan(places[i].base, places[i].projections, pointer, isMut));
      }
      i := i + 1;
    }
    assert places[..i] == places;
  }

  /** What is left of the loans once those that end are erased. */
  method Sweep(loans: seq<Loan>, ends: Key -> bool) returns (r: seq<Loan>)
    ensures r == Remaining(loans, ends)
  {
    r := [];
    var i := 0;
    while i < |loans|
      invariant i <= |loans| && r == Remaining(loans[..i], ends)
    {
      assert loans[..i + 1][..i] == loans[..i];
      if !ends(KeyOf(loans[i])) {
        r := r + [loans[i]];
      }
      i := i + 1;
    }
    assert loans[..i] == loans;
  }

  method TransferLoad(facts: Facts, inst: MIRInst, loans: seq<Loan>) returns (current: seq<Loan>)
    requires inst.kind.Load?
    ensures current == Loaded(facts, inst, loans)
  {
    hide Inherited, Borrowing, IsMoveType, IsPointerType, IsAggregate;
    current := loans;
    var t, isBorrow := facts.typeOf(inst), facts.isBorrow(inst);
    if IsMoveType(t, isBorrow) {
      var pointer, load := facts.Address(inst.kind.loadPtr), facts.Address(InstValue(inst));
      if !facts.isOnlyRead(inst) {
        current := Borrow(current, facts.PlacesOf(pointer), p => facts.Movable(p), NULL, true);
      }
      if IsPointerType(t) || IsAggregate(t, isBorrow) {
        current := HandOn(current, k => facts.Inherits(pointer, k), load);
        if IsPointerType(t) {
          current := Borrow(current, facts.PlacesOf(pointer), (p: Place) => p.base != NULL, load,
            facts.isExclusive(inst));
        }
      }
    }
  }

  // ---------------------------------------------------------------- the iteration

  class NLLBorrowChecker {
    const func: MIRFunction
    const facts: Facts
    ghost const transfer: Transfer := Own(facts)
    var blockIn: Outs
    var blockOut: Outs
    var activeLoansAtInst: map<MIRInst, seq<Loan>>
    var preds: map<MIRBlock, seq<MIRBlock>>
    var worklist: seq<MIRBlock>
    var inWorklist: set<MIRBlock>

    constructor (func: MIRFunction, facts: Facts)
      ensures this.func == func && this.facts == facts
    {
      this.func, this.facts := func, facts;
      blockIn, blockOut, activeLoansAtInst, preds, worklist, inWorklist := map[], map[], map[], map[], [], {};
    }

    /** Not dependent on the stand-in predecessor below. */
    ghost predicate Covered(b: MIRBlock)
      reads func, b
    {
      b.predecessors != [] || (func.blocks != [] && b == func.blocks[0])
    }

    /** What the IR guarantees: every instruction sits in one place and the edge lists mirror
        each other. */
    ghost predicate WellFormed()
      reads func, func.BlockSet()
    {
      && NoDuplicates(func.blocks) && CfgOf(func.BlockSet()).WellWired()
      && (forall b :: b in func.blocks ==> NoDuplicates(b.instructions))
      && (forall b, c :: b in func.blocks && c in func.blocks && b != c ==> Apart(b.instructions, c.instructions))
    }

    lemma PredecessorsAreBlocks()
      requires WellFormed()
      ensures forall b, p :: b in func.blocks && p in b.predecessors ==> p in func.blocks && b in p.successors
      ensures forall b, s :: b in func.blocks && s in b.successors ==> s in func.blocks
    {
      hide NoDuplicates, Apart;
      var cfg := CfgOf(func.BlockSet());
      forall b, p | b in func.blocks && p in b.predecessors ensures p in func.blocks && b in p.successors {
        assert b in cfg.pred && p in cfg.pred[b];
        assert p in cfg.succ && b in cfg.succ[p];
      }
      forall b, s | b in func.blocks && s in b.successors ensures s in func.blocks {
        assert b in cfg.succ && s in cfg.succ[b] && s in cfg.pred;
      }
    }

    ghost predicate PredecessorsInside()
      reads func, func.BlockSet()
    {
      forall b, p :: b in func.blocks && p in b.predecessors ==> p in func.blocks
    }

    ghost predicate GoodPreds(b: MIRBlock, list: seq<MIRBlock>)
      reads func, b
    {
      (forall p :: p in list ==> p in func.blocks) && (Covered(b) ==> list == b.predecessors)
    }

    ghost predicate PredsAreRecorded()
      reads this`preds, func, func.BlockSet()
    {
      forall b :: b in func.blocks ==> b in preds && GoodPreds(b, preds[b])
    }

    /** Predecessors as recorded; a block other than the entry that has none borrows the block
        before it in the function. */
    method ComputePreds()
      requires func.blocks != [] && PredecessorsInside() && NoDuplicates(func.blocks)
      modifies this`preds
      ensures PredsAreRecorded() && StandInsAreRecorded()
    {
      hide GoodPreds;
      preds := map[];
      var lexicalPrev: MIRBlock? := null;
      var i := 0;
      while i < |func.blocks|
        invariant i <= |func.blocks|
        invariant forall k :: 0 <= k < i ==> func.blocks[k] in preds
        invariant forall b :: b in preds ==> b in func.blocks && GoodPreds(b, preds[b])
        invariant lexicalPrev == if i == 0 then null else func.blocks[i - 1]
        invariant forall k :: 0 < k < i && func.blocks[k].predecessors == [] ==>
          preds[func.blocks[k]] == [func.blocks[k - 1]]
      {
        var b := func.blocks[i];
        var list := b.predecessors;
        if b != func.blocks[0] && list == [] && lexicalPrev != null {
          list := [lexicalPrev];
        }
        GoodList(b, lexicalPrev, list);
        preds := preds[b := list];
        lexicalPrev := b;
        i := i + 1;
      }
    }

    lemma GoodList(b: MIRBlock, before: MIRBlock?, list: seq<MIRBlock>)
      requires b in func.blocks && (before != null ==> before in func.blocks)
      requires forall p :: p in b.predecessors ==> p in func.blocks
      requires list == b.predecessors ||
        (b.predecessors == [] && b != func.blocks[0] && before != null && list == [before])
      ensures GoodPreds(b, list)
    {
    }

    /** The union of what the predecessors let out. */
    method MergePreds(b: MIRBlock) returns (loans: seq<Loan>)
      requires b in preds && AllDistinct(blockOut)
      ensures Distinct(loans) && Keys(loans) == OutKeys(blockOut, preds[b])
      ensures exists stages :: AreMerged(blockOut, preds[b], stages) && stages[|preds[b]|] == loans
    {
      loans := [];
      ghost var stages := [loans];
      var i := 0;
      while i < |preds[b]|
        invariant i <= |preds[b]| && Distinct(loans) && Keys(loans) == OutKeys(blockOut, preds[b][..i])
        invariant AreMerged(blockOut, preds[b][..i], stages) && stages[i] == loans
      {
        ghost var before := stages;
        loans := MergeLoans(loans, OutOf(blockOut, preds[b][i]));
        assert preds[b][..i + 1] == preds[b][..i] + [preds[b][i]];
        assert OutKeys(blockOut, preds[b][..i + 1]) == OutKeys(blockOut, preds[b][..i])
          + Keys(OutOf(blockOut, preds[b][i]));
        stages := stages + [loans];
        MergedNext(blockOut, preds[b][..i], before, preds[b][i], loans);
        i := i + 1;
      }
      assert preds[b][..i] == preds[b];
    }

    ghost predicate Queued()
      reads this`worklist, this`inWorklist
    {
      && NoDuplicates(worklist)
      && (forall b :: b in worklist ==> b in inWorklist)
      && (forall b :: b in inWorklist ==> b in worklist)
    }

    /** Queues the successors that are not queued yet. */
    method PushSuccessors(b: MIRBlock)
      requires Queued()
      modifies this`worklist, this`inWorklist
      ensures Queued() && worklist == Enqueue(old(worklist), b.successors)
    {
      var i := 0;
      while i < |b.successors|
        invariant i <= |b.successors| && Queued() && worklist == Enqueue(old(worklist), b.successors[..i])
      {
        assert b.successors[..i + 1][..i] == b.successors[..i];
        var succ := b.successors[i];
        if succ !in inWorklist {
          worklist := worklist + [succ];
          inWorklist := inWorklist + {succ};
        }
        i := i + 1;
      }
      assert b.successors[..i] == b.successors;
    }

    /** What one instruction leaves is let out, and the successors are queued if it differs. */
    method LetOut(b: MIRBlock, current: seq<Loan>)
      requires Queued() && AllDistinct(blockOut) && Distinct(current)
      modifies this`worklist, this`inWorklist, this`blockOut
      ensures Queued() && AllDistinct(blockOut) && SameBut(old(blockOut), blockOut, b)
      ensures Keys(OutOf(blockOut, b)) == Keys(current)
      ensures OutOf(blockOut, b) ==
        if Keys(OutOf(old(blockOut), b)) == Keys(current) then OutOf(old(blockOut), b) else current
      ensures worklist == if Keys(OutOf(old(blockOut), b)) == Keys(current) then old(worklist)
        else Enqueue(old(worklist), b.successors)
    {
      hide Queued, Enqueue;
      var out := OutOf(blockOut, b);
      var same := LoansEqual(out, current);
      SameKeys(out, current);
      if !same {
        blockOut := blockOut[b := current];
        PushSuccessors(b);
      }
    }

    /** The branches for casts and loads. */
    method TransferInst(inst: MIRInst, loans: seq<Loan>) returns (current: seq<Loan>)
      ensures current == transfer(inst, loans)
    {
      hide Inherited, Borrowing, Remaining, Loaded;
      current := loans;
      if inst.kind.Cast? {
        current := HandOn(current, (k: Key) => k.pointer == facts.Address(inst.kind.casted),
          facts.Address(InstValue(inst)));
      } else if inst.kind.Load? {
        current := TransferLoad(facts, inst, current);
        current := Sweep(current, k => facts.Ends(inst, k));
      }
    }

    /** Runs the instructions of b from the loans at its start, letting out what each leaves. */
    method TransferBlock(b: MIRBlock, ghost insts: set<MIRInst>)
      requires Queued() && b in blockIn && Distinct(blockIn[b]) && AllDistinct(blockOut)
      requires Respects(transfer, insts) && Inside(b.instructions, insts) && NoDuplicates(b.instructions)
      modifies this`worklist, this`inWorklist, this`blockOut, this`activeLoansAtInst
      ensures Queued() && AllDistinct(blockOut) && SameBut(old(blockOut), blockOut, b)
      ensures Recorded(activeLoansAtInst, transfer, b.instructions, blockIn[b], |b.instructions|)
      ensures SameOutside(old(activeLoansAtInst), activeLoansAtInst, b.instructions)
      ensures OutOf(blockOut, b) ==
        OutList(transfer, b.instructions, blockIn[b], OutOf(old(blockOut), b), |b.instructions|)
      ensures var keys, out := Keys(blockIn[b]), Keys(OutOf(old(blockOut), b));
        && Keys(OutOf(blockOut, b)) == OutAfter(transfer, b.instructions, keys, out)
        && worklist == if Still(transfer, b.instructions, keys, out) then old(worklist)
             else Enqueue(old(worklist), b.successors)
    {
      hide *;
      var start := blockIn[b];
      var current := start;
      var code := b.instructions;
      ghost var out := Keys(OutOf(blockOut, b));
      StartOf(transfer, code, start, activeLoansAtInst, blockOut, b, out);
      var i := 0;
      while i < |code|
        invariant i <= |code| && Queued() && AllDistinct(blockOut) && SameBut(old(blockOut), blockOut, b)
        invariant current == Through(transfer, code, start, i) && Distinct(current)
        invariant Recorded(activeLoansAtInst, transfer, code, start, i)
        invariant SameOutside(old(activeLoansAtInst), activeLoansAtInst, code)
        invariant Keys(OutOf(blockOut, b)) == if i == 0 then out else Keys(current)
        invariant OutOf(blockOut, b) == OutList(transfer, code, start, OutOf(old(blockOut), b), i)
        invariant worklist == if StillUpTo(transfer, code, start, out, i) then old(worklist)
          else Enqueue(old(worklist), b.successors)
        invariant i > 0 && StillUpTo(transfer, code, start, out, i) ==> Keys(current) == out
      {
        ghost var before, previous := activeLoansAtInst, blockOut;
        activeLoansAtInst := activeLoansAtInst[code[i] := current];
        RecordedNext(before, activeLoansAtInst, transfer, code, start, i);
        SameOutsideTwice(old(activeLoansAtInst), before, activeLoansAtInst, code);
        StepKeepsDistinct(transfer, insts, code, current, i);
        NextList(transfer, code, start, i);
        current := TransferInst(code[i], current);
        LetOut(b, current);
        OutListNext(transfer, code, start, OutOf(old(blockOut), b), i, OutOf(previous, b), OutOf(blockOut, b));
        SameButTwice(old(blockOut), previous, blockOut, b);
        StillUpToNext(transfer, code, start, out, i);
        EnqueueTwice(old(worklist), b.successors);
        i := i + 1;
      }
      ListsToSets(transfer, insts, code, start, out);
    }

    method PopBlock() returns (b: MIRBlock)
      requires Queued() && worklist != []
      modifies this`worklist, this`inWorklist
      ensures Queued() && b == old(worklist)[0] && worklist == old(worklist)[1..]
    {
      b := worklist[0];
      worklist := worklist[1..];
      inWorklist := inWorklist - {b};
    }

    method QueueAll()
      requires NoDuplicates(func.blocks)
      modifies this`worklist, this`inWorklist
      ensures Queued() && worklist == func.blocks
    {
      worklist, inWorklist := [], {};
      var i := 0;
      while i < |func.blocks|
        invariant i <= |func.blocks| && worklist == func.blocks[..i] && Queued()
      {
        worklist := worklist + [func.blocks[i]];
        inWorklist := inWorklist + {func.blocks[i]};
        i := i + 1;
      }
    }

    // -------------------------------------------------------------- as a run on loan sets

    /** The blocks, their lists and the recorded predecessors are those of the flow. */
    ghost predicate Matches(flow: Flow)
      reads this`preds, flow.code.Keys
    {
      && flow.succ.Keys == flow.code.Keys && flow.preds.Keys == flow.code.Keys
      && forall b :: b in flow.code ==>
           b.instructions == flow.code[b] && b.successors == flow.succ[b] && b in preds && preds[b] == flow.preds[b]
    }

    lemma MatchesAt(flow: Flow, b: MIRBlock)
      requires Matches(flow) && b in flow.code
      ensures b in flow.preds && b in flow.succ && b in preds
      ensures b.instructions == flow.code[b] && b.successors == flow.succ[b] && preds[b] == flow.preds[b]
    {
    }

    /** One turn of the loop is one turn of the run on loan sets. */
    method ProcessBlock(ghost flow: Flow, ghost insts: set<MIRInst>)
      requires Matches(flow) && Closed(flow) && Sound(flow, insts) && Respects(transfer, insts)
      requires Queued() && AllDistinct(blockOut) && AllRecorded(flow.code, transfer, blockIn, activeLoansAtInst)
      requires worklist != [] && Fits(flow, StateOf(flow, blockIn, blockOut, worklist))
      requires Proper(flow, insts) && OutsAreMade(facts, flow, blockOut) && InsAreMade(facts, flow, blockIn)
      modifies this`worklist, this`inWorklist, this`blockIn, this`blockOut, this`activeLoansAtInst
      ensures Queued() && AllDistinct(blockOut) && AllRecorded(flow.code, transfer, blockIn, activeLoansAtInst)
      ensures OutsAreMade(facts, flow, blockOut) && InsAreMade(facts, flow, blockIn)
      ensures StateOf(flow, blockIn, blockOut, worklist) ==
        Turn(transfer, flow, old(StateOf(flow, blockIn, blockOut, worklist)))
    {
      hide *;
      HeadIsBlock(flow, blockIn, blockOut, worklist);
      AboutBlock(flow, insts, worklist[0]);
      MatchesAt(flow, worklist[0]);
      ghost var ins, outs, active, queue := blockIn, blockOut, activeLoansAtInst, worklist;
      var b := PopBlock();
      var loans := MergePreds(b);
      blockIn := blockIn[b := loans];
      TransferBlock(b, insts);
      StillRecorded(flow, insts, transfer, b, ins, blockIn, active, activeLoansAtInst);
      StateAfter(flow, transfer, b, loans, ins, outs, queue, blockOut, worklist);
      TransferIsOwn();
      MergedAreMade(facts, flow, b, outs, loans);
      StillMade(facts, flow, insts, b, ins, outs, loans, blockIn, blockOut);
    }

    lemma TransferIsOwn()
      ensures transfer == Own(facts)
    {
    }

    // -------------------------------------------------------------- the whole iteration

    ghost function Instructions(): set<MIRInst>
      reads func, func.BlockSet()
    {
      set b, i | b in func.blocks && i in b.instructions :: i
    }

    /** The function as the recorded predecessors make it. */
    ghost function FlowOf(): Flow
      reads this`preds, func, func.BlockSet()
    {
      Flow(func.blocks,
           map b | b in func.BlockSet() :: b.instructions,
           map b | b in func.BlockSet() :: if b in preds then preds[b] else [],
           map b | b in func.BlockSet() :: b.successors)
    }

    lemma FlowIsClosed(flow: Flow)
      requires WellFormed() && flow == FlowOf()
      ensures Closed(flow)
    {
      PredecessorsAreBlocks();
      hide Apart, NoDuplicates;
      assert NoDuplicates(func.blocks);
      forall b, s | b in flow.succ && s in flow.succ[b] ensures s in flow.code {
        assert s in b.successors && b in func.blocks;
      }
    }

    lemma FlowMatches(flow: Flow)
      requires PredsAreRecorded() && flow == FlowOf()
      ensures Matches(flow) && forall b, p :: b in flow.code && p in flow.preds[b] ==> p in flow.code
    {
      forall b, p | b in flow.code && p in flow.preds[b] ensures p in flow.code {
        assert GoodPreds(b, preds[b]);
      }
    }

    lemma FlowIsSound(flow: Flow)
      requires WellFormed() && PredsAreRecorded() && flow == FlowOf()
      ensures Matches(flow) && Sound(flow, Instructions())
    {
      FlowMatches(flow);
      hide Apart, NoDuplicates, Cfg.WellWired, PredsAreRecorded, Matches;
    }

    /** The blocks that do not depend on a stand-in have their own predecessors, and these lead
        to them. */
    ghost predicate CoveredAreMirrored(flow: Flow)
      requires Closed(flow)
      reads func, flow.code.Keys
    {
      forall b :: b in flow.code && Covered(b) ==> flow.preds[b] == b.predecessors && MirroredAt(flow, b)
    }

    /** A block that has no predecessors borrows the block before it. */
    ghost predicate HasStandIns(flow: Flow)
      reads set b | b in flow.order
    {
      forall k :: 0 < k < |flow.order| && flow.order[k].predecessors == [] ==>
        flow.order[k] in flow.preds && flow.preds[flow.order[k]] == [flow.order[k - 1]]
    }

    /** The same of the recorded predecessors. */
    ghost predicate StandInsAreRecorded()
      reads this`preds, func, func.BlockSet()
    {
      && preds.Keys == func.BlockSet()
      && forall k :: 0 < k < |func.blocks| && func.blocks[k].predecessors == [] ==>
           preds[func.blocks[k]] == [func.blocks[k - 1]]
    }

    lemma FlowStandsIn(flow: Flow)
      requires StandInsAreRecorded() && flow == FlowOf()
      ensures HasStandIns(flow)
    {
    }

    lemma FlowIsMirrored(flow: Flow)
      requires WellFormed() && PredsAreRecorded() && flow == FlowOf() && Closed(flow)
      ensures CoveredAreMirrored(flow)
    {
      PredecessorsAreBlocks();
      hide WellFormed, Closed, GoodPreds;
      forall b | b in flow.code && Covered(b) ensures flow.preds[b] == b.predecessors && MirroredAt(flow, b) {
        CoveredPreds(b);
        forall p | p in flow.preds[b] ensures p in flow.code && b in flow.succ[p] {
          assert p in b.predecessors && b in p.successors;
        }
      }
    }

    /** A successor has its own predecessors, and the block is one of them. */
    lemma FlowLeadsBack(flow: Flow)
      requires WellFormed() && PredsAreRecorded() && flow == FlowOf() && Closed(flow)
      ensures LeadsBack(flow)
    {
      SuccessorsLeadBack();
      hide WellFormed, Closed, GoodPreds, PredsAreRecorded;
      forall b, s | b in flow.succ && s in flow.succ[b] ensures s in flow.preds && b in flow.preds[s] {
        assert s in b.successors && s in func.blocks && b in s.predecessors;
        CoveredPreds(s);
      }
    }

    lemma SuccessorsLeadBack()
      requires WellFormed()
      ensures forall b, s :: b in func.blocks && s in b.successors ==> s in func.blocks && b in s.predecessors
    {
      hide NoDuplicates, Apart;
      var cfg := CfgOf(func.BlockSet());
      forall b, s | b in func.blocks && s in b.successors ensures s in func.blocks && b in s.predecessors {
        assert b in cfg.succ && s in cfg.succ[b];
        assert s in cfg.pred && b in cfg.pred[s];
      }
    }

    lemma CoveredPreds(b: MIRBlock)
      requires PredsAreRecorded() && b in func.blocks && Covered(b)
      ensures b in preds && preds[b] == b.predecessors
    {
      assert GoodPreds(b, preds[b]);
    }

    /** Everything is forgotten and every block is queued. */
    method Prepare(ghost insts: set<MIRInst>) returns (ghost flow: Flow)
      requires WellFormed() && func.blocks != [] && insts == Instructions()
      modifies this
      ensures flow.order == func.blocks && Closed(flow) && Matches(flow) && Sound(flow, insts)
      ensures CoveredAreMirrored(flow)
      ensures LeadsBack(flow) && HasStandIns(flow)
      ensures Queued() && blockIn == map[] && blockOut == map[] && worklist == func.blocks
    {
      BlocksAreDistinct();
      hide NoDuplicates, WellFormed, Matches, Sound, CoveredAreMirrored, LeadsBack, HasStandIns, Queued, Closed;
      blockIn, blockOut, activeLoansAtInst := map[], map[], map[];
      flow := RecordFlow(insts);
      QueueAll();
    }

    method RecordFlow(ghost insts: set<MIRInst>) returns (ghost flow: Flow)
      requires WellFormed() && func.blocks != [] && insts == Instructions() && NoDuplicates(func.blocks)
      modifies this`preds
      ensures flow.order == func.blocks && Closed(flow) && Matches(flow) && Sound(flow, insts)
      ensures CoveredAreMirrored(flow) && LeadsBack(flow) && HasStandIns(flow)
    {
      hide NoDuplicates, WellFormed, Matches, Sound, CoveredAreMirrored, LeadsBack, HasStandIns, Closed,
        PredsAreRecorded,
        StandInsAreRecorded, PredecessorsInside;
      PredecessorsAreInside();
      ComputePreds();
      flow := FlowOf();
      FlowFacts(flow, insts);
    }

    lemma BlocksAreDistinct()
      requires WellFormed()
      ensures NoDuplicates(func.blocks)
    {
    }

    lemma PredecessorsAreInside()
      requires WellFormed()
      ensures PredecessorsInside()
    {
      PredecessorsAreBlocks();
    }

    lemma FlowFacts(flow: Flow, insts: set<MIRInst>)
      requires WellFormed() && PredsAreRecorded() && StandInsAreRecorded() && flow == FlowOf()
      requires insts == Instructions()
      ensures flow.order == func.blocks && Closed(flow) && Matches(flow) && Sound(flow, insts)
      ensures CoveredAreMirrored(flow) && LeadsBack(flow) && HasStandIns(flow)
    {
      hide NoDuplicates, Apart, Cfg.WellWired, PredsAreRecorded, StandInsAreRecorded, HasStandIns, Matches, Sound,
        CoveredAreMirrored, LeadsBack;
      FlowIsClosed(flow);
      FlowIsSound(flow);
      FlowIsMirrored(flow);
      FlowLeadsBack(flow);
      FlowStandsIn(flow);
    }

    /** The loop ends: no turn is left once enough turns are taken. */
    method Iterate(ghost flow: Flow, ghost insts: set<MIRInst>) returns (ghost turns: nat)
      requires Matches(flow) && Sound(flow, insts) && Proper(flow, insts) && LeadsBack(flow)
      requires Queued() && AllDistinct(blockOut) && AllRecorded(flow.code, transfer, blockIn, activeLoansAtInst)
      requires StateOf(flow, blockIn, blockOut, worklist) == Start(flow)
      requires OutsAreMade(facts, flow, blockOut) && InsAreMade(facts, flow, blockIn)
      modifies this`worklist, this`inWorklist, this`blockIn, this`blockOut, this`activeLoansAtInst
      ensures OutsAreMade(facts, flow, blockOut) && InsAreMade(facts, flow, blockIn)
      ensures worklist == [] && AllDistinct(blockOut) && AllRecorded(flow.code, transfer, blockIn, activeLoansAtInst)
      ensures StateOf(flow, blockIn, blockOut, worklist) == Turns(transfer, flow, Start(flow), turns)
    {
      hide Matches, Closed, LeadsBack, Sound, Respects, Queued, AllDistinct, AllRecorded, Start, Turn, Fits, KeysOf,
        SetsOf, Own, OutsAreMade, InsAreMade;
      OwnRespects(facts, insts);
      ghost var enough := OwnFinishes(facts, flow, insts);
      turns := 0;
      while worklist != []
        invariant turns <= enough && Matches(flow)
        invariant OutsAreMade(facts, flow, blockOut) && InsAreMade(facts, flow, blockIn)
        invariant Queued() && AllDistinct(blockOut) && AllRecorded(flow.code, transfer, blockIn, activeLoansAtInst)
        invariant StateOf(flow, blockIn, blockOut, worklist) == Turns(transfer, flow, Start(flow), turns)
        decreases enough - turns
      {
        assert Finished(transfer, flow, enough);
        ProcessBlock(flow, insts);
        turns := turns + 1;
      }
    }

    /** The iteration, until there is nothing left to do. Its outcome is that of a run on loan
        sets, with the loans at the instructions recorded. */
    method ComputeDataflow() returns (ghost flow: Flow, ghost turns: nat)
      requires WellFormed() && forall i :: i in Instructions() ==> HasOperand(i)
      modifies this
      ensures flow.order == func.blocks && Matches(flow) && Proper(flow, old(Instructions()))
      ensures Sound(flow, old(Instructions()))
      ensures CoveredAreMirrored(flow) && HasStandIns(flow) && MovesAreRecorded(flow)
      ensures worklist == [] && AllDistinct(blockOut) && AllRecorded(flow.code, transfer, blockIn, activeLoansAtInst)
      ensures StateOf(flow, blockIn, blockOut, worklist) == Turns(transfer, flow, Start(flow), turns)
    {
      hide *;
      ghost var insts := Instructions();
      if func.blocks == [] {
        blockIn, blockOut, activeLoansAtInst, worklist, inWorklist := map[], map[], map[], [], {};
        flow := Flow([], map[], map[], map[]);
        NothingToDo(flow, transfer, insts, activeLoansAtInst);
        NothingMatches(flow, insts);
        NothingMade(facts, flow);
        RecordedAreMoves(flow, insts);
        return flow, 0;
      }
      flow := Prepare(insts);
      SoundIsProper(flow, insts);
      StartState(flow, transfer, activeLoansAtInst);
      NothingMade(facts, flow);
      turns := Iterate(flow, insts);
      RecordedAreMoves(flow, insts);
    }

    /** The visited blocks have the loans of moves recorded, and no others. */
    ghost predicate MovesAreRecorded(flow: Flow)
      requires Closed(flow)
      reads this
    {
      forall b :: b in flow.code && b in flow.preds && b in blockIn ==>
        && RecordedAsMoves(facts, flow.code[b], blockIn[b], activeLoansAtInst)
        && AllFromMoves(facts, flow, b, activeLoansAtInst)
    }

    lemma RecordedAreMoves(flow: Flow, insts: set<MIRInst>)
      requires Proper(flow, insts) && InsAreMade(facts, flow, blockIn)
      requires AllRecorded(flow.code, transfer, blockIn, activeLoansAtInst)
      ensures MovesAreRecorded(flow)
    {
      hide Closed, ComesIn, RecordedAsMoves, AllFromMoves, Inside, HasOperand, Through, Distinct;
      forall b | b in flow.code && b in flow.preds && b in blockIn
        ensures RecordedAsMoves(facts, flow.code[b], blockIn[b], activeLoansAtInst)
        ensures AllFromMoves(facts, flow, b, activeLoansAtInst)
      {
        BlockIsRecordedAsMoves(facts, flow, insts, b, blockIn[b], activeLoansAtInst);
      }
    }

    lemma NothingMatches(flow: Flow, insts: set<MIRInst>)
      requires flow == Flow([], map[], map[], map[]) && Closed(flow) && forall i :: i in insts ==> HasOperand(i)
      ensures Matches(flow) && CoveredAreMirrored(flow) && HasStandIns(flow) && Proper(flow, insts)
      ensures Sound(flow, insts)
    {
    }
  }

  lemma NothingMade(facts: Facts, flow: Flow)
    requires Closed(flow)
    ensures OutsAreMade(facts, flow, map[]) && InsAreMade(facts, flow, map[])
  {
  }

  lemma SoundIsProper(flow: Flow, insts: set<MIRInst>)
    requires Closed(flow) && Sound(flow, insts) && forall i :: i in insts ==> HasOperand(i)
    ensures Proper(flow, insts)
  {
    hide Closed, NoDuplicates, Apart, Inside;
  }

  // ---------------------------------------------------------------- what the iteration has computed

  /** When the list of work is empty, a block whose own predecessors lead to it was last visited
      with the union of what they let out, and lets out what its instructions make of it, however
      that union is listed. */
  lemma BlockIsSolved(flow: Flow, insts: set<MIRInst>, f: Transfer, ins: Outs, outs: Outs, queue: seq<MIRBlock>,
                      active: map<MIRInst, seq<Loan>>, turns: nat, b: MIRBlock, loans: seq<Loan>)
    requires Closed(flow) && Sound(flow, insts) && Respects(f, insts) && AllRecorded(flow.code, f, ins, active)
    requires StateOf(flow, ins, outs, queue) == Turns(f, flow, Start(flow), turns) && queue == []
    requires b in flow.code && b in flow.preds && MirroredAt(flow, b)
    requires Distinct(loans) && Keys(loans) == OutKeys(outs, flow.preds[b])
    ensures b in ins && Keys(ins[b]) == OutKeys(outs, flow.preds[b])
    ensures Recorded(active, f, flow.code[b], ins[b], |flow.code[b]|)
    ensures Keys(OutOf(outs, b)) == if flow.code[b] == [] then {}
      else Keys(Through(f, flow.code[b], loans, |flow.code[b]|))
  {
    hide Closed, MirroredAt, Respects, Distinct, Keys, OutOf, OutKeys, InKeys, Inside, NoDuplicates, Apart, Turns,
      Start, Recorded, Through, Effect;
    EmptyQueueSettles(f, flow, turns, b);
    UnionsAgree(flow.code.Keys, outs, flow.preds[b]);
    SetsOfBlock(flow, b, outs);
    assert b in ins && KeysOf(ins)[b] == Keys(ins[b]);
    ListsToSets(f, insts, flow.code[b], loans, {});
  }

  /** ... and if this is so of all blocks, what they let out is the least solution. */
  lemma ResultIsLeast(flow: Flow, f: Transfer, universe: set<Key>, ins: Outs, outs: Outs, queue: seq<MIRBlock>,
                      turns: nat)
    requires Closed(flow) && Mirrored(flow) && Tame(f, flow, universe)
    requires StateOf(flow, ins, outs, queue) == Turns(f, flow, Start(flow), turns) && queue == []
    ensures IsLeast(f, flow, universe, SetsOf(flow.code.Keys, outs))
  {
    hide Closed, Mirrored, Tame, IsLeast, Turns, Start, SetsOf, KeysOf;
    FinishedIsLeast(f, flow, universe, turns);
  }

  /** The loans recorded at an instruction: a place counts as moved out of there exactly if an
      earlier instruction of the block moves out of it, or a path to the block starts with a
      move. Nothing on the way takes that back. */
  lemma MovedAtInstruction(flow: Flow, insts: set<MIRInst>, facts: Facts, ins: Outs, outs: Outs, queue: seq<MIRBlock>,
                           active: map<MIRInst, seq<Loan>>, turns: nat, b: MIRBlock, k: nat, key: Key)
    requires Proper(flow, insts) && Mirrored(flow) && AllRecorded(flow.code, Own(facts), ins, active)
    requires StateOf(flow, ins, outs, queue) == Turns(Own(facts), flow, Start(flow), turns) && queue == []
    requires b in flow.code && b in flow.preds && k < |flow.code[b]|
    ensures flow.code[b][k] in active
    ensures key in Keys(active[flow.code[b][k]]) <==>
      || key in Moves(facts, flow.code[b], k)
      || exists p :: p in flow.preds[b] && MovedOnSomePath(facts, flow, key, p)
  {
    hide Keys, Turns, Start, Own, Through, Moves, Mirrored, MovedOnSomePath, HasOperand, NoDuplicates, SetsOf;
    var run := Turns(Own(facts), flow, Start(flow), turns);
    EmptyQueueIsSolution(Own(facts), flow, turns);
    assert b in ins && run.ins[b] == Keys(ins[b]);
    RunKeepsPaths(facts, flow, insts, turns);
    ComesInByNone(facts, flow, run.outs, flow.preds[b]);
    BlockHasOperands(flow, insts, b);
    ThroughIsMoves(facts, flow.code[b], ins[b], k);
    ComesInOnPaths(facts, flow, insts, turns, b, key);
  }

  lemma ComesInOnPaths(facts: Facts, flow: Flow, insts: set<MIRInst>, turns: nat, b: MIRBlock, key: Key)
    requires Proper(flow, insts) && Mirrored(flow) && Finished(Own(facts), flow, turns)
    requires b in flow.code && b in flow.preds
    ensures key in InKeys(Turns(Own(facts), flow, Start(flow), turns).outs, flow.preds[b]) <==>
      exists p :: p in flow.preds[b] && MovedOnSomePath(facts, flow, key, p)
  {
    assert MirroredAt(flow, b);
    hide Turns, Start, Own, Mirrored, MovedOnSomePath, Closed, HasOperand, Finished;
    forall p | p in flow.preds[b]
      ensures var outs := Turns(Own(facts), flow, Start(flow), turns).outs;
        p in outs && (key in outs[p] <==> MovedOnSomePath(facts, flow, key, p))
    {
      MovedIffOnPath(facts, flow, insts, turns, p, key);
    }
  }
}
