/** The worklist iteration on loan sets, one turn at a time: what it has computed when it ends,
    and when it ends. */
module LoanRuns {
  import opened Mir
  import opened Loans
  import opened LoanTransfer

  // ---------------------------------------------------------------- functions and runs

  /** The blocks of a function in order, with their instructions and their neighbours. */
  datatype Flow = Flow(order: seq<MIRBlock>, code: map<MIRBlock, seq<MIRInst>>,
                       preds: map<MIRBlock, seq<MIRBlock>>, succ: map<MIRBlock, seq<MIRBlock>>)

  type Sets = map<MIRBlock, set<Key>>

  /** The loans at the start of the blocks visited so far, the loans each block lets out, and
      the blocks still to visit. */
  datatype Run = Run(ins: Sets, outs: Sets, queue: seq<MIRBlock>)

  ghost predicate Closed(flow: Flow) {
    && flow.preds.Keys == flow.code.Keys && flow.succ.Keys == flow.code.Keys
    && NoDuplicates(flow.order)
    && (forall b :: b in flow.order ==> b in flow.code)
    && (forall b :: b in flow.code ==> b in flow.order)
    && (forall b, s :: b in flow.succ && s in flow.succ[b] ==> s in flow.code)
  }

  ghost function InKeys(outs: Sets, preds: seq<MIRBlock>): set<Key> {
    set p, k | p in preds && p in outs && k in outs[p] :: k
  }

  /** The loans left by every instruction are the loans let out so far. */
  ghost predicate Still(f: Transfer, code: seq<MIRInst>, keys: set<Key>, out: set<Key>) {
    forall k :: 0 < k <= |code| ==> Effect(f, code, keys, k) == out
  }

  ghost function OutAfter(f: Transfer, code: seq<MIRInst>, keys: set<Key>, out: set<Key>): set<Key> {
    if code == [] then out else Effect(f, code, keys, |code|)
  }

  /** The queue after the blocks that are not in it are appended. */
  ghost function Enqueue(queue: seq<MIRBlock>, blocks: seq<MIRBlock>): seq<MIRBlock>
    decreases |blocks|
  {
    if blocks == [] then queue else AddUnique(Enqueue(queue, blocks[..|blocks| - 1]), blocks[|blocks| - 1])
  }

  lemma {:induction false} EnqueueElements(queue: seq<MIRBlock>, blocks: seq<MIRBlock>)
    ensures forall b :: b in Enqueue(queue, blocks) <==> b in queue || b in blocks
    ensures forall k :: 0 <= k < |Enqueue(queue, blocks)| ==>
      Enqueue(queue, blocks)[k] in queue || Enqueue(queue, blocks)[k] in blocks
    ensures NoDuplicates(queue) ==> NoDuplicates(Enqueue(queue, blocks))
    ensures queue <= Enqueue(queue, blocks)
    decreases |blocks|
  {
    if blocks != [] {
      EnqueueElements(queue, blocks[..|blocks| - 1]);
      assert blocks == blocks[..|blocks| - 1] + [blocks[|blocks| - 1]];
    }
  }

  /** A run that stays among the blocks of the function. */
  ghost predicate Fits(flow: Flow, run: Run) {
    && run.outs.Keys == flow.code.Keys && run.ins.Keys <= flow.code.Keys
    && NoDuplicates(run.queue) && forall b :: b in run.queue ==> b in flow.code
  }

  /** One turn: the first block of the queue is visited. */
  ghost function Turn(f: Transfer, flow: Flow, run: Run): Run
    requires Closed(flow) && Fits(flow, run)
  {
    if run.queue == [] then run else Visit(f, flow, run, run.queue[0], run.queue[1..])
  }

  ghost function Visit(f: Transfer, flow: Flow, run: Run, b: MIRBlock, rest: seq<MIRBlock>): Run
    requires b in flow.code && b in flow.preds && b in flow.succ && b in run.outs
  {
    var keys := InKeys(run.outs, flow.preds[b]);
    Run(run.ins[b := keys],
        run.outs[b := OutAfter(f, flow.code[b], keys, run.outs[b])],
        if Still(f, flow.code[b], keys, run.outs[b]) then rest else Enqueue(rest, flow.succ[b]))
  }

  lemma TurnIs(f: Transfer, flow: Flow, run: Run, run': Run, b: MIRBlock, keys: set<Key>)
    requires Closed(flow) && Fits(flow, run) && run.queue != [] && run.queue[0] == b
    requires b in flow.code && b in flow.preds && b in flow.succ && b in run.outs
    requires keys == InKeys(run.outs, flow.preds[b]) && run'.ins == run.ins[b := keys]
    requires run'.outs == run.outs[b := OutAfter(f, flow.code[b], keys, run.outs[b])]
    requires run'.queue == if Still(f, flow.code[b], keys, run.outs[b]) then run.queue[1..]
      else Enqueue(run.queue[1..], flow.succ[b])
    ensures run' == Turn(f, flow, run)
  {
    hide Closed, Fits, InKeys, OutAfter, Still, Enqueue;
  }

  lemma RestFits(queue: seq<MIRBlock>)
    requires queue != [] && NoDuplicates(queue)
    ensures NoDuplicates(queue[1..]) && queue[0] !in queue[1..]
    ensures forall c :: c in queue <==> c == queue[0] || c in queue[1..]
  {
    assert queue == [queue[0]] + queue[1..];
  }

  lemma SuccessorsAreBlocks(flow: Flow, b: MIRBlock)
    requires Closed(flow) && b in flow.code
    ensures b in flow.preds && b in flow.succ && forall s :: s in flow.succ[b] ==> s in flow.code
  {
  }

  lemma EnqueueFits(flow: Flow, rest: seq<MIRBlock>, b: MIRBlock)
    requires Closed(flow) && b in flow.code && NoDuplicates(rest) && forall c :: c in rest ==> c in flow.code
    ensures b in flow.succ && NoDuplicates(Enqueue(rest, flow.succ[b]))
    ensures forall c :: c in Enqueue(rest, flow.succ[b]) ==> c in flow.code
  {
    SuccessorsAreBlocks(flow, b);
    EnqueueElements(rest, flow.succ[b]);
  }

  lemma TurnFits(f: Transfer, flow: Flow, run: Run)
    requires Closed(flow) && Fits(flow, run)
    ensures Fits(flow, Turn(f, flow, run))
  {
    if run.queue != [] {
      var b, rest, run' := run.queue[0], run.queue[1..], Turn(f, flow, run);
      RestFits(run.queue);
      EnqueueFits(flow, rest, b);
      SuccessorsAreBlocks(flow, b);
      hide Closed, InKeys, OutAfter, Still, Enqueue, NoDuplicates;
      assert run'.outs.Keys == flow.code.Keys && run'.ins.Keys == run.ins.Keys + {b};
    }
  }

  ghost function Start(flow: Flow): (r: Run)
    requires Closed(flow)
    ensures Fits(flow, r)
  {
    Run(map[], map b | b in flow.code :: {}, flow.order)
  }

  ghost function Turns(f: Transfer, flow: Flow, run: Run, n: nat): (r: Run)
    requires Closed(flow) && Fits(flow, run)
    ensures Fits(flow, r)
  {
    if n == 0 then run
    else
      TurnFits(f, flow, Turns(f, flow, run, n - 1));
      Turn(f, flow, Turns(f, flow, run, n - 1))
  }

  lemma {:induction false} TurnsAdd(f: Transfer, flow: Flow, run: Run, m: nat, n: nat)
    requires Closed(flow) && Fits(flow, run)
    ensures Turns(f, flow, Turns(f, flow, run, m), n) == Turns(f, flow, run, m + n)
  {
    hide Closed, Fits, Turn;
    if n > 0 {
      TurnsAdd(f, flow, run, m, n - 1);
    }
  }

  /** With an empty queue nothing happens any more. */
  lemma {:induction false} EmptyStays(f: Transfer, flow: Flow, run: Run, m: nat, n: nat)
    requires Closed(flow) && Fits(flow, run) && m <= n && Turns(f, flow, run, m).queue == []
    ensures Turns(f, flow, run, n) == Turns(f, flow, run, m)
  {
    hide Closed, Fits;
    if m < n {
      EmptyStays(f, flow, run, m, n - 1);
    }
  }

  // ---------------------------------------------------------------- the equations

  /** What the block lets out according to its equation. */
  ghost function Equation(f: Transfer, flow: Flow, outs: Sets, b: MIRBlock): set<Key>
    requires b in flow.code && b in flow.preds
  {
    OutAfter(f, flow.code[b], InKeys(outs, flow.preds[b]), {})
  }

  ghost predicate Solution(f: Transfer, flow: Flow, older outs: Sets)
    requires Closed(flow)
  {
    outs.Keys == flow.code.Keys && forall b :: b in flow.code ==> outs[b] == Equation(f, flow, outs, b)
  }

  ghost predicate Below(a: Sets, b: Sets) {
    a.Keys <= b.Keys && forall x :: x in a ==> a[x] <= b[x]
  }

  /** The predecessors of the block are blocks that it is a successor of. */
  ghost predicate MirroredAt(flow: Flow, b: MIRBlock)
    requires Closed(flow) && b in flow.code
  {
    forall p :: p in flow.preds[b] ==> p in flow.code && b in flow.succ[p]
  }

  ghost predicate Mirrored(flow: Flow)
    requires Closed(flow)
  {
    forall b :: b in flow.code ==> MirroredAt(flow, b)
  }

  /** What a run has computed for a block: what it lets out agrees with the loans it was visited
      with, and these, if the block is not queued, with what is let out now. */
  ghost predicate BlockConsistent(f: Transfer, flow: Flow, run: Run, b: MIRBlock)
    requires Closed(flow) && Fits(flow, run) && b in flow.code
  {
    && (b in run.queue || b in run.ins)
    && run.outs[b] == (if b in run.ins then OutAfter(f, flow.code[b], run.ins[b], {}) else {})
    && (b !in run.queue && MirroredAt(flow, b) ==> run.ins[b] == InKeys(run.outs, flow.preds[b]))
  }

  ghost predicate Consistent(f: Transfer, flow: Flow, run: Run)
    requires Closed(flow) && Fits(flow, run)
  {
    forall b :: b in flow.code ==> BlockConsistent(f, flow, run, b)
  }

  lemma InKeysSame(outs: Sets, outs': Sets, preds: seq<MIRBlock>)
    requires forall p :: p in preds ==> (p in outs <==> p in outs') && (p in outs ==> outs[p] == outs'[p])
    ensures InKeys(outs, preds) == InKeys(outs', preds)
  {
  }

  lemma StillKeepsOut(f: Transfer, code: seq<MIRInst>, keys: set<Key>, out: set<Key>)
    requires Still(f, code, keys, out)
    ensures OutAfter(f, code, keys, out) == out
  {
  }

  lemma TurnIsConsistent(f: Transfer, flow: Flow, run: Run)
    requires Closed(flow) && Fits(flow, run) && Consistent(f, flow, run)
    ensures Fits(flow, Turn(f, flow, run)) && Consistent(f, flow, Turn(f, flow, run))
  {
    TurnFits(f, flow, run);
    if run.queue != [] {
      forall c | c in flow.code ensures BlockConsistent(f, flow, Turn(f, flow, run), c) {
        TurnKeepsBlock(f, flow, run, c);
      }
    }
  }

  lemma MirrorAt(flow: Flow, b: MIRBlock, c: MIRBlock)
    requires Closed(flow) && c in flow.code && b in flow.code
    ensures c in flow.preds && b in flow.succ && (MirroredAt(flow, c) && b in flow.preds[c] ==> c in flow.succ[b])
  {
    hide NoDuplicates;
  }

  lemma TurnKeepsBlock(f: Transfer, flow: Flow, run: Run, c: MIRBlock)
    requires Closed(flow) && Fits(flow, run) && run.queue != []
    requires Fits(flow, Turn(f, flow, run))
    requires c in flow.code && BlockConsistent(f, flow, run, c)
    ensures BlockConsistent(f, flow, Turn(f, flow, run), c)
  {
    var b, rest := run.queue[0], run.queue[1..];
    SuccessorsAreBlocks(flow, b);
    RestFits(run.queue);
    MirrorAt(flow, b, c);
    assert b in run.outs && b in flow.code && c in run.outs;
    hide Closed, MirroredAt, Enqueue, NoDuplicates;
    EnqueueElements(rest, flow.succ[b]);
    VisitKeepsBlock(f, flow, run, b, rest, c);
  }

  lemma VisitKeepsBlock(f: Transfer, flow: Flow, run: Run, b: MIRBlock, rest: seq<MIRBlock>, c: MIRBlock)
    requires Closed(flow) && Fits(flow, run) && c in flow.code && BlockConsistent(f, flow, run, c)
    requires b in flow.code && b in flow.preds && b in flow.succ && b in run.outs && c in run.outs && c in flow.preds
    requires Fits(flow, Visit(f, flow, run, b, rest))
    requires c in run.queue <==> c == b || c in rest
    requires c in Enqueue(rest, flow.succ[b]) <==> c in rest || c in flow.succ[b]
    requires MirroredAt(flow, c) && b in flow.preds[c] ==> c in flow.succ[b]
    ensures BlockConsistent(f, flow, Visit(f, flow, run, b, rest), c)
  {
    hide Closed, Fits, Effect, InKeys, NoDuplicates, Enqueue, MirroredAt;
    var run' := Visit(f, flow, run, b, rest);
    var keys := InKeys(run.outs, flow.preds[b]);
    if Still(f, flow.code[b], keys, run.outs[b]) {
      StillKeepsOut(f, flow.code[b], keys, run.outs[b]);
      assert run'.outs == run.outs;
    }
    hide Still;
    if c !in run'.queue && MirroredAt(flow, c) {
      assert run'.outs == run.outs || b !in flow.preds[c];
      InKeysSame(run.outs, run'.outs, flow.preds[c]);
    }
  }

  lemma StartIsConsistent(f: Transfer, flow: Flow)
    requires Closed(flow)
    ensures Consistent(f, flow, Start(flow))
  {
  }

  lemma {:induction false} RunIsConsistent(f: Transfer, flow: Flow, n: nat)
    requires Closed(flow)
    ensures Consistent(f, flow, Turns(f, flow, Start(flow), n))
  {
    hide Consistent, Turn, Start, Fits, Closed;
    if n == 0 {
      StartIsConsistent(f, flow);
    } else {
      RunIsConsistent(f, flow, n - 1);
      TurnIsConsistent(f, flow, Turns(f, flow, Start(flow), n - 1));
    }
  }

  /** When the queue is empty, a block whose predecessors lead to it satisfies its equation. */
  lemma EmptyQueueSettles(f: Transfer, flow: Flow, n: nat, b: MIRBlock)
    requires Closed(flow) && Turns(f, flow, Start(flow), n).queue == []
    requires b in flow.code && b in flow.preds && MirroredAt(flow, b)
    ensures var run := Turns(f, flow, Start(flow), n);
      && b in run.ins && b in run.outs && run.ins[b] == InKeys(run.outs, flow.preds[b])
      && run.outs[b] == Equation(f, flow, run.outs, b)
  {
    RunIsConsistent(f, flow, n);
    hide OutAfter, InKeys, Turns, MirroredAt;
    assert BlockConsistent(f, flow, Turns(f, flow, Start(flow), n), b);
  }

  /** If this is so of all blocks, what they let out solves the equations. */
  lemma EmptyQueueIsSolution(f: Transfer, flow: Flow, n: nat)
    requires Closed(flow) && Mirrored(flow) && Turns(f, flow, Start(flow), n).queue == []
    ensures var run := Turns(f, flow, Start(flow), n);
      && Solution(f, flow, run.outs) && run.ins.Keys == flow.code.Keys
      && forall b :: b in flow.code ==> b in flow.preds && run.ins[b] == InKeys(run.outs, flow.preds[b])
  {
    hide OutAfter, InKeys, Turns, MirroredAt, Equation, NoDuplicates;
    var run := Turns(f, flow, Start(flow), n);
    forall b | b in flow.code
      ensures b in run.ins && run.ins[b] == InKeys(run.outs, flow.preds[b])
      ensures run.outs[b] == Equation(f, flow, run.outs, b)
    {
      EmptyQueueSettles(f, flow, n, b);
    }
  }

  // ---------------------------------------------------------------- blocks that never come to rest

  /** Some instruction leaves a loan set that the last one does not leave. */
  ghost predicate Wavers(f: Transfer, code: seq<MIRInst>, keys: set<Key>) {
    exists k :: 0 < k < |code| && Effect(f, code, keys, k) != Effect(f, code, keys, |code|)
  }

  /** Blocks that waver at these loans and each lead to another one of them, or to itself. */
  ghost predicate Spinning(f: Transfer, flow: Flow, ins: Sets, spin: set<MIRBlock>)
    requires Closed(flow)
  {
    forall b :: b in spin ==>
      b in flow.code && b in ins && Wavers(f, flow.code[b], ins[b]) && exists s :: s in flow.succ[b] && s in spin
  }

  ghost predicate SomeQueued(spin: set<MIRBlock>, queue: seq<MIRBlock>) {
    exists b :: b in spin && b in queue
  }

  lemma WaveringIsNotStill(f: Transfer, code: seq<MIRInst>, keys: set<Key>, out: set<Key>)
    requires Wavers(f, code, keys)
    ensures !Still(f, code, keys, out)
  {
  }

  /** While blocks waver in a circle, one of them is queued. */
  lemma SpinStaysQueued(f: Transfer, flow: Flow, run: Run, spin: set<MIRBlock>)
    requires Closed(flow) && Fits(flow, run) && spin != {}
    requires Spinning(f, flow, run.ins, spin) ==> SomeQueued(spin, run.queue)
    ensures Spinning(f, flow, Turn(f, flow, run).ins, spin) ==> SomeQueued(spin, Turn(f, flow, run).queue)
  {
    if run.queue != [] && Spinning(f, flow, Turn(f, flow, run).ins, spin) {
      var b, rest := run.queue[0], run.queue[1..];
      hide Closed, Enqueue, NoDuplicates, Wavers, Spinning, SomeQueued, InKeys, OutAfter, Still;
      SuccessorsAreBlocks(flow, b);
      RestFits(run.queue);
      EnqueueElements(rest, flow.succ[b]);
      SpinAfterVisit(f, flow, run, b, rest, spin);
    }
  }

  lemma SpinAfterVisit(f: Transfer, flow: Flow, run: Run, b: MIRBlock, rest: seq<MIRBlock>, spin: set<MIRBlock>)
    requires Closed(flow) && b in flow.code && b in flow.preds && b in flow.succ && b in run.outs
    requires forall c :: c in run.queue <==> c == b || c in rest
    requires forall c :: c in Enqueue(rest, flow.succ[b]) <==> c in rest || c in flow.succ[b]
    requires spin != {} && (Spinning(f, flow, run.ins, spin) ==> SomeQueued(spin, run.queue))
    requires Spinning(f, flow, Visit(f, flow, run, b, rest).ins, spin)
    ensures SomeQueued(spin, Visit(f, flow, run, b, rest).queue)
  {
    hide Closed, InKeys, Wavers, Still, OutAfter, Enqueue;
    var run' := Visit(f, flow, run, b, rest);
    if b in spin {
      WaveringIsNotStill(f, flow.code[b], run'.ins[b], run.outs[b]);
      var s :| s in flow.succ[b] && s in spin;
      assert s in run'.queue;
    } else {
      SpinWithout(f, flow, run.ins, run'.ins, b, spin);
      var c :| c in spin && c in run.queue;
      assert c in run'.queue;
    }
  }

  lemma SpinWithout(f: Transfer, flow: Flow, ins: Sets, ins': Sets, b: MIRBlock, spin: set<MIRBlock>)
    requires Closed(flow) && b !in spin && b in ins' && ins' == ins[b := ins'[b]] && Spinning(f, flow, ins', spin)
    ensures Spinning(f, flow, ins, spin)
  {
    hide Wavers, NoDuplicates;
  }

  lemma StartDoesNotSpin(f: Transfer, flow: Flow, spin: set<MIRBlock>)
    requires Closed(flow) && spin != {}
    ensures !Spinning(f, flow, Start(flow).ins, spin)
  {
    var b :| b in spin;
    assert b !in Start(flow).ins;
  }

  lemma {:induction false} RunSpins(f: Transfer, flow: Flow, n: nat, spin: set<MIRBlock>)
    requires Closed(flow) && spin != {}
    ensures var run := Turns(f, flow, Start(flow), n);
      Spinning(f, flow, run.ins, spin) ==> SomeQueued(spin, run.queue)
  {
    hide Turn, Start, Fits, Closed, Spinning, SomeQueued;
    if n == 0 {
      StartDoesNotSpin(f, flow, spin);
    } else {
      RunSpins(f, flow, n - 1, spin);
      SpinStaysQueued(f, flow, Turns(f, flow, Start(flow), n - 1), spin);
    }
  }

  /** When the queue is empty, no blocks waver in a circle at the loans they start with. */
  lemma EmptyQueueDoesNotSpin(f: Transfer, flow: Flow, n: nat, spin: set<MIRBlock>)
    requires Closed(flow) && Turns(f, flow, Start(flow), n).queue == [] && spin != {}
    ensures !Spinning(f, flow, Turns(f, flow, Start(flow), n).ins, spin)
  {
    RunSpins(f, flow, n, spin);
  }
}
