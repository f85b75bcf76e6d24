/**
 The middle-level IR as far as control flow and operands go: instructions, basic blocks
 that keep their own predecessor and successor lists, and functions.
 */
module Mir {

  /** What a MIRValue pointer can be: null, an instruction, or any other value (argument,
      global, constant, block, function). */
  datatype Value = NullValue | InstValue(inst: MIRInst) | OtherValue(number: nat)

  /** The instruction classes, with their operands and target blocks. `Opaque` stands for
      the classes that have neither: alloca, fence, landing pad, unreachable. */
  datatype InstKind =
    | Binary(lhs: Value, rhs: Value)
    | Compare(left: Value, right: Value)
    | FloatCompare(floatLeft: Value, floatRight: Value)
    | Store(stored: Value, storePtr: Value)
    | Load(loadPtr: Value)
    | StoreWeak(storedWeak: Value, storeWeakPtr: Value)
    | LoadWeak(loadWeakPtr: Value)
    | Arc(object: Value)
    | Branch(target: MIRBlock?)
    | CondBranch(condition: Value, trueBlock: MIRBlock?, falseBlock: MIRBlock?)
    | Switch(selector: Value, defaultBlock: MIRBlock?, cases: seq<(Value, MIRBlock?)>)
    | Return(returned: Value)
    | Call(callee: Value, args: seq<Value>)
    | Invoke(invoked: Value, invokeArgs: seq<Value>, normalDest: MIRBlock?, unwindDest: MIRBlock?)
    | Resume(resumed: Value)
    | Throw(thrown: Value, throwDest: MIRBlock?)
    | InlineAsm(asmArgs: seq<Value>)
    | MakeClosure(functionPointer: Value, captures: seq<Value>)
    | MakeShared(sharedOperand: Value)
    | Spawn(closure: Value)
    | Await(promise: Value)
    | ExtractValue(extracted: Value)
    | InsertValue(aggregate: Value, inserted: Value)
    | GetElementPtr(basePtr: Value, indices: seq<Value>)
    | Cast(casted: Value)
    | Phi(incoming: seq<(Value, MIRBlock?)>)
    | AtomicLoad(atomicPtr: Value)
    | AtomicStore(atomicStored: Value, atomicStorePtr: Value)
    | AtomicRMW(rmwPtr: Value, rmwValue: Value)
    | AtomicCmpXchg(casPtr: Value, expected: Value, desired: Value)
    | Opaque

  function OrNone(b: MIRBlock?): seq<MIRBlock> {
    if b == null then [] else [b]
  }

  function CaseTargets(cases: seq<(Value, MIRBlock?)>): seq<MIRBlock> {
    if cases == [] then [] else OrNone(cases[0].1) + CaseTargets(cases[1..])
  }

  /** The non-null blocks an instruction can transfer control to. */
  function Targets(kind: InstKind): seq<MIRBlock> {
    match kind
    case Throw(_, dest) => OrNone(dest)
    case Invoke(_, _, normal, unwind) => OrNone(normal) + OrNone(unwind)
    case Branch(dest) => OrNone(dest)
    case CondBranch(_, t, f) => OrNone(t) + OrNone(f)
    case Switch(_, def, cases) => OrNone(def) + CaseTargets(cases)
    case _ => []
  }

  lemma TargetsByClass(kind: InstKind)
    ensures kind.Branch? ==> Targets(kind) == OrNone(kind.target)
    ensures kind.CondBranch? ==> Targets(kind) == OrNone(kind.trueBlock) + OrNone(kind.falseBlock)
    ensures kind.Switch? ==> Targets(kind) == OrNone(kind.defaultBlock) + CaseTargets(kind.cases)
    ensures kind.Invoke? ==> Targets(kind) == OrNone(kind.normalDest) + OrNone(kind.unwindDest)
    ensures kind.Throw? ==> Targets(kind) == OrNone(kind.throwDest)
    ensures !kind.Branch? && !kind.CondBranch? && !kind.Switch? && !kind.Invoke? && !kind.Throw? ==> Targets(kind) == []
  {
  }

  // ---------------------------------------------------------------- where control can go

  /** The instruction is a branch to s, a conditional branch with s as a side, an invoke or throw
      with s as a destination, or a switch with s as its default or the block of a case. */
  predicate LeadsTo(kind: InstKind, s: MIRBlock) {
    || (kind.Branch? && kind.target == s)
    || (kind.CondBranch? && (kind.trueBlock == s || kind.falseBlock == s))
    || (kind.Invoke? && (kind.normalDest == s || kind.unwindDest == s))
    || (kind.Throw? && kind.throwDest == s)
    || (kind.Switch? && (kind.defaultBlock == s || exists k :: 0 <= k < |kind.cases| && kind.cases[k].1 == s))
  }

  lemma {:induction false} CaseTargetsAre(cases: seq<(Value, MIRBlock?)>, s: MIRBlock)
    ensures s in CaseTargets(cases) <==> exists k :: 0 <= k < |cases| && cases[k].1 == s
    decreases |cases|
  {
    if cases != [] {
      CaseTargetsAre(cases[1..], s);
      assert cases == [cases[0]] + cases[1..];
      if k :| 0 <= k < |cases[1..]| && cases[1..][k].1 == s {
        assert cases[k + 1].1 == s;
      }
    }
  }

  lemma TargetsAreThose(kind: InstKind, s: MIRBlock)
    ensures s in Targets(kind) <==> LeadsTo(kind, s)
  {
    if kind.Switch? {
      CaseTargetsAre(kind.cases, s);
    }
  }

  /** Which cases from k on have a block, by their positions in increasing order. */
  predicate CasesWithBlock(cases: seq<(Value, MIRBlock?)>, k: nat, at: seq<nat>) {
    && (forall n :: 0 <= n < |at| ==> k <= at[n] < |cases| && cases[at[n]].1 != null)
    && (forall m, n :: 0 <= m < n < |at| ==> at[m] < at[n])
    && (forall c :: k <= c < |cases| && cases[c].1 != null ==> c in at)
  }

  /** The blocks of the cases come one by one and in their order. */
  lemma {:induction false} CasesKeepOrder(cases: seq<(Value, MIRBlock?)>, k: nat := 0) returns (at: seq<nat>)
    requires k <= |cases|
    ensures CasesWithBlock(cases, k, at) && |CaseTargets(cases[k..])| == |at|
    ensures forall n :: 0 <= n < |at| ==> CaseTargets(cases[k..])[n] == cases[at[n]].1
    decreases |cases| - k
  {
    at := [];
    if k < |cases| {
      var rest := CasesKeepOrder(cases, k + 1);
      assert cases[k..][0] == cases[k] && cases[k..][1..] == cases[k + 1..];
      at := rest;
      if cases[k].1 != null {
        at := [k] + rest;
        OneMoreCase(cases, k, rest);
      }
    }
  }

  lemma OneMoreCase(cases: seq<(Value, MIRBlock?)>, k: nat, rest: seq<nat>)
    requires k < |cases| && cases[k].1 != null && CasesWithBlock(cases, k + 1, rest)
    ensures CasesWithBlock(cases, k, [k] + rest)
  {
    var at := [k] + rest;
    forall c | k <= c < |cases| && cases[c].1 != null ensures c in at {
      if c > k {
        assert c in rest;
      }
    }
  }

  /** The operands that the SSA check looks at. */
  function GetOperands(kind: InstKind): seq<Value> {
    match kind
    case Binary(l, r) => [l, r]
    case Store(v, p) => [v, p]
    case Load(p) => [p]
    case StoreWeak(v, p) => [v, p]
    case LoadWeak(p) => [p]
    case Arc(o) => [o]
    case CondBranch(c, _, _) => [c]
    case Return(v) => if v.NullValue? then [] else [v]
    case Call(f, args) => [f] + args
    case Invoke(f, args, _, _) => [f] + args
    case Resume(e) => [e]
    case Throw(e, _) => [e]
    case InlineAsm(args) => args
    case MakeClosure(f, captures) => [f] + captures
    case Spawn(c) => [c]
    case Await(p) => [p]
    case ExtractValue(a) => [a]
    case InsertValue(a, v) => [a, v]
    case Cast(v) => [v]
    case _ => []
  }

  class MIRInst {
    const kind: InstKind
    var parent: MIRBlock?

    constructor (kind: InstKind)
      ensures this.kind == kind && parent == null
    {
      this.kind, parent := kind, null;
    }
  }

  class MIRBlock {
    var instructions: seq<MIRInst>
    var predecessors: seq<MIRBlock>
    var successors: seq<MIRBlock>

    constructor ()
      ensures instructions == [] && predecessors == [] && successors == []
    {
      instructions, predecessors, successors := [], [], [];
    }

    method AddPredecessor(pred: MIRBlock)
      modifies this`predecessors
      ensures predecessors == AddUnique(old(predecessors), pred)
      ensures pred in predecessors && old(predecessors) <= predecessors
      ensures NoDuplicates(old(predecessors)) ==> NoDuplicates(predecessors)
    {
      if pred !in predecessors {
        predecessors := predecessors + [pred];
      }
    }

    method AddSuccessor(succ: MIRBlock)
      modifies this`successors
      ensures successors == AddUnique(old(successors), succ)
      ensures succ in successors && old(successors) <= successors
      ensures NoDuplicates(old(successors)) ==> NoDuplicates(successors)
    {
      if succ !in successors {
        successors := successors + [succ];
      }
    }

    method RemovePredecessor(pred: MIRBlock)
      modifies this`predecessors
      ensures predecessors == Without(old(predecessors), pred)
    {
      predecessors := Without(predecessors, pred);
    }

    method RemoveSuccessor(succ: MIRBlock)
      modifies this`successors
      ensures successors == Without(old(successors), succ)
    {
      successors := Without(successors, succ);
    }

    /** The two calls the source makes for every non-null target. */
    method Wire(dest: MIRBlock, ghost blocks: set<MIRBlock>)
      requires this in blocks && dest in blocks
      modifies this`successors, dest`predecessors
      ensures CfgOf(blocks) == old(CfgOf(blocks)).AddEdge(this, dest)
    {
      ghost var g := CfgOf(blocks);
      AddSuccessor(dest);
      assert CfgOf(blocks).succ == g.succ[this := AddUnique(g.succ[this], dest)];
      dest.AddPredecessor(this);
      assert CfgOf(blocks).pred == g.pred[dest := AddUnique(g.pred[dest], this)];
    }

    /** The two calls by which passes take an edge away. */
    method Unwire(dest: MIRBlock, ghost blocks: set<MIRBlock>)
      requires this in blocks && dest in blocks
      modifies this`successors, dest`predecessors
      ensures CfgOf(blocks) == old(CfgOf(blocks)).RemoveEdge(this, dest)
    {
      hide Without;
      ghost var g := CfgOf(blocks);
      RemoveSuccessor(dest);
      assert CfgOf(blocks).succ == g.succ[this := Without(g.succ[this], dest)];
      dest.RemovePredecessor(this);
      assert CfgOf(blocks).pred == g.pred[dest := Without(g.pred[dest], this)];
    }

    method WireIfPresent(dest: MIRBlock?, ghost blocks: set<MIRBlock>)
      requires this in blocks && forall t :: t in OrNone(dest) ==> t in blocks
      modifies this`successors, blocks`predecessors
      ensures CfgOf(blocks) == old(CfgOf(blocks)).AddEdges(this, OrNone(dest))
    {
      if dest != null {
        Wire(dest, blocks);
      }
    }

    method WireCases(cases: seq<(Value, MIRBlock?)>, ghost blocks: set<MIRBlock>)
      requires this in blocks && forall t :: t in CaseTargets(cases) ==> t in blocks
      modifies this`successors, blocks`predecessors
      ensures CfgOf(blocks) == old(CfgOf(blocks)).AddEdges(this, CaseTargets(cases))
    {
      ghost var g := CfgOf(blocks);
      var k := 0;
      while k < |cases|
        invariant k <= |cases|
        invariant forall t :: t in CaseTargets(cases[k..]) ==> t in blocks
        invariant g.AddEdges(this, CaseTargets(cases)) == CfgOf(blocks).AddEdges(this, CaseTargets(cases[k..]))
      {
        ghost var h := CfgOf(blocks);
        h.AddEdgesConcat(this, OrNone(cases[k].1), CaseTargets(cases[k..][1..]));
        assert cases[k..][1..] == cases[k + 1..];
        WireIfPresent(cases[k].1, blocks);
        k := k + 1;
      }
    }

    method WirePair(first: MIRBlock?, second: MIRBlock?, ghost blocks: set<MIRBlock>)
      requires this in blocks && forall t :: t in OrNone(first) + OrNone(second) ==> t in blocks
      modifies this`successors, blocks`predecessors
      ensures CfgOf(blocks) == old(CfgOf(blocks)).AddEdges(this, OrNone(first) + OrNone(second))
    {
      CfgOf(blocks).AddEdgesConcat(this, OrNone(first), OrNone(second));
      WireIfPresent(first, blocks);
      WireIfPresent(second, blocks);
    }

    method WireSwitch(def: MIRBlock?, cases: seq<(Value, MIRBlock?)>, ghost blocks: set<MIRBlock>)
      requires this in blocks && forall t :: t in OrNone(def) + CaseTargets(cases) ==> t in blocks
      modifies this`successors, blocks`predecessors
      ensures CfgOf(blocks) == old(CfgOf(blocks)).AddEdges(this, OrNone(def) + CaseTargets(cases))
    {
      CfgOf(blocks).AddEdgesConcat(this, OrNone(def), CaseTargets(cases));
      WireIfPresent(def, blocks);
      WireCases(cases, blocks);
    }

    method WireTargets(kind: InstKind, ghost blocks: set<MIRBlock>)
      requires this in blocks && forall t :: t in Targets(kind) ==> t in blocks
      modifies this`successors, blocks`predecessors
      ensures CfgOf(blocks) == old(CfgOf(blocks)).AddEdges(this, Targets(kind))
    {
      ghost var g := CfgOf(blocks);
      ghost var targets := Targets(kind);
      TargetsByClass(kind);
      assert g.AddEdges(this, []) == g;
      hide CfgOf, OrNone, CaseTargets, Targets, Cfg.AddEdges;
      if kind.Throw? {
        WireIfPresent(kind.throwDest, blocks);
      } else if kind.Invoke? {
        WirePair(kind.normalDest, kind.unwindDest, blocks);
      } else if kind.Branch? {
        WireIfPresent(kind.target, blocks);
      } else if kind.CondBranch? {
        WirePair(kind.trueBlock, kind.falseBlock, blocks);
      } else if kind.Switch? {
        WireSwitch(kind.defaultBlock, kind.cases, blocks);
      }
    }

    /** Takes ownership of an instruction and wires the edges of a terminator. */
    method AddInstruction(inst: MIRInst?, ghost blocks: set<MIRBlock>)
      requires this in blocks
      requires inst != null ==> forall t :: t in Targets(inst.kind) ==> t in blocks
      modifies this`instructions, this`successors, blocks`predecessors
      modifies (if inst == null then {} else {inst})`parent
      ensures inst == null ==> instructions == old(instructions) && CfgOf(blocks) == old(CfgOf(blocks))
      ensures inst != null ==>
        && instructions == old(instructions) + [inst]
        && inst.parent == this
        && CfgOf(blocks) == old(CfgOf(blocks)).AddEdges(this, Targets(inst.kind))
        && EdgesLead(old(CfgOf(blocks)), CfgOf(blocks), this, inst.kind)
    {
      if inst == null {
        return;
      }
      hide EdgesLead, Targets, Cfg.AddEdges;
      InsertionLeads(CfgOf(blocks), this, inst.kind);
      inst.parent := this;
      WireTargets(inst.kind, blocks);
      instructions := instructions + [inst];
    }
  }

  class MIRFunction {
    var blocks: seq<MIRBlock>

    constructor ()
      ensures blocks == []
    {
      blocks := [];
    }

    ghost function BlockSet(): set<MIRBlock>
      reads this
    {
      set b | b in blocks
    }
  }

  // ---------------------------------------------------------------- the flow graph as a value

  function AddUnique<T(==)>(s: seq<T>, x: T): seq<T> {
    if x in s then s else s + [x]
  }

  /** Adding is idempotent, keeps the order and adds exactly x. */
  lemma AddUniqueElements<T>(s: seq<T>, x: T)
    ensures s <= AddUnique(s, x) && AddUnique(AddUnique(s, x), x) == AddUnique(s, x)
    ensures forall y :: y in AddUnique(s, x) <==> y in s || y == x
    ensures NoDuplicates(s) ==> NoDuplicates(AddUnique(s, x))
  {
  }

  /** All occurrences of x are taken out; the others keep their order. */
  function Without<T(==)>(s: seq<T>, x: T): seq<T> {
    if s == [] then [] else
      Without(s[..|s| - 1], x) + if s[|s| - 1] == x then [] else [s[|s| - 1]]
  }

  lemma {:induction false} WithoutElements<T>(s: seq<T>, x: T)
    ensures forall y :: y in Without(s, x) <==> y in s && y != x
    ensures NoDuplicates(s) ==> NoDuplicates(Without(s, x))
    ensures x !in s ==> Without(s, x) == s
    decreases |s|
  {
    if s != [] {
      var front := s[..|s| - 1];
      WithoutElements(front, x);
      assert s == front + [s[|s| - 1]];
      if NoDuplicates(s) {
        assert NoDuplicates(front);
        assert s[|s| - 1] !in front;
      }
    }
  }

  lemma WithoutUndoes<T>(s: seq<T>, x: T)
    requires x !in s
    ensures Without(AddUnique(s, x), x) == s
  {
    WithoutElements(s, x);
    assert (s + [x])[..|s|] == s;
  }

  ghost predicate NoDuplicates<T>(s: seq<T>) {
    forall i, j :: 0 <= i < j < |s| ==> s[i] != s[j]
  }

  /** The edge lists of a set of blocks at one moment. */
  datatype Cfg = Cfg(succ: map<MIRBlock, seq<MIRBlock>>, pred: map<MIRBlock, seq<MIRBlock>>) {

    ghost function AddEdge(a: MIRBlock, b: MIRBlock): Cfg
      requires a in succ && b in pred
    {
      Cfg(succ[a := AddUnique(succ[a], b)], pred[b := AddUnique(pred[b], a)])
    }

    ghost function RemoveEdge(a: MIRBlock, b: MIRBlock): Cfg
      requires a in succ && b in pred
    {
      Cfg(succ[a := Without(succ[a], b)], pred[b := Without(pred[b], a)])
    }

    ghost function AddEdges(a: MIRBlock, targets: seq<MIRBlock>): (g: Cfg)
      requires a in succ && forall t :: t in targets ==> t in pred
      ensures g.succ.Keys == succ.Keys && g.pred.Keys == pred.Keys
      decreases |targets|
    {
      if targets == [] then this else AddEdge(a, targets[0]).AddEdges(a, targets[1..])
    }

    lemma {:induction false} AddEdgesConcat(a: MIRBlock, s: seq<MIRBlock>, t: seq<MIRBlock>)
      requires a in succ && forall x :: x in s + t ==> x in pred
      ensures forall x :: x in s || x in t ==> x in s + t
      ensures AddEdges(a, s + t) == AddEdges(a, s).AddEdges(a, t)
      decreases |s|
    {
      if s == [] {
        assert s + t == t;
      } else {
        assert (s + t)[1..] == s[1..] + t;
        AddEdge(a, s[0]).AddEdgesConcat(a, s[1..], t);
      }
    }

    /** Both lists of every block are duplicate-free, stay inside the graph and mirror each
        other. */
    ghost predicate WellWired() {
      && succ.Keys == pred.Keys
      && (forall b :: b in succ ==> NoDuplicates(succ[b]) && NoDuplicates(pred[b]))
      && (forall a, b :: a in succ && b in succ[a] ==> b in pred && a in pred[b])
      && (forall a, b :: b in pred && a in pred[b] ==> a in succ && b in succ[a])
    }
  }

  ghost function CfgOf(blocks: set<MIRBlock>): Cfg
    reads blocks`successors, blocks`predecessors
  {
    Cfg(map b | b in blocks :: b.successors, map b | b in blocks :: b.predecessors)
  }

  // ---------------------------------------------------------------- runs of insertions

  datatype Insertion = Insertion(block: MIRBlock, kind: InstKind)

  /** The graph after a sequence of insertions into blocks that had no edges. */
  ghost function Replay(blocks: set<MIRBlock>, run: seq<Insertion>): (g: Cfg)
    requires forall e :: e in run ==> e.block in blocks && forall t :: t in Targets(e.kind) ==> t in blocks
    ensures g.succ.Keys == blocks && g.pred.Keys == blocks
  {
    if run == [] then
      Cfg(map b | b in blocks :: [], map b | b in blocks :: [])
    else
      var last := run[|run| - 1];
      Replay(blocks, run[..|run| - 1]).AddEdges(last.block, Targets(last.kind))
  }

  lemma {:induction false} AddEdgesKeepsWiring(g: Cfg, a: MIRBlock, targets: seq<MIRBlock>)
    requires g.WellWired() && a in g.succ && forall t :: t in targets ==> t in g.pred
    ensures g.AddEdges(a, targets).WellWired()
    decreases |targets|
  {
    if targets != [] {
      var h := g.AddEdge(a, targets[0]);
      assert h.WellWired();
      AddEdgesKeepsWiring(h, a, targets[1..]);
    }
  }

  ghost predicate HasEdge(lists: map<MIRBlock, seq<MIRBlock>>, x: MIRBlock, y: MIRBlock) {
    x in lists && y in lists[x]
  }

  ghost predicate DistinctLists(lists: map<MIRBlock, seq<MIRBlock>>) {
    forall x :: x in lists ==> NoDuplicates(lists[x])
  }

  lemma WiredIffMirrored(g: Cfg)
    requires g.succ.Keys == g.pred.Keys
    requires DistinctLists(g.succ) && DistinctLists(g.pred)
    ensures g.WellWired() <==> forall x, y :: HasEdge(g.succ, x, y) <==> HasEdge(g.pred, y, x)
  {
    hide NoDuplicates;
    if forall x, y :: HasEdge(g.succ, x, y) <==> HasEdge(g.pred, y, x) {
      forall x, y | x in g.succ && y in g.succ[x] ensures y in g.pred && x in g.pred[y] {
        assert HasEdge(g.succ, x, y);
      }
      forall x, y | y in g.pred && x in g.pred[y] ensures x in g.succ && y in g.succ[x] {
        assert HasEdge(g.pred, y, x);
      }
    }
  }

  lemma WithoutEdge(lists: map<MIRBlock, seq<MIRBlock>>, a: MIRBlock, b: MIRBlock)
    requires a in lists && DistinctLists(lists)
    ensures var lists' := lists[a := Without(lists[a], b)];
      && DistinctLists(lists')
      && (forall x, y :: HasEdge(lists', x, y) <==> HasEdge(lists, x, y) && (x, y) != (a, b))
  {
    WithoutElements(lists[a], b);
    hide Without, NoDuplicates;
  }

  /** Taking an edge away at both ends leaves the lists well wired and removes that edge only. */
  lemma RemoveEdgeKeepsWiring(g: Cfg, a: MIRBlock, b: MIRBlock)
    requires g.WellWired() && a in g.succ && b in g.pred
    ensures g.RemoveEdge(a, b).WellWired()
    ensures forall x, y :: HasEdge(g.RemoveEdge(a, b).succ, x, y) <==> HasEdge(g.succ, x, y) && (x, y) != (a, b)
  {
    assert DistinctLists(g.succ) && DistinctLists(g.pred);
    hide DistinctLists;
    WiredIffMirrored(g);
    WithoutEdge(g.succ, a, b);
    WithoutEdge(g.pred, b, a);
    hide Without, NoDuplicates, HasEdge;
    var h := g.RemoveEdge(a, b);
    assert h.succ.Keys == h.pred.Keys;
    WiredIffMirrored(h);
  }

  /** Removing an edge undoes adding it. */
  lemma RemoveEdgeUndoesAddEdge(g: Cfg, a: MIRBlock, b: MIRBlock)
    requires g.WellWired() && a in g.succ && b in g.pred && b !in g.succ[a]
    ensures g.AddEdge(a, b).RemoveEdge(a, b) == g
  {
    assert a !in g.pred[b];
    WithoutUndoes(g.succ[a], b);
    WithoutUndoes(g.pred[b], a);
    hide Without, AddUnique, NoDuplicates;
    var h := g.AddEdge(a, b).RemoveEdge(a, b);
    assert h.succ == g.succ;
    assert h.pred == g.pred;
  }

  lemma {:induction false} AddEdgesAddsTargets(g: Cfg, a: MIRBlock, targets: seq<MIRBlock>, b: MIRBlock, s: MIRBlock)
    requires a in g.succ && b in g.succ && forall t :: t in targets ==> t in g.pred
    ensures s in g.AddEdges(a, targets).succ[b] <==> s in g.succ[b] || (b == a && s in targets)
    decreases |targets|
  {
    if targets != [] {
      AddEdgesAddsTargets(g.AddEdge(a, targets[0]), a, targets[1..], b, s);
      assert targets == [targets[0]] + targets[1..];
    }
  }

  /** New edges come after the old ones, in the order of the targets. */
  lemma {:induction false} AddEdgesAppends(g: Cfg, a: MIRBlock, targets: seq<MIRBlock>)
    requires a in g.succ && forall t :: t in targets ==> t in g.pred
    ensures g.succ[a] <= g.AddEdges(a, targets).succ[a]
    ensures NoDuplicates(g.succ[a] + targets) ==> g.AddEdges(a, targets).succ[a] == g.succ[a] + targets
    ensures forall b :: b in g.succ && b != a ==> g.AddEdges(a, targets).succ[b] == g.succ[b]
    ensures forall t :: t in g.pred ==>
      g.AddEdges(a, targets).pred[t] == if t in targets then AddUnique(g.pred[t], a) else g.pred[t]
    decreases |targets|
  {
    if targets != [] {
      var h := g.AddEdge(a, targets[0]);
      assert targets == [targets[0]] + targets[1..];
      AddEdgesAppends(h, a, targets[1..]);
      if NoDuplicates(g.succ[a] + targets) {
        NewEdgeIsLast(g.succ[a], targets);
      }
    }
  }

  /** Exactly the blocks that the instruction leads to are added to the successors of a, and a to
      their predecessors. */
  ghost predicate EdgesLead(g: Cfg, h: Cfg, a: MIRBlock, kind: InstKind) {
    && g.succ.Keys == h.succ.Keys && g.pred.Keys == h.pred.Keys && a in g.succ
    && (forall s :: s in g.pred ==> (s in h.succ[a] <==> s in g.succ[a] || LeadsTo(kind, s)))
    && (forall s :: s in h.succ[a] ==> s in g.succ[a] || s in g.pred)
    && (forall b :: b in g.succ && b != a ==> h.succ[b] == g.succ[b])
    && (forall t :: t in g.pred ==> (a in h.pred[t] <==> a in g.pred[t] || LeadsTo(kind, t)))
  }

  lemma InsertionLeads(g: Cfg, a: MIRBlock, kind: InstKind)
    requires a in g.succ && g.succ.Keys == g.pred.Keys && forall t :: t in Targets(kind) ==> t in g.pred
    ensures EdgesLead(g, g.AddEdges(a, Targets(kind)), a, kind)
  {
    SuccessorsLead(g, a, kind);
    PredecessorsLead(g, a, kind);
    hide Targets, LeadsTo, Cfg.AddEdges;
  }

  lemma SuccessorsLead(g: Cfg, a: MIRBlock, kind: InstKind)
    requires a in g.succ && forall t :: t in Targets(kind) ==> t in g.pred
    ensures var h := g.AddEdges(a, Targets(kind));
      && (forall s :: s in g.pred ==> (s in h.succ[a] <==> s in g.succ[a] || LeadsTo(kind, s)))
      && (forall s :: s in h.succ[a] ==> s in g.succ[a] || s in g.pred)
  {
    hide Targets, LeadsTo, Cfg.AddEdges;
    var h := g.AddEdges(a, Targets(kind));
    forall s | s in g.pred ensures s in h.succ[a] <==> s in g.succ[a] || LeadsTo(kind, s) {
      AddEdgesAddsTargets(g, a, Targets(kind), a, s);
      TargetsAreThose(kind, s);
    }
    forall s | s in h.succ[a] ensures s in g.succ[a] || s in g.pred {
      AddEdgesAddsTargets(g, a, Targets(kind), a, s);
    }
  }

  lemma PredecessorsLead(g: Cfg, a: MIRBlock, kind: InstKind)
    requires a in g.succ && forall t :: t in Targets(kind) ==> t in g.pred
    ensures var h := g.AddEdges(a, Targets(kind));
      && (forall b :: b in g.succ && b != a ==> h.succ[b] == g.succ[b])
      && (forall t :: t in g.pred ==> (a in h.pred[t] <==> a in g.pred[t] || LeadsTo(kind, t)))
  {
    AddEdgesAppends(g, a, Targets(kind));
    hide Targets, LeadsTo, Cfg.AddEdges, NoDuplicates, AddUnique;
    var h := g.AddEdges(a, Targets(kind));
    forall t | t in g.pred ensures a in h.pred[t] <==> a in g.pred[t] || LeadsTo(kind, t) {
      TargetsAreThose(kind, t);
      AddUniqueElements(g.pred[t], a);
    }
  }

  lemma NewEdgeIsLast(s: seq<MIRBlock>, targets: seq<MIRBlock>)
    requires targets != [] && NoDuplicates(s + targets)
    ensures AddUnique(s, targets[0]) == s + [targets[0]]
    ensures s + [targets[0]] + targets[1..] == s + targets
  {
    assert (s + targets)[|s|] == targets[0];
    forall k | 0 <= k < |s| ensures s[k] != targets[0] {
      assert (s + targets)[k] == s[k];
    }
  }

  /** After any run of insertions, self-loops included, the lists are duplicate-free and
      mirror each other. */
  lemma {:induction false} RunsAreWellWired(blocks: set<MIRBlock>, run: seq<Insertion>)
    requires forall e :: e in run ==> e.block in blocks && forall t :: t in Targets(e.kind) ==> t in blocks
    ensures Replay(blocks, run).WellWired()
    decreases |run|
  {
    if run != [] {
      var last, front := run[|run| - 1], run[..|run| - 1];
      RunsAreWellWired(blocks, front);
      AddEdgesKeepsWiring(Replay(blocks, front), last.block, Targets(last.kind));
    }
  }

  /** ... and the successors of a block are exactly the blocks that the instructions inserted in it
      lead to. */
  lemma {:induction false} SuccessorsAreTargets(blocks: set<MIRBlock>, run: seq<Insertion>, b: MIRBlock, s: MIRBlock)
    requires forall e :: e in run ==> e.block in blocks && forall t :: t in Targets(e.kind) ==> t in blocks
    requires b in blocks
    ensures s in Replay(blocks, run).succ[b] <==> exists e :: e in run && e.block == b && LeadsTo(e.kind, s)
    decreases |run|
  {
    if run != [] {
      var last, front := run[|run| - 1], run[..|run| - 1];
      assert run == front + [last];
      SuccessorsAreTargets(blocks, front, b, s);
      AddEdgesAddsTargets(Replay(blocks, front), last.block, Targets(last.kind), b, s);
      TargetsAreThose(last.kind, s);
    }
  }
}
