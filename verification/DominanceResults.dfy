/** What the queries mean after an analysis, and what the SSA check guarantees. */
module DominanceResults {
  import opened Mir
  import opened DominatorTree
  import opened FlowGraph
  import opened ReversePostOrder
  import opened DominatorMaps
  import opened Dominance

  ghost predicate StrictlyDominates(g: Cfg, entry: MIRBlock, a: MIRBlock, b: MIRBlock) {
    a != b && FlowGraph.Dominates(g, entry, a, b)
  }

  /** A strict dominator of b that every other strict dominator of b dominates. */
  ghost predicate ImmediatelyDominates(g: Cfg, entry: MIRBlock, c: MIRBlock, b: MIRBlock)
  {
    && StrictlyDominates(g, entry, c, b)
    && forall a :: a in g.succ && StrictlyDominates(g, entry, a, b) ==> FlowGraph.Dominates(g, entry, a, c)
  }

  // ---------------------------------------------------------------- blocks and numbers

  /** The numbered blocks are the reachable ones. */
  lemma ReachableIsNumbered(d: MIRDominance, g: Cfg, entry: MIRBlock, b: MIRBlock)
    requires d.Analyzed(g, entry)
    ensures Reachable(g, entry, b) <==> b in d.number
    ensures b in d.number <==> b in d.dfsNumbers
    ensures b in d.number <==> b in d.idoms
    ensures b in d.number ==> d.number[b] < |d.par| && d.order[d.number[b]] == b && b in g.succ
  {
    OrderIsReachable(g, entry, d.order, b);
    if b in d.number {
      var x := d.number[b];
      assert d.par[x] < |d.par| && d.order[x] == b && x in d.num;
    }
    if b in d.order {
      var x :| 0 <= x < |d.order| && d.order[x] == b;
      assert b in d.number;
    }
  }

  /** Tree ancestry of numbers is dominance of blocks. */
  lemma AncestryIsDominance(d: MIRDominance, g: Cfg, entry: MIRBlock, a: MIRBlock, b: MIRBlock)
    requires d.Analyzed(g, entry) && a in d.number && b in d.number
    ensures d.number[a] < |d.par| && d.number[b] < |d.par|
    ensures Anc(d.par, d.number[a], d.number[b]) <==> FlowGraph.Dominates(g, entry, a, b)
  {
    ReachableIsNumbered(d, g, entry, a);
    ReachableIsNumbered(d, g, entry, b);
    AncestorsAreDominators(IndexPreds(g, d.order), d.par, d.number[a], d.number[b]);
    NumbersKeepDominance(g, entry, d.order, d.number[a], d.number[b]);
  }

  lemma DominatorIsNumbered(d: MIRDominance, g: Cfg, entry: MIRBlock, a: MIRBlock, b: MIRBlock)
    requires d.Analyzed(g, entry) && b in d.number && FlowGraph.Dominates(g, entry, a, b)
    ensures a in d.number
  {
    ReachableIsNumbered(d, g, entry, b);
    var x := DominatorIsEarlier(g, entry, d.order, a, d.number[b]);
    assert d.order[x] in d.number;
  }

  // ---------------------------------------------------------------- the queries

  /** The interval query answers dominance for every reachable block b, and a == b for an
      unreachable one. */
  lemma QueryIsDominance(d: MIRDominance, g: Cfg, entry: MIRBlock, a: MIRBlock, b: MIRBlock)
    requires d.Analyzed(g, entry)
    ensures Reachable(g, entry, b) ==> (d.Dominates(a, b) <==> FlowGraph.Dominates(g, entry, a, b))
    ensures !Reachable(g, entry, b) ==> (d.Dominates(a, b) <==> a == b)
  {
    ReachableIsNumbered(d, g, entry, a);
    ReachableIsNumbered(d, g, entry, b);
    if b in d.number {
      if a in d.number {
        AncestryIsDominance(d, g, entry, a, b);
        IntervalsAreAncestry(d, g, entry, a, b);
      } else if FlowGraph.Dominates(g, entry, a, b) {
        DominatorIsNumbered(d, g, entry, a, b);
      }
    }
  }

  lemma IntervalsAreAncestry(d: MIRDominance, g: Cfg, entry: MIRBlock, a: MIRBlock, b: MIRBlock)
    requires d.Analyzed(g, entry) && a in d.number && b in d.number
    ensures d.number[a] < |d.par| && d.number[b] < |d.par|
    ensures d.Dominates(a, b) <==> Anc(d.par, d.number[a], d.number[b])
  {
    ReachableIsNumbered(d, g, entry, a);
    ReachableIsNumbered(d, g, entry, b);
    assert d.number[a] in d.num && d.number[b] in d.num;
  }

  /** For a reachable block other than the entry, GetIDom is its immediate dominator, and the
      only one. */
  lemma IDomIsImmediate(d: MIRDominance, g: Cfg, entry: MIRBlock, b: MIRBlock, c: MIRBlock)
    requires d.Analyzed(g, entry) && Reachable(g, entry, b) && b != entry
    ensures ImmediatelyDominates(g, entry, c, b) <==> d.GetIDom(b) == c
  {
    ReachableIsNumbered(d, g, entry, b);
    TrackedEntry(d.order, d.number, d.par, d.idoms, b);
    var i := d.idoms[b];
    IDomStrictlyDominates(d, g, entry, b);
    forall a | a in g.succ && StrictlyDominates(g, entry, a, b) ensures FlowGraph.Dominates(g, entry, a, i) {
      OthersDominateIDom(d, g, entry, a, b);
    }
    ReachableIsNumbered(d, g, entry, i);
    if ImmediatelyDominates(g, entry, c, b) {
      OthersDominateIDom(d, g, entry, c, b);
      MutualDominatorsAreEqual(d, g, entry, c, i);
    }
  }

  /** The entry is its own, and an unreachable block has none. */
  lemma IDomElsewhere(d: MIRDominance, g: Cfg, entry: MIRBlock, b: MIRBlock)
    requires d.Analyzed(g, entry)
    ensures d.GetIDom(entry) == entry
    ensures !Reachable(g, entry, b) <==> d.GetIDom(b) == null
  {
    ReachableIsNumbered(d, g, entry, b);
    if b in d.number {
      TrackedEntry(d.order, d.number, d.par, d.idoms, b);
    }
  }

  lemma IDomStrictlyDominates(d: MIRDominance, g: Cfg, entry: MIRBlock, b: MIRBlock)
    requires d.Analyzed(g, entry) && b in d.number && b in d.idoms && b != entry
    ensures d.idoms[b] in d.number && StrictlyDominates(g, entry, d.idoms[b], b)
  {
    var i := d.idoms[b];
    TrackedEntry(d.order, d.number, d.par, d.idoms, b);
    ReachableIsNumbered(d, g, entry, i);
    assert Anc(d.par, d.number[i], d.par[d.number[b]]);
    AncestryIsDominance(d, g, entry, i, b);
  }

  lemma OthersDominateIDom(d: MIRDominance, g: Cfg, entry: MIRBlock, a: MIRBlock, b: MIRBlock)
    requires d.Analyzed(g, entry) && b in d.number && b in d.idoms && b != entry
    requires StrictlyDominates(g, entry, a, b)
    ensures a in d.number && FlowGraph.Dominates(g, entry, a, d.idoms[b])
  {
    TrackedEntry(d.order, d.number, d.par, d.idoms, b);
    DominatorIsNumbered(d, g, entry, a, b);
    AncestryIsDominance(d, g, entry, a, b);
    ReachableIsNumbered(d, g, entry, a);
    ReachableIsNumbered(d, g, entry, d.idoms[b]);
    AncestryIsDominance(d, g, entry, a, d.idoms[b]);
  }

  lemma MutualDominatorsAreEqual(d: MIRDominance, g: Cfg, entry: MIRBlock, a: MIRBlock, b: MIRBlock)
    requires d.Analyzed(g, entry) && a in d.number && b in d.number
    requires FlowGraph.Dominates(g, entry, a, b) && FlowGraph.Dominates(g, entry, b, a)
    ensures a == b
  {
    AncestryIsDominance(d, g, entry, a, b);
    AncestryIsDominance(d, g, entry, b, a);
    AncIsNotLater(d.par, d.number[a], d.number[b]);
    AncIsNotLater(d.par, d.number[b], d.number[a]);
  }

  /** The children lists hold every block other than the entry once, under its immediate
      dominator. */
  lemma ChildrenAreImmediatelyDominated(d: MIRDominance, g: Cfg, entry: MIRBlock, b: MIRBlock, c: MIRBlock)
    requires d.Analyzed(g, entry) && Reachable(g, entry, c) && c != entry
    ensures NoDuplicates(d.GetChildren(b))
    ensures c in d.GetChildren(b) <==> ImmediatelyDominates(g, entry, b, c)
  {
    ReachableIsNumbered(d, g, entry, c);
    TrackedEntry(d.order, d.number, d.par, d.idoms, c);
    IDomIsImmediate(d, g, entry, c, b);
    var y := d.number[c];
    assert d.order[y] in d.domTree[d.order[d.par[y]]];
    if b in d.domTree {
      ChildrenOfListed(d.order, d.number, d.par, d.domTree, b);
      var list := d.domTree[b];
      var cs := NumbersOf(d.number, list);
      forall i, j | 0 <= i < j < |list| ensures list[i] != list[j] {
        assert cs[i] != cs[j];
      }
      if c in list {
        var j :| 0 <= j < |list| && list[j] == c;
        assert d.par[cs[j]] == d.number[b];
      }
    }
  }

  ghost function StrictDominators(g: Cfg, entry: MIRBlock, b: MIRBlock): set<MIRBlock> {
    set a | a in g.succ && StrictlyDominates(g, entry, a, b)
  }

  lemma ImageOfNumbers(order: seq<MIRBlock>, S: set<nat>)
    requires NoDuplicates(order) && forall x :: x in S ==> x < |order|
    ensures |set x | x in S :: order[x]| == |S|
    decreases |S|
  {
    if S != {} {
      var x :| x in S;
      ImageOfNumbers(order, S - {x});
      assert (set y | y in S :: order[y]) == (set y | y in S - {x} :: order[y]) + {order[x]};
    }
  }

  lemma StrictDominatorNumber(d: MIRDominance, g: Cfg, entry: MIRBlock, a: MIRBlock, b: MIRBlock)
    requires d.Analyzed(g, entry) && b in d.number && a in StrictDominators(g, entry, b)
    ensures a in d.number && d.number[a] < |d.order| && d.order[d.number[a]] == a
    ensures d.number[b] < |d.par| && d.number[a] in StrictAncestors(d.par, d.number[b])
  {
    DominatorIsNumbered(d, g, entry, a, b);
    ReachableIsNumbered(d, g, entry, a);
    ReachableIsNumbered(d, g, entry, b);
    AncestryIsDominance(d, g, entry, a, b);
    AncIsNotLater(d.par, d.number[a], d.number[b]);
  }

  lemma StrictAncestorBlock(d: MIRDominance, g: Cfg, entry: MIRBlock, z: nat, b: MIRBlock)
    requires d.Analyzed(g, entry) && b in d.number && d.number[b] < |d.par|
    requires z in StrictAncestors(d.par, d.number[b])
    ensures z < |d.order| && d.order[z] in StrictDominators(g, entry, b)
  {
    assert d.order[z] in d.number && d.number[d.order[z]] == z;
    AncestryIsDominance(d, g, entry, d.order[z], b);
    ReachableIsNumbered(d, g, entry, d.order[z]);
  }

  lemma StrictDominatorsByNumber(d: MIRDominance, g: Cfg, entry: MIRBlock, b: MIRBlock)
    requires d.Analyzed(g, entry) && b in d.number && d.number[b] < |d.par|
    ensures forall z :: z in StrictAncestors(d.par, d.number[b]) ==> z < |d.order|
    ensures StrictDominators(g, entry, b) == set z | z in StrictAncestors(d.par, d.number[b]) :: d.order[z]
  {
    var S := StrictAncestors(d.par, d.number[b]);
    forall z | z in S ensures z < |d.order| && d.order[z] in StrictDominators(g, entry, b) {
      StrictAncestorBlock(d, g, entry, z, b);
    }
    forall a | a in StrictDominators(g, entry, b) ensures a in set z | z in S :: d.order[z] {
      StrictDominatorNumber(d, g, entry, a, b);
    }
  }

  /** The recorded depth of a reachable block is the number of its strict dominators. */
  lemma DepthCountsDominators(d: MIRDominance, g: Cfg, entry: MIRBlock, b: MIRBlock)
    requires d.Analyzed(g, entry) && b in d.depths
    ensures d.depths[b] == if Reachable(g, entry, b) then |StrictDominators(g, entry, b)| else 0
  {
    ReachableIsNumbered(d, g, entry, b);
    if b in d.number {
      DepthCountsAncestors(d.par, d.number[b]);
      StrictDominatorsByNumber(d, g, entry, b);
      ImageOfNumbers(d.order, StrictAncestors(d.par, d.number[b]));
    }
  }

  // ---------------------------------------------------------------- the SSA check

  /** An operand that is an instruction is defined on every path to b; in a block that no
      path reaches, it is defined in b itself. */
  ghost predicate DefinedOnPathsTo(g: Cfg, entry: MIRBlock, v: Value, b: MIRBlock?)
    reads if v.InstValue? then {v.inst} else {}
  {
    v.InstValue? ==>
      var def := v.inst.parent;
      if b == null || def == null then def == b
      else if Reachable(g, entry, b) then FlowGraph.Dominates(g, entry, def, b)
      else def == b
  }

  ghost predicate InstDefined(g: Cfg, entry: MIRBlock, inst: MIRInst, b: MIRBlock)
    reads *
  {
    if inst.kind.Phi? then
      forall k :: 0 <= k < |inst.kind.incoming| ==>
        DefinedOnPathsTo(g, entry, inst.kind.incoming[k].0, inst.kind.incoming[k].1)
    else
      forall k :: 0 <= k < |GetOperands(inst.kind)| ==> DefinedOnPathsTo(g, entry, GetOperands(inst.kind)[k], b)
  }

  lemma FitsIsDefined(d: MIRDominance, g: Cfg, entry: MIRBlock, v: Value, b: MIRBlock?)
    requires d.Analyzed(g, entry)
    ensures d.ValueFits(v, b) <==> DefinedOnPathsTo(g, entry, v, b)
  {
    if v.InstValue? && v.inst.parent != null && b != null {
      QueryIsDominance(d, g, entry, v.inst.parent, b);
    }
  }

  /** The check accepts a block exactly when all operands it looks at are defined on all
      paths. With the contract of `VerifySSA` this decides its answer for the function. */
  lemma AcceptedIffDefined(d: MIRDominance, g: Cfg, entry: MIRBlock, b: MIRBlock)
    requires d.Analyzed(g, entry)
    ensures d.BlockFits(b) <==> forall j :: 0 <= j < |b.instructions| ==> InstDefined(g, entry, b.instructions[j], b)
  {
    forall j | 0 <= j < |b.instructions|
      ensures d.InstFits(b.instructions[j], b) <==> InstDefined(g, entry, b.instructions[j], b)
    {
      InstFitsIffDefined(d, g, entry, b.instructions[j], b);
    }
  }

  lemma InstFitsIffDefined(d: MIRDominance, g: Cfg, entry: MIRBlock, inst: MIRInst, b: MIRBlock)
    requires d.Analyzed(g, entry)
    ensures d.InstFits(inst, b) <==> InstDefined(g, entry, inst, b)
  {
    if inst.kind.Phi? {
      forall k | 0 <= k < |inst.kind.incoming|
        ensures d.ValueFits(inst.kind.incoming[k].0, inst.kind.incoming[k].1)
           <==> DefinedOnPathsTo(g, entry, inst.kind.incoming[k].0, inst.kind.incoming[k].1)
      {
        FitsIsDefined(d, g, entry, inst.kind.incoming[k].0, inst.kind.incoming[k].1);
      }
    } else {
      forall k | 0 <= k < |GetOperands(inst.kind)|
        ensures d.ValueFits(GetOperands(inst.kind)[k], b) <==> DefinedOnPathsTo(g, entry, GetOperands(inst.kind)[k], b)
      {
        FitsIsDefined(d, g, entry, GetOperands(inst.kind)[k], b);
      }
    }
  }

  /** In an accepted block, on every path that reaches it, the operand of an instruction is
      defined in a block of that path. */
  lemma AcceptedOperandIsOnPath(d: MIRDominance, g: Cfg, entry: MIRBlock, b: MIRBlock, inst: MIRInst, def: MIRInst,
                                path: seq<MIRBlock>)
    requires d.Analyzed(g, entry) && d.BlockFits(b) && inst in b.instructions && !inst.kind.Phi?
    requires InstValue(def) in GetOperands(inst.kind)
    requires IsPathTo(g, entry, path, b)
    ensures def.parent != null && def.parent in path
  {
    AcceptedIffDefined(d, g, entry, b);
    assert InstDefined(g, entry, inst, b);
    assert DefinedOnPathsTo(g, entry, InstValue(def), b);
  }

  /** ... and the value that a phi takes over an edge is defined on the path up to the
      predecessor. */
  lemma AcceptedPhiIsOnPath(d: MIRDominance, g: Cfg, entry: MIRBlock, b: MIRBlock, inst: MIRInst, def: MIRInst,
                            pred: MIRBlock, path: seq<MIRBlock>)
    requires d.Analyzed(g, entry) && d.BlockFits(b) && inst in b.instructions && inst.kind.Phi?
    requires (InstValue(def), pred) in inst.kind.incoming
    requires IsPathTo(g, entry, path, pred)
    ensures def.parent != null && def.parent in path
  {
    AcceptedIffDefined(d, g, entry, b);
    assert InstDefined(g, entry, inst, b);
    assert DefinedOnPathsTo(g, entry, InstValue(def), pred);
  }

  // ---------------------------------------------------------------- operands nobody looks at

  function CaseValues(cases: seq<(Value, MIRBlock?)>): seq<Value> {
    if cases == [] then [] else [cases[0].0] + CaseValues(cases[1..])
  }

  /** All value operands of an instruction, class by class. A phi has none of its own: it
      takes a value over each edge. */
  function AllOperands(kind: InstKind): seq<Value> {
    match kind
    case Binary(l, r) => [l, r]
    case Compare(l, r) => [l, r]
    case FloatCompare(l, r) => [l, r]
    case Store(v, p) => [v, p]
    case Load(p) => [p]
    case StoreWeak(v, p) => [v, p]
    case LoadWeak(p) => [p]
    case Arc(o) => [o]
    case Branch(_) => []
    case CondBranch(c, _, _) => [c]
    case Switch(s, _, cases) => [s] + CaseValues(cases)
    case Return(v) => if v.NullValue? then [] else [v]
    case Call(f, args) => [f] + args
    case Invoke(f, args, _, _) => [f] + args
    case Resume(e) => [e]
    case Throw(e, _) => [e]
    case InlineAsm(args) => args
    case MakeClosure(f, captures) => [f] + captures
    case MakeShared(v) => [v]
    case Spawn(c) => [c]
    case Await(p) => [p]
    case ExtractValue(a) => [a]
    case InsertValue(a, v) => [a, v]
    case GetElementPtr(p, indices) => [p] + indices
    case Cast(v) => [v]
    case Phi(_) => []
    case AtomicLoad(p) => [p]
    case AtomicStore(v, p) => [v, p]
    case AtomicRMW(p, v) => [p, v]
    case AtomicCmpXchg(p, e, v) => [p, e, v]
    case Opaque => []
  }

  /** The classes with operands that `GetOperands` does not list. */
  predicate Unlisted(kind: InstKind) {
    kind.Compare? || kind.FloatCompare? || kind.Switch? || kind.MakeShared? || kind.GetElementPtr? ||
    kind.AtomicLoad? || kind.AtomicStore? || kind.AtomicRMW? || kind.AtomicCmpXchg?
  }

  /** The check looks at operands only, and at all operands of an instruction exactly when its
      class is not one of these nine. */
  lemma OperandsAreCovered(kind: InstKind)
    ensures (forall v :: v in AllOperands(kind) ==> v in GetOperands(kind)) <==> !Unlisted(kind)
    ensures forall v :: v in GetOperands(kind) ==> v in AllOperands(kind)
  {
    if Unlisted(kind) {
      assert GetOperands(kind) == [];
      assert AllOperands(kind)[0] in AllOperands(kind);
    }
  }

  /** A block of such instructions is accepted wherever their operands are defined, or if
      they are defined nowhere. */
  lemma UnlistedIsAlwaysAccepted(d: MIRDominance, b: MIRBlock)
    requires forall j :: 0 <= j < |b.instructions| ==> Unlisted(b.instructions[j].kind)
    ensures d.BlockFits(b)
  {
    forall j | 0 <= j < |b.instructions| ensures d.InstFits(b.instructions[j], b) {
      assert GetOperands(b.instructions[j].kind) == [];
    }
  }

  /** In an accepted block every operand of an instruction of any other class is defined on
      all paths to the block. */
  lemma ListedIsDefined(d: MIRDominance, g: Cfg, entry: MIRBlock, b: MIRBlock, inst: MIRInst, v: Value)
    requires d.Analyzed(g, entry) && d.BlockFits(b) && inst in b.instructions
    requires !inst.kind.Phi? && !Unlisted(inst.kind) && v in AllOperands(inst.kind)
    ensures DefinedOnPathsTo(g, entry, v, b)
  {
    OperandsAreCovered(inst.kind);
    AcceptedIffDefined(d, g, entry, b);
    assert InstDefined(g, entry, inst, b);
  }
}
