/** Values as a graph of operands, and what can be reached from a value along it. */
module ValueGraph {

  /** A value pointer: null, the marker that stands for a held lock, or a value. */
  datatype Value = Null | LockMarker | Val(id: nat)

  datatype Index = ConstantIndex(value: nat) | DynamicIndex

  /** What a value is, as far as the two searches look. */
  datatype Node =
    | Cast(value: Value)
    | Load(pointer: Value, inFunction: bool)
    | Store(stored: Value, storePtr: Value)
    | GetElementPtr(basePtr: Value, indices: seq<Index>)
    | ExtractValue(aggregate: Value, index: nat)
    | MakeClosure(captures: seq<Value>)
    | Spawn(closure: Value)
    | Phi(incoming: seq<Value>)
    | Alloca
    | Global
    | Argument
    | OtherNode

  /** `nodes[id]` is the value `Val(id)`; `code` lists the instructions of the function block
      by block; the two sets hold the values of pointer type and of move-only type. */
  datatype RawGraph = RawGraph(nodes: seq<Node>, pointerTyped: set<nat>, moveTyped: set<nat>, code: seq<nat>) {

    function NodeOf(v: Value): Node {
      if v.Val? && v.id < |nodes| then nodes[v.id] else OtherNode
    }

    predicate IsPointerType(v: Value) {
      v.Val? && v.id in pointerTyped
    }

    predicate IsMoveType(v: Value) {
      v.Val? && v.id in moveTyped
    }

    /** The operand that a cast, an extraction or an address computation is derived from. */
    function Underlying(v: Value): Value {
      match NodeOf(v)
      case Cast(x) => x
      case ExtractValue(a, _) => a
      case GetElementPtr(p, _) => p
      case _ => Null
    }

    /** Values are numbered so that these operands come first; phis, loads, stores and
        closures are free to form cycles. */
    ghost predicate Grounded() {
      forall i :: 0 <= i < |nodes| ==> Underlying(Val(i)).Val? ==> Underlying(Val(i)).id < i
    }
  }

  type Graph = g: RawGraph | g.Grounded() witness RawGraph([], {}, {}, [])

  predicate Real(v: Value) {
    v.Val?
  }

  // ---------------------------------------------------------------- aliasing of pointers

  /** The number that stands for an index that is not constant. */
  const UNKNOWN_INDEX: nat := 999999

  function IndexNumbers(indices: seq<Index>): seq<nat> {
    seq(|indices|, i requires 0 <= i < |indices| =>
      if indices[i].ConstantIndex? then indices[i].value else UNKNOWN_INDEX)
  }

  predicate HasUnderlying(g: Graph, v: Value) {
    var n := g.NodeOf(v);
    n.Cast? || n.ExtractValue? || n.GetElementPtr?
  }

  /** What a pointer is computed from once casts, extractions and address computations are
      taken off, and the indices of the latter, innermost first. */
  function StructuralBase(g: Graph, v: Value): (Value, seq<nat>)
    decreases if v.Val? then v.id + 1 else 0
  {
    if !HasUnderlying(g, v) then (v, [])
    else
      assert g.Underlying(v) == g.Underlying(Val(v.id));
      var inner := StructuralBase(g, g.Underlying(v));
      (inner.0, inner.1 + if g.NodeOf(v).GetElementPtr? then IndexNumbers(g.NodeOf(v).indices) else [])
  }

  predicate Aliases(g: Graph, p: Value, q: Value) {
    q == p || (var a := StructuralBase(g, p); a == StructuralBase(g, q) && a.0 != Null)
  }

  // ---------------------------------------------------------------- one step

  datatype Walk = Resolving | Deriving

  predicate StoresThrough(g: Graph, walk: Walk, id: nat, pointer: Value) {
    var n := g.NodeOf(Val(id));
    n.Store? && n.stored != Null && if walk.Resolving? then Aliases(g, pointer, n.storePtr) else n.storePtr == pointer
  }

  /** The values that the listed instructions store through a pointer. */
  function StoredValues(g: Graph, walk: Walk, pointer: Value, code: seq<nat>): seq<Value>
    decreases |code|
  {
    if code == [] then []
    else
      var last := code[|code| - 1];
      StoredValues(g, walk, pointer, code[..|code| - 1]) +
        if StoresThrough(g, walk, last, pointer) then [g.NodeOf(Val(last)).stored] else []
  }

  lemma {:induction false} StoredValuesAreStored(g: Graph, walk: Walk, pointer: Value, code: seq<nat>, v: Value)
    ensures v in StoredValues(g, walk, pointer, code) <==>
            exists id :: id in code && StoresThrough(g, walk, id, pointer) && g.NodeOf(Val(id)).stored == v
    decreases |code|
  {
    if code != [] {
      var front, last := code[..|code| - 1], code[|code| - 1];
      StoredValuesAreStored(g, walk, pointer, front, v);
      assert code == front + [last];
    }
  }

  /** Captured values that can hold a borrow. */
  function Holders(g: Graph, captures: seq<Value>): seq<Value> {
    if captures == [] then []
    else
      var last := captures[|captures| - 1];
      Holders(g, captures[..|captures| - 1]) + if g.IsPointerType(last) || g.IsMoveType(last) then [last] else []
  }

  datatype Expansion = Stop | Into(next: seq<Value>)

  /** Whether place resolution goes on from a value, and to which values. */
  function Expand(g: Graph, v: Value): Expansion {
    match g.NodeOf(v)
    case Cast(x) => if g.IsPointerType(v) && !g.IsPointerType(x) then Stop else Into([x])
    case Load(p, inFunction) =>
      if !g.IsPointerType(v) then Into([p])
      else
        var stored := if inFunction then StoredValues(g, Resolving, p, g.code) else [];
        if stored == [] then Stop else Into(stored)
    case ExtractValue(a, index) => if index == 0 then Into([a]) else Stop
    case GetElementPtr(p, _) => Into([p])
    case MakeClosure(captures) => Into(Holders(g, captures))
    case Spawn(c) => Into(if c == Null then [] else [c])
    case Phi(incoming) => Into(incoming)
    case _ => Stop
  }

  function Next(g: Graph, walk: Walk, v: Value): seq<Value> {
    if walk.Resolving? then
      var e := Expand(g, v);
      if e.Stop? then [] else e.next
    else
      match g.NodeOf(v)
      case Cast(x) => [x]
      case GetElementPtr(p, _) => [p]
      case Load(p, _) => [p]
      case Alloca => StoredValues(g, Deriving, v, g.code)
      case Global => StoredValues(g, Deriving, v, g.code)
      case Argument => StoredValues(g, Deriving, v, g.code)
      case _ => []
  }

  function ConstantIndices(indices: seq<Index>): seq<nat> {
    if indices == [] then []
    else
      var last := indices[|indices| - 1];
      ConstantIndices(indices[..|indices| - 1]) + if last.ConstantIndex? then [last.value] else []
  }

  /** The constant indices of an address computation; nothing for any other value. */
  function Prefix(g: Graph, v: Value): seq<nat> {
    var n := g.NodeOf(v);
    if n.GetElementPtr? then ConstantIndices(n.indices) else []
  }

  // ---------------------------------------------------------------- the steps, spelled out

  /** One pointer is computed from another by a cast, an extraction or an address computation. */
  predicate ComputedFrom(g: Graph, v: Value, u: Value) {
    match g.NodeOf(v)
    case Cast(x) => x == u
    case ExtractValue(a, _) => a == u
    case GetElementPtr(p, _) => p == u
    case _ => false
  }

  /** The numbers of a list of indices: 999999 stands for one that is not constant. */
  predicate AreNumbers(indices: seq<Index>, numbers: seq<nat>) {
    |numbers| == |indices| && forall i :: 0 <= i < |indices| ==>
      numbers[i] == if indices[i].ConstantIndex? then indices[i].value else 999999
  }

  /** The numbers that one step down adds. */
  predicate AddsNumbers(g: Graph, v: Value, numbers: seq<nat>) {
    match g.NodeOf(v)
    case GetElementPtr(_, indices) => AreNumbers(indices, numbers)
    case _ => numbers == []
  }

  /** The chain leads from a pointer down to one that is not computed from another; the numbers
      are those of its address computations, innermost first. */
  ghost predicate Address(g: Graph, chain: seq<Value>, numbers: seq<nat>)
    decreases |chain|
  {
    && |chain| > 0
    && if |chain| == 1 then
         numbers == [] && forall u :: !ComputedFrom(g, chain[0], u)
       else
         && ComputedFrom(g, chain[0], chain[1])
         && exists inner, outer ::
              numbers == inner + outer && Address(g, chain[1..], inner) && AddsNumbers(g, chain[0], outer)
  }

  ghost predicate AddressOf(g: Graph, v: Value, base: Value, numbers: seq<nat>) {
    exists chain :: Address(g, chain, numbers) && chain[0] == v && chain[|chain| - 1] == base
  }

  /** Two pointers that are the same value, or the same computation on the same base. */
  ghost predicate SamePlace(g: Graph, p: Value, q: Value) {
    p == q || exists base, numbers :: base != Null && AddressOf(g, p, base, numbers) && AddressOf(g, q, base, numbers)
  }

  lemma {:induction false} BaseIsAddress(g: Graph, v: Value)
    ensures AddressOf(g, v, StructuralBase(g, v).0, StructuralBase(g, v).1)
    decreases if v.Val? then v.id + 1 else 0
  {
    if !HasUnderlying(g, v) {
      assert Address(g, [v], []);
    } else {
      assert g.Underlying(v) == g.Underlying(Val(v.id));
      var u := g.Underlying(v);
      BaseIsAddress(g, u);
      var (base, inner) := StructuralBase(g, u);
      var chain :| Address(g, chain, inner) && chain[0] == u && chain[|chain| - 1] == base;
      AddressStep(g, v, chain, inner);
      assert Address(g, [v] + chain, StructuralBase(g, v).1);
    }
  }

  lemma AddressStep(g: Graph, v: Value, chain: seq<Value>, inner: seq<nat>)
    requires HasUnderlying(g, v) && Address(g, chain, inner) && chain[0] == g.Underlying(v)
    ensures var outer := if g.NodeOf(v).GetElementPtr? then IndexNumbers(g.NodeOf(v).indices) else [];
      Address(g, [v] + chain, inner + outer)
  {
    var longer := [v] + chain;
    assert longer[1..] == chain && longer[0] == v && longer[1] == chain[0];
    hide StructuralBase;
  }

  lemma NumbersAreThose(indices: seq<Index>, numbers: seq<nat>)
    requires AreNumbers(indices, numbers)
    ensures numbers == IndexNumbers(indices)
  {
  }

  lemma {:induction false} AddressIsBase(g: Graph, chain: seq<Value>, numbers: seq<nat>)
    requires Address(g, chain, numbers)
    ensures StructuralBase(g, chain[0]) == (chain[|chain| - 1], numbers)
    decreases |chain|
  {
    var v := chain[0];
    if |chain| == 1 {
      if HasUnderlying(g, v) {
        assert ComputedFrom(g, v, g.Underlying(v));
      }
    } else {
      var inner, outer :|
        numbers == inner + outer && Address(g, chain[1..], inner) && AddsNumbers(g, v, outer);
      AddressIsBase(g, chain[1..], inner);
      if g.NodeOf(v).GetElementPtr? {
        NumbersAreThose(g.NodeOf(v).indices, outer);
      }
    }
  }

  lemma AliasIsSamePlace(g: Graph, p: Value, q: Value)
    ensures Aliases(g, p, q) <==> SamePlace(g, p, q)
  {
    BaseIsAddress(g, p);
    BaseIsAddress(g, q);
    hide Address, StructuralBase;
    if base, numbers :| base != Null && AddressOf(g, p, base, numbers) && AddressOf(g, q, base, numbers) {
      AddressOfIsBase(g, p, base, numbers);
      AddressOfIsBase(g, q, base, numbers);
    }
  }

  lemma AddressOfIsBase(g: Graph, v: Value, base: Value, numbers: seq<nat>)
    requires AddressOf(g, v, base, numbers)
    ensures StructuralBase(g, v) == (base, numbers)
  {
    var chain :| Address(g, chain, numbers) && chain[0] == v && chain[|chain| - 1] == base;
    AddressIsBase(g, chain, numbers);
  }

  /** A listed instruction stores the value through the pointer. */
  predicate Stores(g: Graph, v: Value, pointer: Value) {
    v != Null && exists id :: id in g.code && g.NodeOf(Val(id)) == Store(v, pointer)
  }

  /** A listed instruction stores the value where the pointer may point. */
  ghost predicate StoredAt(g: Graph, v: Value, pointer: Value) {
    v != Null && exists id, q :: id in g.code && g.NodeOf(Val(id)) == Store(v, q) && SamePlace(g, pointer, q)
  }

  /** Place resolution goes from u to v. */
  ghost predicate LeadsOn(g: Graph, u: Value, v: Value) {
    match g.NodeOf(u)
    case Cast(x) => v == x && !(g.IsPointerType(u) && !g.IsPointerType(x))
    case Load(p, inFunction) =>
      if g.IsPointerType(u) then inFunction && StoredAt(g, v, p) else v == p
    case ExtractValue(a, index) => v == a && index == 0
    case GetElementPtr(p, _) => v == p
    case MakeClosure(captures) => v in captures && (g.IsPointerType(v) || g.IsMoveType(v))
    case Spawn(c) => v == c && c != Null
    case Phi(incoming) => v in incoming
    case _ => false
  }

  /** ... or stops there: at a cast that makes a pointer, at a loaded pointer that nothing listed
      stores, at an extraction of a later field, and at values of any other class. */
  ghost predicate StopsAt(g: Graph, u: Value) {
    match g.NodeOf(u)
    case Cast(x) => g.IsPointerType(u) && !g.IsPointerType(x)
    case Load(p, inFunction) => g.IsPointerType(u) && !(inFunction && exists v :: StoredAt(g, v, p))
    case ExtractValue(_, index) => index != 0
    case GetElementPtr(_, _) => false
    case MakeClosure(_) => false
    case Spawn(_) => false
    case Phi(_) => false
    case _ => true
  }

  /** The search for what a value is derived from goes from u to v: u is a cast of v, an address
      computed from it or a load through it, or a variable into which v is stored. */
  predicate Follows(g: Graph, u: Value, v: Value) {
    match g.NodeOf(u)
    case Cast(x) => v == x
    case GetElementPtr(p, _) => v == p
    case Load(p, _) => v == p
    case Alloca => Stores(g, v, u)
    case Global => Stores(g, v, u)
    case Argument => Stores(g, v, u)
    case _ => false
  }

  ghost predicate Goes(g: Graph, walk: Walk, u: Value, v: Value) {
    if walk.Resolving? then LeadsOn(g, u, v) else Follows(g, u, v)
  }

  lemma StoredValuesAre(g: Graph, pointer: Value, v: Value)
    ensures v in StoredValues(g, Resolving, pointer, g.code) <==> StoredAt(g, v, pointer)
    ensures v in StoredValues(g, Deriving, pointer, g.code) <==> Stores(g, v, pointer)
  {
    StoredValuesAreStored(g, Resolving, pointer, g.code, v);
    StoredValuesAreStored(g, Deriving, pointer, g.code, v);
    hide StoredValues, Aliases, SamePlace;
    forall id | id in g.code && g.NodeOf(Val(id)).Store? && g.NodeOf(Val(id)).stored == v
      ensures g.NodeOf(Val(id)) == Store(v, g.NodeOf(Val(id)).storePtr)
      ensures Aliases(g, pointer, g.NodeOf(Val(id)).storePtr) <==> SamePlace(g, pointer, g.NodeOf(Val(id)).storePtr)
    {
      AliasIsSamePlace(g, pointer, g.NodeOf(Val(id)).storePtr);
    }
  }

  lemma {:induction false} HoldersAre(g: Graph, captures: seq<Value>, v: Value)
    ensures v in Holders(g, captures) <==> v in captures && (g.IsPointerType(v) || g.IsMoveType(v))
    decreases |captures|
  {
    if captures != [] {
      var front, last := captures[..|captures| - 1], captures[|captures| - 1];
      HoldersAre(g, front, v);
      assert captures == front + [last];
    }
  }

  /** The functions that compute the next values agree with the steps. */
  lemma NextIsStep(g: Graph, walk: Walk, u: Value, v: Value)
    ensures v in Next(g, walk, u) <==> Goes(g, walk, u, v)
  {
    hide StoredValues, StoredAt, Stores, Holders;
    match g.NodeOf(u)
    case Load(p, _) => StoredValuesAre(g, p, v);
    case MakeClosure(captures) => HoldersAre(g, captures, v);
    case Alloca => StoredValuesAre(g, u, v);
    case Global => StoredValuesAre(g, u, v);
    case Argument => StoredValuesAre(g, u, v);
    case _ =>
  }

  lemma StopIsStop(g: Graph, u: Value)
    ensures Expand(g, u).Stop? <==> StopsAt(g, u)
  {
    hide StoredValues, StoredAt;
    match g.NodeOf(u)
    case Load(p, _) =>
      var stored := StoredValues(g, Resolving, p, g.code);
      if stored != [] {
        StoredValuesAre(g, p, stored[0]);
      }
      forall v ensures StoredAt(g, v, p) ==> v in stored {
        StoredValuesAre(g, p, v);
      }
    case _ =>
  }

  // ---------------------------------------------------------------- chains

  ghost predicate Chain(g: Graph, walk: Walk, chain: seq<Value>) {
    && |chain| > 0
    && forall k :: 0 <= k < |chain| - 1 ==> Goes(g, walk, chain[k], chain[k + 1])
  }

  ghost predicate ChainBetween(g: Graph, walk: Walk, from: Value, to: Value, chain: seq<Value>) {
    Chain(g, walk, chain) && chain[0] == from && chain[|chain| - 1] == to
  }

  ghost predicate Reaches(g: Graph, walk: Walk, from: Value, to: Value) {
    exists chain :: ChainBetween(g, walk, from, to, chain)
  }

  /** The constant indices met on a chain, those met last coming first. */
  ghost function IndicesAlong(g: Graph, chain: seq<Value>): seq<nat>
    requires |chain| > 0
  {
    if |chain| == 1 then [] else
      Prefix(g, chain[|chain| - 2]) + IndicesAlong(g, chain[..|chain| - 1])
  }

  /** Some chain of so many steps leads to the value and carries these indices. */
  ghost predicate ReachesWith(g: Graph, from: Value, to: Value, indices: seq<nat>, steps: nat) {
    exists chain :: ChainBetween(g, Resolving, from, to, chain) && IndicesAlong(g, chain) == indices
      && |chain| == steps + 1
  }

  /** No chain leads to the value in fewer steps. */
  ghost predicate NoneShorter(g: Graph, from: Value, to: Value, steps: nat) {
    forall chain :: ChainBetween(g, Resolving, from, to, chain) ==> |chain| > steps
  }

  lemma ReachesItself(g: Graph, walk: Walk, v: Value)
    ensures Reaches(g, walk, v, v) && ReachesWith(g, v, v, [], 0)
  {
    assert ChainBetween(g, walk, v, v, [v]) && ChainBetween(g, Resolving, v, v, [v]);
    assert IndicesAlong(g, [v]) == [];
  }

  lemma ReachesNext(g: Graph, walk: Walk, from: Value, v: Value, w: Value)
    requires Reaches(g, walk, from, v) && w in Next(g, walk, v)
    ensures Reaches(g, walk, from, w)
  {
    NextIsStep(g, walk, v, w);
    hide Goes, Next;
    var chain :| ChainBetween(g, walk, from, v, chain);
    assert ChainBetween(g, walk, from, w, chain + [w]);
  }

  lemma ReachesNextWith(g: Graph, from: Value, v: Value, indices: seq<nat>, steps: nat, w: Value)
    requires ReachesWith(g, from, v, indices, steps) && w in Next(g, Resolving, v)
    ensures ReachesWith(g, from, w, Prefix(g, v) + indices, steps + 1)
  {
    var chain :|
      ChainBetween(g, Resolving, from, v, chain) && IndicesAlong(g, chain) == indices && |chain| == steps + 1;
    NextIsStep(g, Resolving, v, w);
    hide Goes, Next, Prefix;
    var longer := chain + [w];
    assert longer[..|longer| - 1] == chain;
    assert ChainBetween(g, Resolving, from, w, longer);
  }

  ghost predicate ClosedUnder(g: Graph, walk: Walk, found: set<Value>) {
    forall u, v :: u in found && v in Next(g, walk, u) && Real(v) ==> v in found
  }

  /** A closed set that holds the start holds everything reachable from it. */
  lemma {:induction false} ClosedHoldsChain(g: Graph, walk: Walk, found: set<Value>, from: Value, to: Value,
                                            chain: seq<Value>)
    requires ClosedUnder(g, walk, found) && from in found && ChainBetween(g, walk, from, to, chain) && Real(to)
    ensures to in found
    decreases |chain|
  {
    if |chain| > 1 {
      var front := chain[..|chain| - 1];
      var u := front[|front| - 1];
      hide Goes, Next;
      assert Goes(g, walk, u, to);
      NextIsStep(g, walk, u, to);
      ClosedHoldsChain(g, walk, found, from, u, front);
    }
  }

  // ---------------------------------------------------------------- the order of values and indices

  /** The listed positions are those that qualify, in increasing order. */
  predicate Picks<T>(all: seq<T>, at: seq<nat>, picked: set<nat>) {
    && (forall n :: 0 <= n < |at| ==> at[n] < |all| && at[n] in picked)
    && (forall m, n :: 0 <= m < n < |at| ==> at[m] < at[n])
    && (forall k :: 0 <= k < |all| && k in picked ==> k in at)
  }

  lemma PicksOneMore<T>(all: seq<T>, last: T, at: seq<nat>, picked: set<nat>)
    requires Picks(all, at, picked)
    ensures |all| in picked ==> Picks(all + [last], at + [|all|], picked)
    ensures |all| !in picked ==> Picks(all + [last], at, picked)
  {
    var longer := at + [|all|];
    assert forall k :: k in at ==> k in longer;
    assert longer[|at|] == |all|;
  }

  /** The constant indices of an address computation, in their order; the others are left out. */
  lemma {:induction false} ConstantIndicesAre(indices: seq<Index>) returns (at: seq<nat>)
    ensures Picks(indices, at, set k | 0 <= k < |indices| && indices[k].ConstantIndex?)
    ensures |ConstantIndices(indices)| == |at|
    ensures forall n :: 0 <= n < |at| ==>
      indices[at[n]].ConstantIndex? && ConstantIndices(indices)[n] == indices[at[n]].value
    decreases |indices|
  {
    at := [];
    if indices != [] {
      var front, last := indices[..|indices| - 1], indices[|indices| - 1];
      at := ConstantIndicesAre(front);
      var picked := set k | 0 <= k < |indices| && indices[k].ConstantIndex?;
      assert indices == front + [last];
      assert Picks(front, at, picked);
      PicksOneMore(front, last, at, picked);
      if last.ConstantIndex? {
        at := at + [|front|];
      }
    }
  }

  /** The values stored through a pointer come in the order of the listed stores. */
  lemma {:induction false} StoredInOrder(g: Graph, walk: Walk, pointer: Value, code: seq<nat>) returns (at: seq<nat>)
    ensures Picks(code, at, set k | 0 <= k < |code| && StoresThrough(g, walk, code[k], pointer))
    ensures |StoredValues(g, walk, pointer, code)| == |at|
    ensures forall n :: 0 <= n < |at| ==>
      g.NodeOf(Val(code[at[n]])).Store? && StoredValues(g, walk, pointer, code)[n] == g.NodeOf(Val(code[at[n]])).stored
    decreases |code|
  {
    at := [];
    if code != [] {
      var front, last := code[..|code| - 1], code[|code| - 1];
      at := StoredInOrder(g, walk, pointer, front);
      var picked := set k | 0 <= k < |code| && StoresThrough(g, walk, code[k], pointer);
      assert code == front + [last];
      hide StoresThrough;
      assert Picks(front, at, picked);
      PicksOneMore(front, last, at, picked);
      if StoresThrough(g, walk, last, pointer) {
        StoresThroughIsStore(g, walk, last, pointer);
        at := at + [|front|];
      }
    }
  }

  lemma StoresThroughIsStore(g: Graph, walk: Walk, id: nat, pointer: Value)
    requires StoresThrough(g, walk, id, pointer)
    ensures g.NodeOf(Val(id)).Store?
  {
  }

  lemma {:induction false} HoldersInOrder(g: Graph, captures: seq<Value>) returns (at: seq<nat>)
    ensures Picks(captures, at,
      set k | 0 <= k < |captures| && (g.IsPointerType(captures[k]) || g.IsMoveType(captures[k])))
    ensures |Holders(g, captures)| == |at|
    ensures forall n :: 0 <= n < |at| ==> Holders(g, captures)[n] == captures[at[n]]
    decreases |captures|
  {
    at := [];
    if captures != [] {
      var front, last := captures[..|captures| - 1], captures[|captures| - 1];
      at := HoldersInOrder(g, front);
      var picked := set k | 0 <= k < |captures| && (g.IsPointerType(captures[k]) || g.IsMoveType(captures[k]));
      assert captures == front + [last];
      assert Picks(front, at, picked);
      PicksOneMore(front, last, at, picked);
      if g.IsPointerType(last) || g.IsMoveType(last) {
        at := at + [|front|];
      }
    }
  }

  /** What lies further in comes first in the indices of a chain. */
  lemma NestedIndices(g: Graph, u: Value, v: Value, w: Value, inner: nat, outer: nat)
    requires g.NodeOf(u) == GetElementPtr(v, [ConstantIndex(outer)])
    requires g.NodeOf(v) == GetElementPtr(w, [DynamicIndex, ConstantIndex(inner)])
    ensures ChainBetween(g, Resolving, u, w, [u, v, w]) && IndicesAlong(g, [u, v, w]) == [inner, outer]
  {
    var chain := [u, v, w];
    var indices := [DynamicIndex, ConstantIndex(inner)];
    assert chain[..2] == [u, v] && chain[..2][..1] == [u];
    assert [ConstantIndex(outer)][..0] == [] && indices[..1] == [DynamicIndex] && [DynamicIndex][..0] == [];
    assert ConstantIndices([DynamicIndex]) == [] && ConstantIndices(indices) == [inner];
    assert IndicesAlong(g, [u]) == [] && IndicesAlong(g, [u, v]) == [outer];
  }

  /** The values that a phi merges come in their order. */
  lemma PhiInOrder(g: Graph, u: Value, incoming: seq<Value>)
    requires g.NodeOf(u) == Phi(incoming)
    ensures Next(g, Resolving, u) == incoming
  {
  }
}
