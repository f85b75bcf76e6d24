/** The two graph searches of the borrow checker: which places a pointer may stand for, and
    whether a value is derived from another. */
module PlaceResolution {
  import opened ValueGraph

  datatype Place = Place(base: Value, projections: seq<nat>)

  /** A value to visit, with the projections that lead from it to the value being resolved. */
  type Item = (Value, seq<nat>)

  function Tagged(values: seq<Value>, projections: seq<nat>): seq<Item> {
    seq(|values|, i requires 0 <= i < |values| => (values[i], projections))
  }

  /** The values that can still be visited and be expanded. */
  ghost function Unvisited(g: Graph, visited: set<Value>): set<nat> {
    set i | 0 <= i < |g.nodes| && Val(i) !in visited
  }

  lemma OneLessUnvisited(g: Graph, visited: set<Value>, v: Value)
    requires v.Val? && v.id < |g.nodes| && v !in visited
    ensures |Unvisited(g, visited + {v})| < |Unvisited(g, visited)|
  {
    assert Unvisited(g, visited) == Unvisited(g, visited + {v}) + {v.id};
  }

  // ---------------------------------------------------------------- the parts of a step

  method GetStructuralBase(g: Graph, start: Value) returns (v: Value, indices: seq<nat>)
    ensures (v, indices) == StructuralBase(g, start)
  {
    v := start;
    var outIndices: seq<nat> := [];
    assert Reversed(outIndices) == [];
    hide Reversed;
    while HasUnderlying(g, v)
      invariant StructuralBase(g, start).0 == StructuralBase(g, v).0
      invariant StructuralBase(g, start).1 == StructuralBase(g, v).1 + Reversed(outIndices)
      decreases if v.Val? then v.id + 1 else 0
    {
      assert g.Underlying(v) == g.Underlying(Val(v.id));
      var n := g.NodeOf(v);
      if n.GetElementPtr? {
        var tmp := IndexNumbers(n.indices);
        ghost var before := Reversed(outIndices);
        ReversedTwice(tmp);
        ReversedConcat(outIndices, Reversed(tmp));
        outIndices := outIndices + Reversed(tmp);
        assert forall s: seq<nat> :: (s + tmp) + before == s + Reversed(outIndices);
      }
      v := g.Underlying(v);
    }
    indices := Reversed(outIndices);
    assert [] + indices == indices;
  }

  function Reversed(s: seq<nat>): seq<nat> {
    if s == [] then [] else Reversed(s[1..]) + [s[0]]
  }

  lemma {:induction false} ReversedConcat(s: seq<nat>, t: seq<nat>)
    ensures Reversed(s + t) == Reversed(t) + Reversed(s)
    decreases |s|
  {
    if s == [] {
      assert s + t == t;
    } else {
      assert (s + t)[1..] == s[1..] + t;
      ReversedConcat(s[1..], t);
    }
  }

  lemma {:induction false} ReversedTwice(s: seq<nat>)
    ensures Reversed(Reversed(s)) == s
    decreases |s|
  {
    if s != [] {
      ReversedConcat(Reversed(s[1..]), [s[0]]);
      ReversedTwice(s[1..]);
    }
  }

  /** The values stored through a pointer that may be the one a load reads. */
  method CollectStores(g: Graph, pointer: Value) returns (stored: seq<Value>)
    ensures stored == StoredValues(g, Resolving, pointer, g.code)
  {
    stored := [];
    var loadBase, loadProj := GetStructuralBase(g, pointer);
    var i := 0;
    while i < |g.code|
      invariant i <= |g.code| && stored == StoredValues(g, Resolving, pointer, g.code[..i])
    {
      assert g.code[..i + 1][..i] == g.code[..i];
      var store := g.NodeOf(Val(g.code[i]));
      if store.Store? {
        var aliases := false;
        if store.storePtr == pointer {
          aliases := true;
        } else {
          var storeBase, storeProj := GetStructuralBase(g, store.storePtr);
          if loadBase != Null && storeBase != Null && loadBase == storeBase && loadProj == storeProj {
            aliases := true;
          }
        }
        if aliases && store.stored != Null {
          stored := stored + [store.stored];
        }
      }
      i := i + 1;
    }
    assert g.code[..i] == g.code;
  }

  method CollectConstantIndices(indices: seq<Index>) returns (numbers: seq<nat>)
    ensures numbers == ConstantIndices(indices)
  {
    numbers := [];
    var i := 0;
    while i < |indices|
      invariant i <= |indices| && numbers == ConstantIndices(indices[..i])
    {
      assert indices[..i + 1][..i] == indices[..i];
      if indices[i].ConstantIndex? {
        numbers := numbers + [indices[i].value];
      }
      i := i + 1;
    }
    assert indices[..i] == indices;
  }

  method CollectHolders(g: Graph, captures: seq<Value>) returns (holders: seq<Value>)
    ensures holders == Holders(g, captures)
  {
    holders := [];
    var i := 0;
    while i < |captures|
      invariant i <= |captures| && holders == Holders(g, captures[..i])
    {
      assert captures[..i + 1][..i] == captures[..i];
      if captures[i] != Null && (g.IsPointerType(captures[i]) || g.IsMoveType(captures[i])) {
        holders := holders + [captures[i]];
      }
      i := i + 1;
    }
    assert captures[..i] == captures;
  }

  /** What a visit of one value adds to the list of work, unless the value is a base. */
  method Visit(g: Graph, v: Value, projections: seq<nat>) returns (isBase: bool, added: seq<Item>)
    ensures isBase <==> Expand(g, v).Stop?
    ensures added == Tagged(Next(g, Resolving, v), Prefix(g, v) + projections)
  {
    isBase, added := false, [];
    assert [] + projections == projections && Tagged([], projections) == [];
    match g.NodeOf(v)
    case Cast(x) =>
      if g.IsPointerType(v) && !g.IsPointerType(x) {
        isBase := true;
      } else {
        added := Tagged([x], projections);
      }
    case Load(p, inFunction) =>
      if !g.IsPointerType(v) {
        added := Tagged([p], projections);
      } else {
        var stored := [];
        if inFunction {
          stored := CollectStores(g, p);
        }
        isBase := stored == [];
        added := Tagged(stored, projections);
      }
    case ExtractValue(a, index) =>
      if index == 0 {
        added := Tagged([a], projections);
      } else {
        isBase := true;
      }
    case GetElementPtr(p, indices) =>
      var numbers := CollectConstantIndices(indices);
      added := Tagged([p], numbers + projections);
    case MakeClosure(captures) =>
      var holders := CollectHolders(g, captures);
      added := Tagged(holders, projections);
    case Spawn(c) =>
      if c != Null {
        added := Tagged([c], projections);
      }
    case Phi(incoming) =>
      added := Tagged(incoming, projections);
    case _ =>
      isBase := true;
  }

  // ---------------------------------------------------------------- which places

  ghost predicate Pending(worklist: seq<Item>, v: Value) {
    exists k :: 0 <= k < |worklist| && worklist[k].0 == v
  }

  ghost predicate Listed(places: seq<Place>, v: Value) {
    exists k :: 0 <= k < |places| && places[k].base == v
  }

  /** Every pending value is reached with its projections, in so many steps. */
  ghost predicate Traced(g: Graph, start: Value, worklist: seq<Item>, steps: seq<nat>) {
    && |steps| == |worklist|
    && forall k :: 0 <= k < |worklist| ==> ReachesWith(g, start, worklist[k].0, worklist[k].1, steps[k])
  }

  /** What a visited value leads to is visited or pending, and so is the start. */
  ghost predicate Covered(g: Graph, start: Value, worklist: seq<Item>, visited: set<Value>) {
    && (start in visited || Pending(worklist, start))
    && (forall u :: u in visited ==> Real(u))
    && (forall u, v :: u in visited && v in Next(g, Resolving, u) && Real(v) ==> v in visited || Pending(worklist, v))
  }

  /** The search stops at the base, and a shortest chain that leads to it carries these indices. */
  ghost predicate IsBaseOf(g: Graph, start: Value, place: Place, steps: nat) {
    && StopsAt(g, place.base) && ReachesWith(g, start, place.base, place.projections, steps)
    && NoneShorter(g, start, place.base, steps)
  }

  /** The places are the visited values that are bases, each once, the nearer ones first. `far`
      tells how many steps away the visited values are. */
  ghost predicate PlacesOf(g: Graph, start: Value, places: seq<Place>, far: map<Value, nat>) {
    && (forall v :: v in far && StopsAt(g, v) ==> Listed(places, v))
    && (forall k :: 0 <= k < |places| ==>
          places[k].base in far && IsBaseOf(g, start, places[k], far[places[k].base]))
    && (forall j, k :: 0 <= j < k < |places| ==>
          places[j].base != places[k].base && far[places[j].base] <= far[places[k].base])
  }

  // ---------------------------------------------------------------- nearest first

  ghost predicate PendingWithin(worklist: seq<Item>, steps: seq<nat>, v: Value, n: nat)
    requires |steps| == |worklist|
  {
    exists k :: 0 <= k < |worklist| && worklist[k].0 == v && steps[k] <= n
  }

  ghost predicate VisitedWithin(far: map<Value, nat>, v: Value, n: nat) {
    v in far && far[v] <= n
  }

  /** The list of work is in order of distance, and what is next to a visited value has been
      visited or is pending, at most one step further away. */
  ghost predicate Nearest(g: Graph, start: Value, worklist: seq<Item>, steps: seq<nat>, far: map<Value, nat>) {
    && |steps| == |worklist|
    && (VisitedWithin(far, start, 0) || PendingWithin(worklist, steps, start, 0))
    && (forall u, v :: u in far && v in Next(g, Resolving, u) && Real(v) ==>
          VisitedWithin(far, v, far[u] + 1) || PendingWithin(worklist, steps, v, far[u] + 1))
    && (forall j, k :: 0 <= j <= k < |steps| ==> steps[j] <= steps[k] <= steps[0] + 1)
    && (forall u, k :: u in far && 0 <= k < |steps| ==> far[u] <= steps[k])
  }

  lemma {:induction false} ChainIsMet(g: Graph, start: Value, worklist: seq<Item>, steps: seq<nat>,
                                      far: map<Value, nat>, chain: seq<Value>, v: Value)
    requires Nearest(g, start, worklist, steps, far) && ChainBetween(g, Resolving, start, v, chain) && Real(v)
    ensures VisitedWithin(far, v, |chain| - 1) || exists k :: 0 <= k < |steps| && steps[k] <= |chain| - 1
    decreases |chain|
  {
    if |chain| > 1 {
      var front := chain[..|chain| - 1];
      var u := front[|front| - 1];
      hide Goes, Next;
      assert Goes(g, Resolving, u, v);
      NextIsStep(g, Resolving, u, v);
      StepsFromReal(g, u, v);
      ChainIsMet(g, start, worklist, steps, far, front, u);
    }
  }

  lemma StepsFromReal(g: Graph, u: Value, v: Value)
    requires v in Next(g, Resolving, u)
    ensures Real(u)
  {
  }

  /** The first pending value, if it has not been visited, is reached by no shorter chain. */
  lemma HeadIsNearest(g: Graph, start: Value, worklist: seq<Item>, steps: seq<nat>, far: map<Value, nat>)
    requires Nearest(g, start, worklist, steps, far) && worklist != [] && Real(worklist[0].0) && worklist[0].0 !in far
    ensures NoneShorter(g, start, worklist[0].0, steps[0])
  {
    forall chain | ChainBetween(g, Resolving, start, worklist[0].0, chain) ensures |chain| > steps[0] {
      ChainIsMet(g, start, worklist, steps, far, chain, worklist[0].0);
    }
  }

  lemma NearestSkip(g: Graph, start: Value, worklist: seq<Item>, steps: seq<nat>, far: map<Value, nat>)
    requires Nearest(g, start, worklist, steps, far) && worklist != [] && Real(start)
    requires !Real(worklist[0].0) || worklist[0].0 in far
    ensures Nearest(g, start, worklist[1..], steps[1..], far)
  {
    hide Next;
    forall v, n | PendingWithin(worklist, steps, v, n) && Real(v) && !VisitedWithin(far, v, n)
      ensures PendingWithin(worklist[1..], steps[1..], v, n)
    {
      var k :| 0 <= k < |worklist| && worklist[k].0 == v && steps[k] <= n;
      assert worklist[1..][k - 1].0 == v && steps[1..][k - 1] == steps[k];
    }
  }

  ghost function Times(n: nat, k: nat): seq<nat> {
    seq(k, i requires 0 <= i < k => n)
  }

  lemma NearestNext(g: Graph, start: Value, worklist: seq<Item>, steps: seq<nat>, far: map<Value, nat>,
                    added: seq<Item>)
    requires Nearest(g, start, worklist, steps, far) && worklist != [] && worklist[0].0 !in far
    requires added == Tagged(Next(g, Resolving, worklist[0].0), Prefix(g, worklist[0].0) + worklist[0].1)
    ensures Nearest(g, start, worklist[1..] + added, steps[1..] + Times(steps[0] + 1, |added|),
                    far[worklist[0].0 := steps[0]])
  {
    hide Next, Prefix;
    var head, n := worklist[0].0, steps[0];
    var worklist', steps', far' := worklist[1..] + added, steps[1..] + Times(n + 1, |added|), far[head := n];
    StepsInOrder(steps, |added|);
    StillMet(worklist, steps, far, added, start, 0);
    forall u, v | u in far && v in Next(g, Resolving, u) && Real(v)
      ensures VisitedWithin(far', v, far[u] + 1) || PendingWithin(worklist', steps', v, far[u] + 1)
    {
      StillMet(worklist, steps, far, added, v, far[u] + 1);
    }
    forall v | v in Next(g, Resolving, head) ensures PendingWithin(worklist', steps', v, n + 1) {
      NowPending(worklist, steps, added, Next(g, Resolving, head), Prefix(g, head) + worklist[0].1, v);
    }
  }

  lemma StepsInOrder(steps: seq<nat>, k: nat)
    requires steps != [] && forall i, j :: 0 <= i <= j < |steps| ==> steps[i] <= steps[j] <= steps[0] + 1
    ensures var steps' := steps[1..] + Times(steps[0] + 1, k);
      && (forall i, j :: 0 <= i <= j < |steps'| ==> steps'[i] <= steps'[j] <= steps'[0] + 1)
      && (forall j :: 0 <= j < |steps'| ==> steps[0] <= steps'[j])
  {
    var steps' := steps[1..] + Times(steps[0] + 1, k);
    assert forall j :: 0 <= j < |steps'| ==> steps'[j] == if j < |steps| - 1 then steps[j + 1] else steps[0] + 1;
  }

  lemma StillMet(worklist: seq<Item>, steps: seq<nat>, far: map<Value, nat>, added: seq<Item>, v: Value, m: nat)
    requires |steps| == |worklist| > 0 && worklist[0].0 !in far
    requires VisitedWithin(far, v, m) || PendingWithin(worklist, steps, v, m)
    ensures VisitedWithin(far[worklist[0].0 := steps[0]], v, m) ||
      PendingWithin(worklist[1..] + added, steps[1..] + Times(steps[0] + 1, |added|), v, m)
  {
    var worklist', steps' := worklist[1..] + added, steps[1..] + Times(steps[0] + 1, |added|);
    if !VisitedWithin(far[worklist[0].0 := steps[0]], v, m) {
      var k :| 0 <= k < |worklist| && worklist[k].0 == v && steps[k] <= m;
      assert worklist'[k - 1].0 == v && steps'[k - 1] == steps[k];
    }
  }

  lemma NowPending(worklist: seq<Item>, steps: seq<nat>, added: seq<Item>, values: seq<Value>, projections: seq<nat>,
                   v: Value)
    requires |steps| == |worklist| > 0 && added == Tagged(values, projections) && v in values
    ensures PendingWithin(worklist[1..] + added, steps[1..] + Times(steps[0] + 1, |added|), v, steps[0] + 1)
  {
    var worklist', steps' := worklist[1..] + added, steps[1..] + Times(steps[0] + 1, |added|);
    var k :| 0 <= k < |values| && values[k] == v;
    assert worklist'[|worklist| - 1 + k].0 == v && steps'[|worklist| - 1 + k] == steps[0] + 1;
  }

  // ---------------------------------------------------------------- the invariants of the search

  lemma TracedNext(g: Graph, start: Value, worklist: seq<Item>, steps: seq<nat>, added: seq<Item>)
    requires worklist != [] && Traced(g, start, worklist, steps)
    requires added == Tagged(Next(g, Resolving, worklist[0].0), Prefix(g, worklist[0].0) + worklist[0].1)
    ensures Traced(g, start, worklist[1..] + added, steps[1..] + Times(steps[0] + 1, |added|))
  {
    hide ReachesWith, Next, Prefix;
    forall k | 0 <= k < |added|
      ensures ReachesWith(g, start, added[k].0, added[k].1, steps[0] + 1)
    {
      ReachesNextWith(g, start, worklist[0].0, worklist[0].1, steps[0], added[k].0);
    }
  }

  lemma TracedRest(g: Graph, start: Value, worklist: seq<Item>, steps: seq<nat>)
    requires worklist != [] && Traced(g, start, worklist, steps)
    ensures Traced(g, start, worklist[1..], steps[1..]) && ReachesWith(g, start, worklist[0].0, worklist[0].1, steps[0])
  {
    hide ReachesWith;
  }

  lemma CoveredSkip(g: Graph, start: Value, worklist: seq<Item>, visited: set<Value>)
    requires worklist != [] && Covered(g, start, worklist, visited) && Real(start)
    requires !Real(worklist[0].0) || worklist[0].0 in visited
    ensures Covered(g, start, worklist[1..], visited)
  {
    hide Next;
    forall v | Pending(worklist, v) && Real(v) && v !in visited
      ensures Pending(worklist[1..], v)
    {
      PendingRest(worklist, v);
    }
  }

  lemma PendingRest(worklist: seq<Item>, v: Value)
    requires worklist != [] && Pending(worklist, v) && v != worklist[0].0
    ensures Pending(worklist[1..], v)
  {
    var k :| 0 <= k < |worklist| && worklist[k].0 == v;
    assert worklist[1..][k - 1].0 == v;
  }

  lemma CoveredNext(g: Graph, start: Value, worklist: seq<Item>, added: seq<Item>, visited: set<Value>)
    requires worklist != [] && Covered(g, start, worklist, visited) && Real(worklist[0].0)
    requires added == Tagged(Next(g, Resolving, worklist[0].0), Prefix(g, worklist[0].0) + worklist[0].1)
    ensures Covered(g, start, worklist[1..] + added, visited + {worklist[0].0})
  {
    hide Next, Prefix;
    var head, rest := worklist[0].0, worklist[1..] + added;
    forall v | Pending(worklist, v) && v != head
      ensures Pending(rest, v)
    {
      PendingRest(worklist, v);
      var k :| 0 <= k < |worklist[1..]| && worklist[1..][k].0 == v;
      assert rest[k].0 == v;
    }
    forall v | v in Next(g, Resolving, head)
      ensures Pending(rest, v)
    {
      var k :| 0 <= k < |Next(g, Resolving, head)| && Next(g, Resolving, head)[k] == v;
      assert added[k].0 == v;
      assert rest[|worklist| - 1 + k].0 == v;
    }
  }

  lemma PlacesNext(g: Graph, start: Value, places: seq<Place>, places': seq<Place>, far: map<Value, nat>, v: Value,
                   projections: seq<nat>, steps: nat)
    requires PlacesOf(g, start, places, far) && v !in far && (forall u :: u in far ==> far[u] <= steps)
    requires ReachesWith(g, start, v, projections, steps) && NoneShorter(g, start, v, steps)
    requires places' == if StopsAt(g, v) then places + [Place(v, projections)] else places
    ensures PlacesOf(g, start, places', far[v := steps])
  {
    hide ReachesWith, NoneShorter, StopsAt;
    forall u | Listed(places, u) || (u == v && StopsAt(g, v)) ensures Listed(places', u) {
      ListedStill(g, places, places', v, projections, u);
    }
    var far' := far[v := steps];
    forall k | 0 <= k < |places'|
      ensures places'[k].base in far' && IsBaseOf(g, start, places'[k], far'[places'[k].base])
    {
      assert k < |places| ==> places'[k] == places[k] && places[k].base in far;
    }
  }

  lemma ListedStill(g: Graph, places: seq<Place>, places': seq<Place>, v: Value, projections: seq<nat>, u: Value)
    requires places' == if StopsAt(g, v) then places + [Place(v, projections)] else places
    requires Listed(places, u) || (u == v && StopsAt(g, v))
    ensures Listed(places', u)
  {
    hide StopsAt;
    if Listed(places, u) {
      var k :| 0 <= k < |places| && places[k].base == u;
      assert places'[k].base == u;
    } else {
      assert places'[|places|].base == v;
    }
  }

  /** The places a pointer may stand for: the values at which the search stops, each once, with
      the indices of a shortest chain that leads to it, the nearer ones first. */
  ghost predicate Resolved(g: Graph, start: Value, places: seq<Place>) {
    && (forall v :: Real(v) && StopsAt(g, v) && Reaches(g, Resolving, start, v) ==> Listed(places, v))
    && (forall j, k :: 0 <= j < k < |places| ==> places[j].base != places[k].base)
    && exists steps :: AreNearest(g, start, places, steps)
  }

  ghost predicate AreNearest(g: Graph, start: Value, places: seq<Place>, steps: seq<nat>) {
    && |steps| == |places| && (forall j, k :: 0 <= j < k < |steps| ==> steps[j] <= steps[k])
    && forall k :: 0 <= k < |places| ==> Real(places[k].base) && IsBaseOf(g, start, places[k], steps[k])
  }

  lemma SearchIsComplete(g: Graph, start: Value, places: seq<Place>, far: map<Value, nat>)
    requires Covered(g, start, [], far.Keys) && PlacesOf(g, start, places, far)
    ensures Resolved(g, start, places)
  {
    hide Next, StopsAt, ReachesWith, NoneShorter;
    forall v | Real(v) && StopsAt(g, v) && Reaches(g, Resolving, start, v)
      ensures Listed(places, v)
    {
      var chain :| ChainBetween(g, Resolving, start, v, chain);
      ClosedHoldsChain(g, Resolving, far.Keys, start, v, chain);
    }
    var steps := seq(|places|, k requires 0 <= k < |places| => far[places[k].base]);
    assert AreNearest(g, start, places, steps);
  }

  method ResolvePlace(g: Graph, val: Value) returns (places: seq<Place>)
    ensures if Real(val) then Resolved(g, val, places) else places == []
  {
    hide Covered, Traced, PlacesOf, Resolved, Next, Expand, StopsAt, Prefix, ReachesWith, NoneShorter, Nearest,
      Unvisited;
    places := [];
    if !Real(val) {
      return;
    }
    var worklist: seq<Item> := [(val, [])];
    var visited: set<Value> := {};
    ghost var steps, far: map<Value, nat> := [0], map[];
    StartOfSearch(g, val);
    while worklist != []
      invariant Traced(g, val, worklist, steps) && Covered(g, val, worklist, visited) && visited == far.Keys
      invariant Nearest(g, val, worklist, steps, far) && PlacesOf(g, val, places, far)
      decreases |Unvisited(g, visited)|, |worklist|
    {
      var (v, projections) := worklist[0];
      ghost var before, at := worklist, steps;
      worklist := worklist[1..];
      TracedRest(g, val, before, at);
      FarAtMost(g, val, before, at, far);
      if !Real(v) || v in visited {
        CoveredSkip(g, val, before, visited);
        NearestSkip(g, val, before, at, far);
        steps := at[1..];
        continue;
      }
      HeadIsNearest(g, val, before, at, far);
      var isBase, added := Visit(g, v, projections);
      StopIsStop(g, v);
      TracedNext(g, val, before, at, added);
      CoveredNext(g, val, before, added, visited);
      NearestNext(g, val, before, at, far, added);
      Progress(g, visited, v);
      ghost var were := places;
      visited := visited + {v};
      if isBase {
        places := places + [Place(v, projections)];
      }
      PlacesNext(g, val, were, places, far, v, projections, at[0]);
      far, steps := far[v := at[0]], at[1..] + Times(at[0] + 1, |added|);
      worklist := worklist + added;
    }
    SearchIsComplete(g, val, places, far);
  }

  lemma FarAtMost(g: Graph, start: Value, worklist: seq<Item>, steps: seq<nat>, far: map<Value, nat>)
    requires Nearest(g, start, worklist, steps, far) && worklist != []
    ensures |steps| == |worklist| && forall u :: u in far ==> far[u] <= steps[0]
  {
    hide Next;
  }

  lemma StartOfSearch(g: Graph, start: Value)
    requires Real(start)
    ensures Traced(g, start, [(start, [])], [0]) && Covered(g, start, [(start, [])], {})
    ensures Nearest(g, start, [(start, [])], [0], map[]) && PlacesOf(g, start, [], map[])
  {
    ReachesItself(g, Resolving, start);
    var worklist: seq<Item>, steps := [(start, [])], [0];
    assert worklist[0].0 == start && steps[0] == 0;
    assert PendingWithin(worklist, steps, start, 0);
  }

  /** A visit uses up a value of the graph, or it adds no work. */
  lemma Progress(g: Graph, visited: set<Value>, v: Value)
    requires v !in visited
    ensures |Unvisited(g, visited + {v})| < |Unvisited(g, visited)|
         || (|Unvisited(g, visited + {v})| == |Unvisited(g, visited)| && forall walk :: Next(g, walk, v) == [])
  {
    if v.Val? && v.id < |g.nodes| {
      OneLessUnvisited(g, visited, v);
    } else {
      assert Unvisited(g, visited + {v}) == Unvisited(g, visited);
    }
  }

  // ---------------------------------------------------------------- derived from

  ghost predicate NoRepeats(q: seq<Value>) {
    forall j, k :: 0 <= j < k < |q| ==> q[j] != q[k]
  }

  /** The queue and the visited set after a list of values is pushed, leaving out those that
      were visited. */
  ghost predicate Pushed(q: seq<Value>, visited: set<Value>, values: seq<Value>, q': seq<Value>, visited': set<Value>) {
    && visited' == visited + (set v | v in values)
    && (forall v :: v in q' <==> v in q || v in visited' - visited)
    && (NoRepeats(q) ==> NoRepeats(q')) && |q| <= |q'| <= |q| + |values|
  }

  method PushNew(q: seq<Value>, visited: set<Value>, v: Value) returns (q': seq<Value>, visited': set<Value>)
    requires forall u :: u in q ==> u in visited
    ensures Pushed(q, visited, [v], q', visited')
  {
    q', visited' := q, visited;
    if v !in visited {
      visited' := visited + {v};
      q' := q + [v];
    }
  }

  lemma PushedTwice(q: seq<Value>, visited: set<Value>, values: seq<Value>, q': seq<Value>, visited': set<Value>,
                    v: Value, q'': seq<Value>, visited'': set<Value>)
    requires Pushed(q, visited, values, q', visited') && Pushed(q', visited', [v], q'', visited'')
    ensures Pushed(q, visited, values + [v], q'', visited'')
  {
  }

  method PushStored(g: Graph, pointer: Value, q: seq<Value>,
                    visited: set<Value>) returns (q': seq<Value>, visited': set<Value>)
    requires forall u :: u in q ==> u in visited
    ensures Pushed(q, visited, StoredValues(g, Deriving, pointer, g.code), q', visited')
  {
    q', visited' := q, visited;
    var i := 0;
    while i < |g.code|
      invariant i <= |g.code| && (forall u :: u in q' ==> u in visited')
      invariant Pushed(q, visited, StoredValues(g, Deriving, pointer, g.code[..i]), q', visited')
    {
      assert g.code[..i + 1][..i] == g.code[..i];
      var store := g.NodeOf(Val(g.code[i]));
      if store.Store? && store.storePtr == pointer && store.stored != Null {
        ghost var before, seen := q', visited';
        q', visited' := PushNew(q', visited', store.stored);
        PushedTwice(q, visited, StoredValues(g, Deriving, pointer, g.code[..i]), before, seen, store.stored, q',
          visited');
      }
      i := i + 1;
    }
    assert g.code[..i] == g.code;
  }

  method PushNext(g: Graph, v: Value, q: seq<Value>, visited: set<Value>) returns (q': seq<Value>, visited': set<Value>)
    requires forall u :: u in q ==> u in visited
    ensures Pushed(q, visited, Next(g, Deriving, v), q', visited')
  {
    q', visited' := q, visited;
    match g.NodeOf(v)
    case Cast(x) => q', visited' := PushNew(q, visited, x);
    case GetElementPtr(p, _) => q', visited' := PushNew(q, visited, p);
    case Load(p, _) => q', visited' := PushNew(q, visited, p);
    case Alloca => q', visited' := PushStored(g, v, q, visited);
    case Global => q', visited' := PushStored(g, v, q, visited);
    case Argument => q', visited' := PushStored(g, v, q, visited);
    case _ =>
  }

  /** The queue holds visited values, the visited ones are reached, and those that have left
      the queue are followed up and are not the one looked for. */
  ghost predicate Frontier(g: Graph, child: Value, parent: Value, q: seq<Value>, visited: set<Value>) {
    && child in visited && NoRepeats(q)
    && (forall v :: v in q ==> v in visited)
    && (forall v :: v in visited ==> Reaches(g, Deriving, child, v))
    && (forall u :: u in visited && u !in q ==> u != parent)
    && (forall u, v :: u in visited && u !in q && v in Next(g, Deriving, u) ==> v in visited)
  }

  /** The visited values that have left the queue. */
  ghost function Left(q: seq<Value>, visited: set<Value>): set<Value> {
    set v | v in visited && v !in q
  }

  lemma FrontierNext(g: Graph, child: Value, parent: Value, q: seq<Value>, visited: set<Value>, q': seq<Value>,
                     visited': set<Value>)
    requires q != [] && Frontier(g, child, parent, q, visited) && q[0] != parent
    requires Pushed(q[1..], visited, Next(g, Deriving, q[0]), q', visited')
    ensures Frontier(g, child, parent, q', visited')
    ensures Left(q', visited') == Left(q, visited) + {q[0]} && q[0] !in Left(q, visited)
    ensures Next(g, Deriving, q[0]) == [] ==> |q'| < |q|
  {
    hide Next, Reaches;
    assert q == [q[0]] + q[1..];
    forall v | v in visited'
      ensures Reaches(g, Deriving, child, v)
    {
      if v !in visited {
        ReachesNext(g, Deriving, child, q[0], v);
      }
    }
  }

  lemma NotReached(g: Graph, child: Value, parent: Value, visited: set<Value>)
    requires Frontier(g, child, parent, [], visited) && Real(parent)
    ensures !Reaches(g, Deriving, child, parent)
  {
    hide Next;
    if Reaches(g, Deriving, child, parent) {
      var chain :| ChainBetween(g, Deriving, child, parent, chain);
      ClosedHoldsChain(g, Deriving, visited, child, parent, chain);
    }
  }

  method IsDerivedFrom(g: Graph, child: Value, parent: Value) returns (derived: bool)
    ensures derived <==>
      child != Null && parent != Null &&
      (child == parent || (child != LockMarker && parent != LockMarker && Reaches(g, Deriving, child, parent)))
  {
    hide Next, Reaches, Frontier, Pushed, Left, Unvisited;
    if child == Null || parent == Null {
      return false;
    }
    if child == parent {
      return true;
    }
    if child == LockMarker || parent == LockMarker {
      return false;
    }
    var q := [child];
    var visited := {child};
    StartOfQueue(g, child, parent);
    while q != []
      invariant Frontier(g, child, parent, q, visited)
      decreases |Unvisited(g, Left(q, visited))|, |q|
    {
      var v := q[0];
      ghost var before, seen := q, visited;
      FrontierFacts(g, child, parent, q, visited);
      q := q[1..];
      if v == parent {
        return true;
      }
      q, visited := PushNext(g, v, q, visited);
      FrontierNext(g, child, parent, before, seen, q, visited);
      Progress(g, Left(before, seen), v);
    }
    NotReached(g, child, parent, visited);
    return false;
  }

  lemma StartOfQueue(g: Graph, child: Value, parent: Value)
    ensures Frontier(g, child, parent, [child], {child})
  {
    ReachesItself(g, Deriving, child);
  }

  lemma FrontierFacts(g: Graph, child: Value, parent: Value, q: seq<Value>, visited: set<Value>)
    requires q != [] && Frontier(g, child, parent, q, visited)
    ensures Reaches(g, Deriving, child, q[0])
    ensures forall u :: u in q[1..] ==> u in visited
  {
  }
}
