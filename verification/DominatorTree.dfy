/**
 The graph theory behind MIRDominance, on block numbers.

 A reachable block is numbered by its place in reverse post-order, so the entry is 0.
 `preds[x]` holds the numbers of the reachable predecessors of block x.
 An immediate-dominator map under construction is a sequence `par`: block x < |par| has
 been given the parent par[x], which always has a smaller number.
 */
module DominatorTree {

  type Preds = seq<set<nat>>

  /** What the numbering promises: predecessors are blocks, and every block other than the
      entry has a predecessor with a smaller number. */
  ghost predicate Numbered(preds: Preds) {
    && |preds| > 0
    && (forall x, p :: 0 <= x < |preds| && p in preds[x] ==> p < |preds|)
    && (forall x :: 0 < x < |preds| ==> HasLowPred(preds, x))
  }

  ghost predicate HasLowPred(preds: Preds, x: nat)
    requires x < |preds|
  {
    exists p :: p in preds[x] && p < x
  }

  // ---------------------------------------------------------------- paths and dominance

  /** A walk along edges that starts at the entry. */
  ghost predicate Path(preds: Preds, path: seq<nat>) {
    && |path| > 0
    && path[0] == 0
    && (forall k :: 0 <= k < |path| ==> path[k] < |preds|)
    && (forall k :: 0 <= k < |path| - 1 ==> path[k] in preds[path[k + 1]])
  }

  ghost predicate PathTo(preds: Preds, path: seq<nat>, x: nat) {
    Path(preds, path) && path[|path| - 1] == x
  }

  /** Every path from the entry to x contains z. */
  ghost predicate Dom(preds: Preds, z: nat, x: nat) {
    forall path :: PathTo(preds, path, x) ==> z in path
  }

  lemma {:induction false} LowPath(preds: Preds, x: nat) returns (path: seq<nat>)
    requires Numbered(preds) && x < |preds|
    ensures PathTo(preds, path, x)
    ensures forall y :: y in path ==> y <= x
  {
    if x == 0 {
      path := [0];
    } else {
      assert HasLowPred(preds, x);
      var p :| p in preds[x] && p < x;
      path := LowPath(preds, p);
      path := path + [x];
    }
  }

  /** A dominator never has a larger number than the block it dominates. */
  lemma DominatorIsNotLater(preds: Preds, z: nat, x: nat)
    requires Numbered(preds) && x < |preds| && Dom(preds, z, x)
    ensures z <= x
  {
    var path := LowPath(preds, x);
    assert z in path;
  }

  lemma StrictDominatorDominatesPreds(preds: Preds, z: nat, x: nat, p: nat)
    requires Numbered(preds) && x < |preds| && p in preds[x]
    requires Dom(preds, z, x) && z != x
    ensures Dom(preds, z, p)
  {
    forall path | PathTo(preds, path, p)
      ensures z in path
    {
      assert PathTo(preds, path + [x], x);
    }
  }

  // ---------------------------------------------------------------- trees

  ghost predicate IsTree(par: seq<nat>) {
    && |par| > 0
    && par[0] == 0
    && forall x :: 0 < x < |par| ==> par[x] < x
  }

  /** z lies on the chain from y to the entry, y included. */
  ghost predicate Anc(par: seq<nat>, z: nat, y: nat)
    requires IsTree(par) && y < |par|
    decreases y
  {
    z == y || (y > 0 && Anc(par, z, par[y]))
  }

  lemma {:induction false} AncIsNotLater(par: seq<nat>, z: nat, y: nat)
    requires IsTree(par) && y < |par| && Anc(par, z, y)
    ensures z <= y
    decreases y
  {
    if z != y {
      AncIsNotLater(par, z, par[y]);
    }
  }

  lemma {:induction false} AncTrans(par: seq<nat>, x: nat, y: nat, z: nat)
    requires IsTree(par) && z < |par| && y < |par| && Anc(par, x, y) && Anc(par, y, z)
    ensures Anc(par, x, z)
    decreases z
  {
    if y != z {
      AncTrans(par, x, y, par[z]);
    }
  }

  /** Two ancestors of one block lie on one chain. */
  lemma {:induction false} AncChain(par: seq<nat>, x: nat, y: nat, z: nat)
    requires IsTree(par) && z < |par| && Anc(par, x, z) && Anc(par, y, z) && x <= y
    ensures y <= z && Anc(par, x, y)
    decreases z
  {
    AncIsNotLater(par, y, z);
    if y != z {
      AncChain(par, x, y, par[z]);
    }
  }

  lemma {:induction false} EntryIsAnc(par: seq<nat>, y: nat)
    requires IsTree(par) && y < |par|
    ensures Anc(par, 0, y)
    decreases y
  {
    if y > 0 {
      EntryIsAnc(par, par[y]);
    }
  }

  /** The nearest common ancestor, found by always lifting the later of the two blocks. */
  ghost function Nca(par: seq<nat>, a: nat, b: nat): (r: nat)
    requires IsTree(par) && a < |par| && b < |par|
    ensures r <= a && r <= b
    decreases a + b
  {
    if a == b then a
    else if a > b then Nca(par, par[a], b)
    else Nca(par, a, par[b])
  }

  /** It is an ancestor of both, and every ancestor of both is an ancestor of it. */
  lemma {:induction false} NcaIsNearest(par: seq<nat>, a: nat, b: nat, z: nat)
    requires IsTree(par) && a < |par| && b < |par|
    ensures Anc(par, z, Nca(par, a, b)) <==> Anc(par, z, a) && Anc(par, z, b)
    decreases a + b
  {
    if a > b {
      NcaIsNearest(par, par[a], b, z);
      if z == a && Anc(par, z, b) {
        AncIsNotLater(par, z, b);
      }
    } else if a < b {
      NcaIsNearest(par, a, par[b], z);
      if z == b && Anc(par, z, a) {
        AncIsNotLater(par, z, a);
      }
    }
  }

  // ---------------------------------------------------------------- the fixpoint loop

  /** Every common ancestor of the predecessors of x that have a parent is an ancestor of v. */
  ghost predicate Meet(preds: Preds, par: seq<nat>, x: nat, v: nat)
    requires IsTree(par) && x < |preds| && v < |par|
  {
    forall z :: (forall p :: p in preds[x] && p < |par| ==> Anc(par, z, p)) ==> Anc(par, z, v)
  }

  /** v is an ancestor of every predecessor of x that has a parent. */
  ghost predicate Below(preds: Preds, par: seq<nat>, x: nat, v: nat)
    requires IsTree(par) && x < |preds|
  {
    forall p :: p in preds[x] && p < |par| ==> Anc(par, v, p)
  }

  /** Every strict dominator of x dominates v. */
  ghost predicate Complete(preds: Preds, x: nat, v: nat) {
    forall z :: z != x && Dom(preds, z, x) ==> Dom(preds, z, v)
  }

  /** What holds of the parent of x when block number i is the next one of the pass. The last
      line is the pass structure: the parent of x lies on the chain of every earlier
      predecessor of x, unless that chain was changed by this pass above block i and x is
      still to come. */
  ghost predicate Settled(preds: Preds, par: seq<nat>, i: nat, x: nat)
    requires IsTree(par) && |par| <= |preds| && 0 < x < |par|
  {
    && Meet(preds, par, x, par[x])
    && Complete(preds, x, par[x])
    && (forall p :: p in preds[x] && p < x ==> Anc(par, par[x], p) || (i <= x && par[x] < i))
  }

  /** The state of the loop when block number i is the next one of the pass. */
  ghost predicate PassInv(preds: Preds, par: seq<nat>, i: nat) {
    && Numbered(preds)
    && IsTree(par)
    && 0 < i <= |preds|
    && (|par| == i || |par| == |preds|)
    && forall x :: 0 < x < |par| ==> Settled(preds, par, i, x)
  }

  ghost function Assign(par: seq<nat>, i: nat, v: nat): (r: seq<nat>)
    requires i <= |par|
    ensures |r| == if i == |par| then i + 1 else |par|
    ensures r[i] == v && forall x :: 0 <= x < |par| && x != i ==> r[x] == par[x]
  {
    if i == |par| then par + [v] else par[i := v]
  }

  /** Nothing below number i is moved by giving block i a new parent. */
  lemma {:induction false} AssignKeepsLow(par: seq<nat>, i: nat, v: nat, z: nat, y: nat)
    requires IsTree(par) && 0 < i <= |par| && v < i && y < i
    ensures IsTree(Assign(par, i, v))
    ensures Anc(Assign(par, i, v), z, y) <==> Anc(par, z, y)
    decreases y
  {
    if y > 0 {
      AssignKeepsLow(par, i, v, z, par[y]);
    }
  }

  /** Lifting block i to an ancestor of its old parent only removes ancestors. */
  lemma {:induction false} AssignOnlyRemoves(par: seq<nat>, i: nat, v: nat, z: nat, y: nat)
    requires IsTree(par) && 0 < i <= |par| && v < i && y < |par|
    requires i < |par| ==> Anc(par, v, par[i])
    requires IsTree(Assign(par, i, v)) && Anc(Assign(par, i, v), z, y)
    ensures Anc(par, z, y)
    decreases y
  {
    var par' := Assign(par, i, v);
    if y == i {
      if z != i {
        AssignKeepsLow(par, i, v, z, v);
        AncTrans(par, z, v, par[i]);
      }
    } else if z != y {
      AssignOnlyRemoves(par, i, v, z, par[y]);
    }
  }

  /** A chain that ends at or after block i is not moved. */
  lemma {:induction false} AssignKeepsHigh(par: seq<nat>, i: nat, v: nat, z: nat, y: nat)
    requires IsTree(par) && 0 < i <= |par| && v < i && i <= z && y < |par| && Anc(par, z, y)
    ensures IsTree(Assign(par, i, v)) && Anc(Assign(par, i, v), z, y)
    decreases y
  {
    if z != y {
      AncIsNotLater(par, z, par[y]);
      AssignKeepsHigh(par, i, v, z, par[y]);
    }
  }

  /** The only ancestors removed lie strictly between block i and its new parent. */
  lemma {:induction false} AssignLoses(par: seq<nat>, i: nat, v: nat, z: nat, y: nat)
    requires IsTree(par) && 0 < i <= |par| && v < i && y < |par| && Anc(par, z, y)
    requires i < |par| ==> Anc(par, v, par[i])
    ensures IsTree(Assign(par, i, v))
    ensures Anc(Assign(par, i, v), z, y) || (i < |par| && Anc(par, i, y) && z < i)
    decreases y
  {
    if z != y && y != i {
      AssignLoses(par, i, v, z, par[y]);
    } else if z != y {
      AncIsNotLater(par, z, par[y]);
    }
  }

  /** Block i was given a meet of its predecessors before, so the meet found now is an
      ancestor of that parent. */
  lemma ReassignedUpwards(preds: Preds, par: seq<nat>, i: nat, v: nat)
    requires PassInv(preds, par, i) && i < |par| && v < |par|
    requires Below(preds, par, i, v)
    ensures Anc(par, v, par[i]) && v <= par[i]
  {
    assert Settled(preds, par, i, i);
    AncIsNotLater(par, v, par[i]);
  }

  lemma StepKeepsMeet(preds: Preds, par: seq<nat>, i: nat, v: nat, x: nat)
    requires PassInv(preds, par, i) && i < |preds| && v < i && v < |par| && 0 < x < |par|
    requires i < |par| ==> Anc(par, v, par[i])
    requires x != i
    ensures IsTree(Assign(par, i, v)) && Meet(preds, Assign(par, i, v), x, par[x])
  {
    var par' := Assign(par, i, v);
    assert Settled(preds, par, i, x);
    forall z | forall p :: p in preds[x] && p < |par'| ==> Anc(par', z, p)
      ensures Anc(par', z, par[x])
    {
      forall p | p in preds[x] && p < |par| ensures Anc(par, z, p) {
        AssignOnlyRemoves(par, i, v, z, p);
      }
      assert Anc(par, z, par[x]);
      AssignLoses(par, i, v, z, par[x]);
      if !Anc(par', z, par[x]) {
        AncIsNotLater(par, i, par[x]);
        assert HasLowPred(preds, x);
        var p :| p in preds[x] && p < x;
        AssignKeepsHigh(par, i, v, par[x], p);
        AncChain(par', z, par[x], p);
      }
    }
  }

  lemma StepKeepsSettled(preds: Preds, par: seq<nat>, i: nat, v: nat, x: nat)
    requires PassInv(preds, par, i) && i < |preds| && v < i && v < |par| && 0 < x < |par|
    requires i < |par| ==> Anc(par, v, par[i])
    requires x != i
    ensures IsTree(Assign(par, i, v)) && Settled(preds, Assign(par, i, v), i + 1, x)
  {
    var par' := Assign(par, i, v);
    assert Settled(preds, par, i, x);
    StepKeepsMeet(preds, par, i, v, x);
    forall p | p in preds[x] && p < x
      ensures Anc(par', par[x], p) || (i + 1 <= x && par[x] < i + 1)
    {
      if x < i {
        AssignKeepsLow(par, i, v, par[x], p);
      } else if i < par[x] {
        AssignKeepsHigh(par, i, v, par[x], p);
      }
    }
  }

  lemma StepSettlesBlock(preds: Preds, par: seq<nat>, i: nat, v: nat)
    requires PassInv(preds, par, i) && i < |preds| && v < i && v < |par|
    requires Meet(preds, par, i, v) && Below(preds, par, i, v) && Complete(preds, i, v)
    requires i < |par| ==> Anc(par, v, par[i])
    ensures IsTree(Assign(par, i, v)) && Settled(preds, Assign(par, i, v), i + 1, i)
  {
    var par' := Assign(par, i, v);
    forall z | forall p :: p in preds[i] && p < |par'| ==> Anc(par', z, p)
      ensures Anc(par', z, v)
    {
      forall p | p in preds[i] && p < |par| ensures Anc(par, z, p) {
        AssignOnlyRemoves(par, i, v, z, p);
      }
      AssignKeepsLow(par, i, v, z, v);
    }
    forall p | p in preds[i] && p < i ensures Anc(par', v, p) {
      AssignKeepsLow(par, i, v, v, p);
    }
  }

  /** One step of a pass: block i receives the meet of its predecessors. */
  lemma Step(preds: Preds, par: seq<nat>, i: nat, v: nat)
    requires PassInv(preds, par, i) && i < |preds| && v < i && v < |par|
    requires Meet(preds, par, i, v) && Below(preds, par, i, v) && Complete(preds, i, v)
    ensures PassInv(preds, Assign(par, i, v), i + 1)
    ensures i < |par| ==> Anc(par, v, par[i]) && v <= par[i]
  {
    if i < |par| {
      ReassignedUpwards(preds, par, i, v);
    }
    StepSettlesBlock(preds, par, i, v);
    var par', i' := Assign(par, i, v), i + 1;
    forall x | 0 < x < |par| && x != i ensures Settled(preds, par', i', x) {
      StepKeepsSettled(preds, par, i, v, x);
    }
  }

  /** A new pass may begin where the last one ended. */
  lemma NextPass(preds: Preds, par: seq<nat>)
    requires PassInv(preds, par, |preds|)
    ensures PassInv(preds, par, 1)
  {
    forall x | 0 < x < |par| ensures Settled(preds, par, 1, x) {
      assert Settled(preds, par, |preds|, x);
    }
  }

  /** The sum of the parents' numbers; a block without a parent counts as `n`. */
  ghost function Measure(par: seq<nat>, n: nat): nat
  {
    SumTo(par, n, n)
  }

  ghost function SumTo(par: seq<nat>, n: nat, k: nat): nat {
    if k == 0 then 0 else SumTo(par, n, k - 1) + if k - 1 < |par| then par[k - 1] else n
  }

  /** Every re-assignment lowers the measure. */
  lemma {:induction false} AssignLowersSum(par: seq<nat>, n: nat, i: nat, v: nat, k: nat)
    requires i <= |par| && v < n
    requires i < |par| ==> v < par[i]
    ensures i < k ==> SumTo(Assign(par, i, v), n, k) < SumTo(par, n, k)
    ensures k <= i ==> SumTo(Assign(par, i, v), n, k) == SumTo(par, n, k)
  {
    if k > 0 {
      AssignLowersSum(par, n, i, v, k - 1);
    }
  }

  /** v is the meet, in the tree and in the dominance order, of the blocks ps. */
  ghost predicate MeetOf(preds: Preds, par: seq<nat>, ps: set<nat>, v: nat)
    requires IsTree(par) && v < |par| && forall p :: p in ps ==> p < |par|
  {
    && (forall p :: p in ps ==> Anc(par, v, p))
    && (forall z :: (forall p :: p in ps ==> Anc(par, z, p)) ==> Anc(par, z, v))
    && (forall z :: (forall p :: p in ps ==> Dom(preds, z, p)) ==> Dom(preds, z, v))
  }

  /** The walk up to the nearest common ancestor never steps over a common dominator. */
  lemma {:induction false} NcaKeepsDominators(preds: Preds, par: seq<nat>, i: nat, a: nat, b: nat, z: nat)
    requires PassInv(preds, par, i) && a < |par| && b < |par|
    requires Dom(preds, z, a) && Dom(preds, z, b)
    ensures Dom(preds, z, Nca(par, a, b))
    decreases a + b
  {
    DominatorIsNotLater(preds, z, a);
    DominatorIsNotLater(preds, z, b);
    if a > b {
      assert Settled(preds, par, i, a);
      NcaKeepsDominators(preds, par, i, par[a], b, z);
    } else if a < b {
      assert Settled(preds, par, i, b);
      NcaKeepsDominators(preds, par, i, a, par[b], z);
    }
  }

  lemma MeetExtends(preds: Preds, par: seq<nat>, i: nat, ps: set<nat>, v: nat, q: nat)
    requires PassInv(preds, par, i) && v < |par| && q < |par| && forall p :: p in ps ==> p < |par|
    requires MeetOf(preds, par, ps, v)
    ensures MeetOf(preds, par, ps + {q}, Nca(par, q, v))
  {
    var r := Nca(par, q, v);
    NcaIsNearest(par, q, v, r);
    forall p | p in ps + {q} ensures Anc(par, r, p) {
      if p in ps {
        AncTrans(par, r, v, p);
      }
    }
    forall z | forall p :: p in ps + {q} ==> Anc(par, z, p) ensures Anc(par, z, r) {
      NcaIsNearest(par, q, v, z);
    }
    forall z | forall p :: p in ps + {q} ==> Dom(preds, z, p) ensures Dom(preds, z, r) {
      NcaKeepsDominators(preds, par, i, q, v, z);
    }
  }

  /** The meet of all predecessors that have a parent is what `Step` asks for. */
  lemma MeetOfAllPreds(preds: Preds, par: seq<nat>, i: nat, ps: set<nat>, v: nat)
    requires PassInv(preds, par, i) && 0 < i < |preds| && v < |par|
    requires forall p :: p in ps <==> p in preds[i] && p < |par|
    requires MeetOf(preds, par, ps, v)
    ensures v < i && Meet(preds, par, i, v) && Below(preds, par, i, v) && Complete(preds, i, v)
  {
    assert HasLowPred(preds, i);
    var low :| low in preds[i] && low < i;
    assert low in ps;
    AncIsNotLater(par, v, low);
    forall z | z != i && Dom(preds, z, i) ensures Dom(preds, z, v) {
      forall p | p in ps ensures Dom(preds, z, p) {
        StrictDominatorDominatesPreds(preds, z, i, p);
      }
    }
    forall z | forall p :: p in preds[i] && p < |par| ==> Anc(par, z, p) ensures Anc(par, z, v) {
      assert forall p :: p in ps ==> Anc(par, z, p);
    }
  }

  /** Folding a list of blocks, from the block v. */
  ghost function MeetList(par: seq<nat>, v: nat, ps: seq<nat>): (r: nat)
    requires IsTree(par) && v < |par| && forall k :: 0 <= k < |ps| ==> ps[k] < |par|
    ensures r < |par|
    decreases |ps|
  {
    if ps == [] then v else Nca(par, ps[|ps| - 1], MeetList(par, v, ps[..|ps| - 1]))
  }

  ghost function Members(ps: seq<nat>): set<nat> {
    set p | p in ps
  }

  lemma {:induction false} MeetListIsMeet(preds: Preds, par: seq<nat>, i: nat, v: nat, ps: seq<nat>)
    requires PassInv(preds, par, i) && v < |par| && forall k :: 0 <= k < |ps| ==> ps[k] < |par|
    ensures MeetOf(preds, par, {v} + Members(ps), MeetList(par, v, ps))
    decreases |ps|
  {
    if ps != [] {
      var front, last := ps[..|ps| - 1], ps[|ps| - 1];
      assert ps == front + [last];
      MeetListIsMeet(preds, par, i, v, front);
      MeetExtends(preds, par, i, {v} + Members(front), MeetList(par, v, front), last);
      assert {v} + Members(ps) == {v} + Members(front) + {last};
    }
  }

  /** One step of a pass, with the new parent found by folding the predecessors that have a
      parent. */
  lemma StepByFolding(preds: Preds, par: seq<nat>, i: nat, v: nat, ps: seq<nat>)
    requires PassInv(preds, par, i) && i < |preds| && v in ps
    requires forall k :: 0 <= k < |ps| ==> ps[k] < |par| && ps[k] in preds[i]
    requires forall p :: p in preds[i] && p < |par| ==> p in ps
    ensures var r := MeetList(par, v, ps);
            && r < i && Below(preds, par, i, r)
            && (i < |par| ==> r <= par[i])
            && PassInv(preds, Assign(par, i, r), i + 1)
  {
    MeetListIsMeet(preds, par, i, v, ps);
    var r := MeetList(par, v, ps);
    assert {v} + Members(ps) == Members(ps);
    MeetOfAllPreds(preds, par, i, Members(ps), r);
    Step(preds, par, i, r);
  }

  // ---------------------------------------------------------------- the fixpoint is dominance

  /** A pass that moved nothing. */
  ghost predicate Fixpoint(preds: Preds, par: seq<nat>) {
    && PassInv(preds, par, |preds|)
    && |par| == |preds|
    && forall x :: 0 < x < |par| ==> Below(preds, par, x, par[x])
  }

  /** The blocks before number i already have a parent below which no predecessor lies. */
  ghost predicate BelowUpTo(preds: Preds, par: seq<nat>, i: nat)
    requires IsTree(par) && i <= |preds|
  {
    i <= 1 || (i - 1 < |par| && Below(preds, par, i - 1, par[i - 1]) && BelowUpTo(preds, par, i - 1))
  }

  lemma {:induction false} BelowUpToAll(preds: Preds, par: seq<nat>, i: nat, x: nat)
    requires IsTree(par) && i <= |preds| && 0 < x < i && BelowUpTo(preds, par, i)
    ensures x < |par| && Below(preds, par, x, par[x])
  {
    if x < i - 1 {
      BelowUpToAll(preds, par, i - 1, x);
    }
  }

  lemma NothingMoved(preds: Preds, par: seq<nat>)
    requires PassInv(preds, par, |preds|) && BelowUpTo(preds, par, |preds|)
    ensures Fixpoint(preds, par)
  {
    forall x | 0 < x < |par| ensures Below(preds, par, x, par[x]) {
      BelowUpToAll(preds, par, |preds|, x);
    }
  }

  /** Soundness: every path to y passes all of the ancestors of y. */
  lemma {:induction false} AncestorsAreOnPaths(preds: Preds, par: seq<nat>, path: seq<nat>, z: nat, y: nat)
    requires Fixpoint(preds, par) && PathTo(preds, path, y) && y < |par| && Anc(par, z, y)
    ensures z in path
    decreases |path|
  {
    if z != y {
      var front := path[..|path| - 1];
      var p := front[|front| - 1];
      AncTrans(par, z, par[y], p);
      AncestorsAreOnPaths(preds, par, front, z, p);
    }
  }

  /** Completeness: every dominator of y is an ancestor of y. */
  lemma {:induction false} DominatorsAreAncestors(preds: Preds, par: seq<nat>, i: nat, z: nat, y: nat)
    requires PassInv(preds, par, i) && y < |par| && Dom(preds, z, y)
    ensures Anc(par, z, y)
    decreases y
  {
    DominatorIsNotLater(preds, z, y);
    if z != y {
      assert Settled(preds, par, i, y);
      DominatorsAreAncestors(preds, par, i, z, par[y]);
    }
  }

  /** At the fixpoint the tree is the dominance relation. */
  lemma AncestorsAreDominators(preds: Preds, par: seq<nat>, z: nat, y: nat)
    requires Fixpoint(preds, par) && y < |par|
    ensures Anc(par, z, y) <==> Dom(preds, z, y)
  {
    if Anc(par, z, y) {
      forall path | PathTo(preds, path, y) ensures z in path {
        AncestorsAreOnPaths(preds, par, path, z, y);
      }
    } else if Dom(preds, z, y) {
      DominatorsAreAncestors(preds, par, |preds|, z, y);
    }
  }

  // ---------------------------------------------------------------- depth

  ghost function Depth(par: seq<nat>, x: nat): nat
    requires IsTree(par) && x < |par|
    decreases x
  {
    if x == 0 then 0 else 1 + Depth(par, par[x])
  }

  ghost function StrictAncestors(par: seq<nat>, x: nat): set<nat>
    requires IsTree(par) && x < |par|
  {
    set z: nat | z < x && Anc(par, z, x)
  }

  lemma {:induction false} DepthCountsAncestors(par: seq<nat>, x: nat)
    requires IsTree(par) && x < |par|
    ensures Depth(par, x) == |StrictAncestors(par, x)|
    decreases x
  {
    if x > 0 {
      DepthCountsAncestors(par, par[x]);
      forall z: nat | z < x && Anc(par, z, x) ensures z in StrictAncestors(par, par[x]) + {par[x]} {
        AncIsNotLater(par, z, par[x]);
      }
      forall z | z in StrictAncestors(par, par[x]) + {par[x]} ensures z in StrictAncestors(par, x) {
        assert Anc(par, z, par[x]);
      }
      assert StrictAncestors(par, x) == StrictAncestors(par, par[x]) + {par[x]};
    }
  }

  // ---------------------------------------------------------------- interval numbering

  ghost function Descendants(par: seq<nat>, r: nat): set<nat>
    requires IsTree(par)
  {
    set y: nat | y < |par| && Anc(par, r, y)
  }

  /** a's interval contains b's. */
  predicate Contains(a: (int, int), b: (int, int)) {
    a.0 <= b.0 && a.1 >= b.1
  }

  /** The blocks S carry intervals within (lo, hi] that contain one another exactly along
      the tree. */
  ghost predicate Nested(par: seq<nat>, S: set<nat>, num: map<nat, (int, int)>, lo: int, hi: int)
    requires IsTree(par)
  {
    && (forall y :: y in S ==> y < |par| && y in num && lo < num[y].0 <= num[y].1 <= hi)
    && (forall a, b :: a in S && b in S ==> (Anc(par, a, b) <==> Contains(num[a], num[b])))
  }

  ghost predicate Unrelated(par: seq<nat>, S: set<nat>, T: set<nat>)
    requires IsTree(par)
  {
    forall a, b :: a in S && b in T && a < |par| && b < |par| ==> !Anc(par, a, b) && !Anc(par, b, a)
  }

  /** num' differs from num only on T. */
  ghost predicate OnlyChangedOn(T: set<nat>, num: map<nat, (int, int)>, num': map<nat, (int, int)>) {
    forall y :: y !in T ==> (y in num <==> y in num') && (y in num ==> num[y] == num'[y])
  }

  /** Numbering T after S keeps the two side by side. */
  lemma SideBySide(par: seq<nat>, S: set<nat>, T: set<nat>, num: map<nat, (int, int)>, num': map<nat, (int, int)>,
                   lo: int, mid: int, hi: int)
    requires IsTree(par) && lo <= mid <= hi && Unrelated(par, S, T) && S !! T
    requires Nested(par, S, num, lo, mid) && Nested(par, T, num', mid, hi) && OnlyChangedOn(T, num, num')
    ensures Nested(par, S + T, num', lo, hi)
  {
    forall a, b | a in S + T && b in S + T ensures Anc(par, a, b) <==> Contains(num'[a], num'[b]) {
      if a in S && b in S {
        assert num'[a] == num[a] && num'[b] == num[b];
      } else if a in S {
        assert num'[a] == num[a];
      } else if b in S {
        assert num'[b] == num[b];
      }
    }
  }

  /** The descendants of a list of blocks. */
  ghost function DescendantsOf(par: seq<nat>, cs: seq<nat>): set<nat>
    requires IsTree(par)
  {
    if cs == [] then {} else DescendantsOf(par, cs[..|cs| - 1]) + Descendants(par, cs[|cs| - 1])
  }

  ghost predicate Children(par: seq<nat>, x: nat, cs: seq<nat>)
    requires IsTree(par)
  {
    && (forall j :: 0 <= j < |cs| ==> 0 < cs[j] < |par| && par[cs[j]] == x)
    && (forall i, j :: 0 <= i < j < |cs| ==> cs[i] != cs[j])
  }

  lemma {:induction false} NewChildIsUnrelated(par: seq<nat>, x: nat, cs: seq<nat>, c: nat)
    requires IsTree(par) && Children(par, x, cs) && 0 < c < |par| && par[c] == x && c !in cs
    ensures Unrelated(par, DescendantsOf(par, cs), Descendants(par, c))
    ensures DescendantsOf(par, cs) !! Descendants(par, c)
    decreases |cs|
  {
    if cs != [] {
      var last := cs[|cs| - 1];
      NewChildIsUnrelated(par, x, cs[..|cs| - 1], c);
      SiblingsAreUnrelated(par, last, c);
      forall y | y in Descendants(par, last) ensures y !in Descendants(par, c) {
        SiblingsShareNothing(par, last, c, y);
      }
    }
  }

  lemma {:induction false} DescendantsOfMember(par: seq<nat>, cs: seq<nat>, c: nat, y: nat)
    requires IsTree(par) && c in cs && y in Descendants(par, c)
    ensures y in DescendantsOf(par, cs)
    decreases |cs|
  {
    if c != cs[|cs| - 1] {
      DescendantsOfMember(par, cs[..|cs| - 1], c, y);
    }
  }

  lemma {:induction false} DescendantsOfSome(par: seq<nat>, x: nat, cs: seq<nat>, y: nat)
    requires IsTree(par) && Children(par, x, cs) && y in DescendantsOf(par, cs)
    ensures x < y < |par| && Anc(par, x, y)
    decreases |cs|
  {
    var last := cs[|cs| - 1];
    if y in Descendants(par, last) {
      assert Anc(par, x, par[last]);
      AncTrans(par, x, last, y);
      AncIsNotLater(par, last, y);
    } else {
      DescendantsOfSome(par, x, cs[..|cs| - 1], y);
    }
  }

  /** A block's descendants are itself and the descendants of its children. */
  lemma DescendantsByChildren(par: seq<nat>, x: nat, cs: seq<nat>)
    requires IsTree(par) && x < |par| && Children(par, x, cs)
    requires forall c :: 0 < c < |par| && par[c] == x ==> c in cs
    ensures Descendants(par, x) == DescendantsOf(par, cs) + {x} && x !in DescendantsOf(par, cs)
  {
    forall y | y in Descendants(par, x) ensures y in DescendantsOf(par, cs) + {x} {
      if y != x {
        var c := ChildTowards(par, x, y);
        DescendantsOfMember(par, cs, c, y);
      }
    }
    forall y | y in DescendantsOf(par, cs) ensures y in Descendants(par, x) && y != x {
      DescendantsOfSome(par, x, cs, y);
    }
  }

  /** Numbering the root last, with an interval around all the others. */
  lemma OnTop(par: seq<nat>, r: nat, S: set<nat>, num: map<nat, (int, int)>, lo: int, hi: int)
    requires IsTree(par) && r < |par| && Descendants(par, r) == S + {r} && r !in S
    requires Nested(par, S, num, lo + 1, hi) && r in num && num[r] == (lo + 1, hi) && lo < hi
    ensures Nested(par, S + {r}, num, lo, hi)
  {
    forall y | y in S ensures Anc(par, r, y) && !Anc(par, y, r) {
      assert y in Descendants(par, r);
      if Anc(par, y, r) {
        AncIsNotLater(par, y, r);
        AncIsNotLater(par, r, y);
      }
    }
  }

  lemma SiblingsAreUnrelated(par: seq<nat>, c: nat, d: nat)
    requires IsTree(par) && 0 < c < |par| && 0 < d < |par| && par[c] == par[d] && c != d
    ensures Unrelated(par, Descendants(par, c), Descendants(par, d))
  {
    forall a, b | a in Descendants(par, c) && b in Descendants(par, d)
      ensures !Anc(par, a, b) && !Anc(par, b, a)
    {
      if Anc(par, a, b) {
        AncTrans(par, c, a, b);
        SiblingsShareNothing(par, c, d, b);
      }
      if Anc(par, b, a) {
        AncTrans(par, d, b, a);
        SiblingsShareNothing(par, c, d, a);
      }
    }
  }

  lemma {:induction false} SiblingsShareNothing(par: seq<nat>, c: nat, d: nat, y: nat)
    requires IsTree(par) && 0 < c < |par| && 0 < d < |par| && par[c] == par[d] && c != d && y < |par|
    ensures !(Anc(par, c, y) && Anc(par, d, y))
    decreases c > d
  {
    if c > d {
      SiblingsShareNothing(par, d, c, y);
    } else if Anc(par, c, y) && Anc(par, d, y) {
      AncChain(par, c, d, y);
      AncIsNotLater(par, c, par[d]);
    }
  }

  /** The child of r on the way down to its descendant y. */
  lemma {:induction false} ChildTowards(par: seq<nat>, r: nat, y: nat) returns (c: nat)
    requires IsTree(par) && y < |par| && Anc(par, r, y) && r != y
    ensures 0 < c < |par| && par[c] == r && Anc(par, c, y)
    decreases y
  {
    if par[y] == r {
      c := y;
    } else {
      c := ChildTowards(par, r, par[y]);
    }
  }
}
