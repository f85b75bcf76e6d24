/** Lists of loans, compared by borrowed base and holding pointer. */
module Loans {

  /** `base` and `pointer` stand for value addresses. */
  datatype Loan = Loan(base: nat, projections: seq<nat>, pointer: nat, isMut: bool)

  datatype Key = Key(base: nat, pointer: nat)

  /** Two loans are the same loan when these two agree; projections and mutability are not
      compared. */
  function KeyOf(l: Loan): Key {
    Key(l.base, l.pointer)
  }

  predicate Holds(loans: seq<Loan>, l: Loan) {
    exists k :: 0 <= k < |loans| && KeyOf(loans[k]) == KeyOf(l)
  }

  ghost function Keys(loans: seq<Loan>): set<Key> {
    set l | l in loans :: KeyOf(l)
  }

  ghost predicate Distinct(loans: seq<Loan>) {
    forall i, j :: 0 <= i < j < |loans| ==> KeyOf(loans[i]) != KeyOf(loans[j])
  }

  lemma HoldsIsKey(loans: seq<Loan>, l: Loan)
    ensures Holds(loans, l) <==> KeyOf(l) in Keys(loans)
  {
    if KeyOf(l) in Keys(loans) {
      var m :| m in loans && KeyOf(m) == KeyOf(l);
      var k :| 0 <= k < |loans| && loans[k] == m;
    }
  }

  /** The k-th loan is not held yet, and is the first with its key. */
  ghost predicate IsNew(held: seq<Loan>, loans: seq<Loan>, k: nat)
    requires k < |loans|
  {
    && (forall i :: 0 <= i < |held| ==> KeyOf(held[i]) != KeyOf(loans[k]))
    && (forall j :: 0 <= j < k ==> KeyOf(loans[j]) != KeyOf(loans[k]))
  }

  /** The new ones among the loans, at these positions, come after those that are held. */
  ghost predicate Appends(held: seq<Loan>, loans: seq<Loan>, all: seq<Loan>, at: seq<nat>) {
    && |all| == |held| + |at| && held <= all
    && (forall n :: 0 <= n < |at| ==> at[n] < |loans| && IsNew(held, loans, at[n]) && all[|held| + n] == loans[at[n]])
    && (forall m, n :: 0 <= m < n < |at| ==> at[m] < at[n])
    && (forall k :: 0 <= k < |loans| && IsNew(held, loans, k) ==> k in at)
  }

  ghost predicate Merges(held: seq<Loan>, loans: seq<Loan>, all: seq<Loan>) {
    exists at :: Appends(held, loans, all, at)
  }

  lemma AppendsNext(held: seq<Loan>, loans: seq<Loan>, all: seq<Loan>, at: seq<nat>, l: Loan)
    requires Appends(held, loans, all, at)
    ensures Holds(all, l) ==> Appends(held, loans + [l], all, at)
    ensures !Holds(all, l) ==> Appends(held, loans + [l], all + [l], at + [|loans|])
  {
    var longer := loans + [l];
    assert forall k :: 0 <= k < |loans| ==>
      longer[k] == loans[k] && (IsNew(held, longer, k) <==> IsNew(held, loans, k));
    HoldsIffNotNew(held, loans, all, at, l);
    hide IsNew, Holds;
    var at' := at + [|loans|];
    assert forall k :: k in at ==> k in at';
    assert at'[|at|] == |loans|;
  }

  lemma HoldsIffNotNew(held: seq<Loan>, loans: seq<Loan>, all: seq<Loan>, at: seq<nat>, l: Loan)
    requires Appends(held, loans, all, at)
    ensures Holds(all, l) <==> !IsNew(held, loans + [l], |loans|)
  {
    var longer := loans + [l];
    if k :| 0 <= k < |all| && KeyOf(all[k]) == KeyOf(l) {
      if k < |held| {
        assert KeyOf(held[k]) == KeyOf(longer[|loans|]);
      } else {
        assert all[|held| + (k - |held|)] == loans[at[k - |held|]] == longer[at[k - |held|]];
      }
    }
    if i :| 0 <= i < |held| && KeyOf(held[i]) == KeyOf(l) {
      assert all[i] == held[i];
    } else if j :| 0 <= j < |loans| && KeyOf(loans[j]) == KeyOf(l) {
      KeyIsHeld(held, loans, all, at, j);
    }
  }

  lemma {:induction false} KeyIsHeld(held: seq<Loan>, loans: seq<Loan>, all: seq<Loan>, at: seq<nat>, j: nat)
    requires Appends(held, loans, all, at) && j < |loans|
    ensures exists k :: 0 <= k < |all| && KeyOf(all[k]) == KeyOf(loans[j])
    decreases j
  {
    if i :| 0 <= i < |held| && KeyOf(held[i]) == KeyOf(loans[j]) {
      assert all[i] == held[i];
    } else if i :| 0 <= i < j && KeyOf(loans[i]) == KeyOf(loans[j]) {
      KeyIsHeld(held, loans, all, at, i);
    } else {
      assert IsNew(held, loans, j);
      var n :| 0 <= n < |at| && at[n] == j;
      assert all[|held| + n] == loans[j];
    }
  }

  /** Adds the loans of b that a does not hold yet, in their order. */
  method MergeLoans(a: seq<Loan>, b: seq<Loan>) returns (merged: seq<Loan>)
    ensures a <= merged && Keys(merged) == Keys(a) + Keys(b)
    ensures Distinct(a) ==> Distinct(merged)
    ensures forall l :: l in merged ==> l in a || l in b
    ensures Merges(a, b, merged)
  {
    merged := a;
    ghost var at: seq<nat> := [];
    var i := 0;
    while i < |b|
      invariant i <= |b| && a <= merged && Keys(merged) == Keys(a) + Keys(b[..i])
      invariant Distinct(a) ==> Distinct(merged)
      invariant forall l :: l in merged ==> l in a || l in b
      invariant Appends(a, b[..i], merged, at)
    {
      hide IsNew, Appends;
      HoldsIsKey(merged, b[i]);
      AppendsNext(a, b[..i], merged, at, b[i]);
      assert b[..i + 1] == b[..i] + [b[i]];
      assert Keys(b[..i + 1]) == Keys(b[..i]) + {KeyOf(b[i])};
      if !Holds(merged, b[i]) {
        assert Keys(merged + [b[i]]) == Keys(merged) + {KeyOf(b[i])};
        merged := merged + [b[i]];
        at := at + [i];
      }
      i := i + 1;
    }
    assert b[..i] == b;
  }

  lemma {:induction false} DistinctCounts(loans: seq<Loan>)
    requires Distinct(loans)
    ensures |Keys(loans)| == |loans|
    decreases |loans|
  {
    if loans != [] {
      var front, last := loans[..|loans| - 1], loans[|loans| - 1];
      DistinctCounts(front);
      assert KeyOf(last) !in Keys(front);
      assert loans == front + [last];
      assert Keys(loans) == Keys(front) + {KeyOf(last)};
    }
  }

  lemma SubsetOfEqualSize(a: set<Key>, b: set<Key>)
    requires a <= b && |a| == |b|
    ensures a == b
  {
    assert |b - a| == |b| - |a|;
    assert b == a + (b - a);
  }

  /** On lists without repetition, the test below is equality of the loan sets. */
  lemma SameKeys(a: seq<Loan>, b: seq<Loan>)
    requires Distinct(a) && Distinct(b)
    ensures |a| == |b| && Keys(a) <= Keys(b) <==> Keys(a) == Keys(b)
  {
    DistinctCounts(a);
    DistinctCounts(b);
    if |a| == |b| && Keys(a) <= Keys(b) {
      SubsetOfEqualSize(Keys(a), Keys(b));
    }
  }

  method LoansEqual(a: seq<Loan>, b: seq<Loan>) returns (same: bool)
    ensures same <==> |a| == |b| && Keys(a) <= Keys(b)
  {
    if |a| != |b| {
      return false;
    }
    var i := 0;
    while i < |a|
      invariant i <= |a| && forall k :: 0 <= k < i ==> KeyOf(a[k]) in Keys(b)
    {
      HoldsIsKey(b, a[i]);
      if !Holds(b, a[i]) {
        assert KeyOf(a[i]) in Keys(a);
        return false;
      }
      i := i + 1;
    }
    return true;
  }
}
