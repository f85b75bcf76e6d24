/** What instructions do to loans, as lists and as sets. */
module LoanTransfer {
  import opened Mir
  import opened Loans

  type Transfer = (MIRInst, seq<Loan>) -> seq<Loan>

  /** The loan list after the first n instructions of a block. */
  ghost function Through(f: Transfer, code: seq<MIRInst>, loans: seq<Loan>, n: nat): seq<Loan>
    requires n <= |code|
  {
    if n == 0 then loans else f(code[n - 1], Through(f, code, loans, n - 1))
  }

  /** What the iteration relies on: an instruction keeps lists free of repetition, and the loan
      set it leaves depends only on the loan set it finds. */
  ghost predicate Respects(f: Transfer, insts: set<MIRInst>) {
    && (forall i, a :: i in insts && Distinct(a) ==> Distinct(f(i, a)))
    && (forall i, a, b :: i in insts && Distinct(a) && Distinct(b) && Keys(a) == Keys(b) ==>
         Keys(f(i, a)) == Keys(f(i, b)))
  }

  ghost predicate Inside(code: seq<MIRInst>, insts: set<MIRInst>) {
    forall i :: i in code ==> i in insts
  }

  lemma {:induction false} ThroughRespects(f: Transfer, insts: set<MIRInst>, code: seq<MIRInst>, a: seq<Loan>,
                                           b: seq<Loan>, n: nat)
    requires Respects(f, insts) && Inside(code, insts) && Distinct(a) && Distinct(b) && Keys(a) == Keys(b)
    requires n <= |code|
    ensures Distinct(Through(f, code, a, n)) && Distinct(Through(f, code, b, n))
    ensures Keys(Through(f, code, a, n)) == Keys(Through(f, code, b, n))
  {
    if n > 0 {
      ThroughRespects(f, insts, code, a, b, n - 1);
    }
  }

  // ---------------------------------------------------------------- on loan sets

  ghost function Pick(keys: set<Key>): (k: Key)
    requires keys != {}
    ensures k in keys
  {
    var k :| k in keys;
    k
  }

  /** Some list of these loans. */
  ghost function ListOf(keys: set<Key>): (loans: seq<Loan>)
    ensures Distinct(loans) && Keys(loans) == keys
    decreases keys
  {
    if keys == {} then []
    else
      var k := Pick(keys);
      var rest := ListOf(keys - {k});
      var l := Loan(k.base, [], k.pointer, false);
      assert KeyOf(l) == k;
      ListAppend(rest, l);
      rest + [l]
  }

  lemma ListAppend(rest: seq<Loan>, l: Loan)
    requires Distinct(rest) && KeyOf(l) !in Keys(rest)
    ensures Distinct(rest + [l]) && Keys(rest + [l]) == Keys(rest) + {KeyOf(l)}
  {
    var all := rest + [l];
    forall i, j | 0 <= i < j < |all| ensures KeyOf(all[i]) != KeyOf(all[j]) {
      assert all[i] in rest;
    }
    forall k ensures k in Keys(all) <==> k in Keys(rest) + {KeyOf(l)} {
      if k in Keys(rest) {
        var m :| m in rest && KeyOf(m) == k;
        assert m in all;
      }
      assert l in all;
    }
  }

  /** The loan set after the first n instructions of a block that starts with these loans. */
  ghost function Effect(f: Transfer, code: seq<MIRInst>, keys: set<Key>, n: nat): set<Key>
    requires n <= |code|
  {
    Keys(Through(f, code, ListOf(keys), n))
  }

  /** However the loans are listed. */
  lemma EffectOfList(f: Transfer, insts: set<MIRInst>, code: seq<MIRInst>, loans: seq<Loan>, n: nat)
    requires Respects(f, insts) && Inside(code, insts) && Distinct(loans) && n <= |code|
    ensures Keys(Through(f, code, loans, n)) == Effect(f, code, Keys(loans), n)
  {
    ThroughRespects(f, insts, code, loans, ListOf(Keys(loans)), n);
  }

  /** Each instruction turns more loans into more loans, and stays inside a set of loans. */
  ghost predicate Monotone(f: Transfer, insts: set<MIRInst>, universe: set<Key>) {
    forall i, a, b :: i in insts && Distinct(a) && Distinct(b) && Keys(a) <= Keys(b) <= universe ==>
      Keys(f(i, a)) <= Keys(f(i, b)) <= universe
  }

  lemma StepIsMonotone(f: Transfer, insts: set<MIRInst>, universe: set<Key>, code: seq<MIRInst>, k: nat)
    requires Monotone(f, insts, universe) && Inside(code, insts) && k < |code|
    ensures forall a, b :: Distinct(a) && Distinct(b) && Keys(a) <= Keys(b) <= universe ==>
              Keys(f(code[k], a)) <= Keys(f(code[k], b)) <= universe
  {
    hide Distinct, Keys;
    assert code[k] in insts;
  }

  lemma {:induction false} ThroughIsMonotone(f: Transfer, insts: set<MIRInst>, universe: set<Key>, code: seq<MIRInst>,
                                             a: seq<Loan>, b: seq<Loan>, n: nat)
    requires Respects(f, insts) && Monotone(f, insts, universe) && Inside(code, insts)
    requires Distinct(a) && Distinct(b) && Keys(a) <= Keys(b) <= universe && n <= |code|
    ensures Keys(Through(f, code, a, n)) <= Keys(Through(f, code, b, n)) <= universe
  {
    hide Distinct, Keys, Respects, Inside, Monotone;
    if n > 0 {
      StepIsMonotone(f, insts, universe, code, n - 1);
      ThroughIsMonotone(f, insts, universe, code, a, b, n - 1);
      ThroughRespects(f, insts, code, a, a, n - 1);
      ThroughRespects(f, insts, code, b, b, n - 1);
    }
  }

  lemma EffectIsMonotone(f: Transfer, insts: set<MIRInst>, universe: set<Key>, code: seq<MIRInst>, s: set<Key>,
                         t: set<Key>, n: nat)
    requires Respects(f, insts) && Monotone(f, insts, universe) && Inside(code, insts)
    requires s <= t <= universe && n <= |code|
    ensures Effect(f, code, s, n) <= Effect(f, code, t, n) <= universe
  {
    ThroughIsMonotone(f, insts, universe, code, ListOf(s), ListOf(t), n);
  }
}
