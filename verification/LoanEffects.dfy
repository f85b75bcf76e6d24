/** What the instructions of a block do to the loans. Casts hand loans on; loads of move type
    count their place as moved out of. The branches for stores, closures and calls hang on the
    test that the instruction is a load of move type, so no instruction gets there. */
module LoanEffects {
  import opened Mir
  import opened Loans
  import opened LoanTransfer
  import TypeInterning

  // ---------------------------------------------------------------- types

  datatype TypeKind =
    | VoidKind | IntKind | FloatKind | BoolKind | StringKind | StructKind | UnionKind | ArrayKind | SliceKind
    | FunctionKind | PointerKind | ReferenceKind | NullableKind | DecimalKind | PromiseKind | ClosureKind | WeakKind
    | ViewKind | MutKind | LockKind | ConstKind | VolatileKind | NullKind | AnyKind | MapKind

  /** The type of a value: its ownership counts for pointers, what is inside for nullables. */
  datatype TypeInfo = NoType | Type(kind: TypeKind, own: TypeInterning.Ownership, inner: TypeKind)

  predicate IsPointerType(t: TypeInfo) {
    && t.Type?
    && t.kind !in {AnyKind, IntKind, FloatKind, DecimalKind, BoolKind}
    && t.kind !in {StringKind, SliceKind, ClosureKind, MapKind, PromiseKind, StructKind}
    && !(t.kind == NullableKind &&
         t.inner in {StringKind, SliceKind, ClosureKind, MapKind, PromiseKind, StructKind, AnyKind})
    && !(t.kind == PointerKind && (t.own == TypeInterning.Shared || t.own == TypeInterning.Owned))
    && (t.kind == PointerKind || t.kind == ReferenceKind)
  }

  predicate IsMoveType(t: TypeInfo, isBorrow: bool) {
    t.Type? && !isBorrow && (t.kind == PromiseKind || (t.kind == PointerKind && t.own == TypeInterning.Owned))
  }

  predicate IsAggregate(t: TypeInfo, isBorrow: bool) {
    && t.Type? && !isBorrow
    && t.kind !in {IntKind, FloatKind, DecimalKind, BoolKind, PointerKind, ReferenceKind, FunctionKind}
  }

  lemma MoveTypesAreNoPointers(t: TypeInfo, isBorrow: bool)
    ensures !(IsMoveType(t, isBorrow) && IsPointerType(t))
  {
  }

  // ---------------------------------------------------------------- what is known of the function

  /** The address of null. */
  const NULL: nat := 0

  datatype Place = Place(base: nat, projections: seq<nat>)

  /** What the checker asks about values: their addresses, the types of loads and whether a load
      is a borrow, whether what consumes a load makes it no move, where a pointer leads, which
      bases are allocas, which loans the sweep after a load takes out, and mutability. */
  datatype Facts = Facts(
    number: Value -> nat,
    typeOf: MIRInst -> TypeInfo,
    isBorrow: MIRInst -> bool,
    isOnlyRead: MIRInst -> bool,
    places: nat -> seq<Place>,
    isAlloca: nat -> bool,
    sweeps: (Key, MIRInst) -> bool,
    isExclusive: MIRInst -> bool)
  {
    function Address(v: Value): nat {
      if v.NullValue? then NULL else 1 + number(v)
    }

    /** Null leads nowhere. */
    function PlacesOf(pointer: nat): seq<Place> {
      if pointer == NULL then [] else places(pointer)
    }

    /** A place that a load can move out of. */
    predicate Movable(p: Place) {
      p.base != NULL && isAlloca(p.base)
    }

    /** Some place of the pointer encloses a place that the loan is held through. */
    predicate Inherits(pointer: nat, k: Key) {
      || k.pointer == pointer
      || exists p, a :: p in PlacesOf(pointer) && a in PlacesOf(k.pointer) && p.base != NULL && p.base == a.base
           && p.projections <= a.projections
    }

    /** Loans held by no pointer stay. */
    predicate Ends(inst: MIRInst, k: Key) {
      k.pointer != NULL && sweeps(k, inst)
    }
  }

  // ---------------------------------------------------------------- on lists

  function Added(loans: seq<Loan>, l: Loan): seq<Loan> {
    if Holds(loans, l) then loans else loans + [l]
  }

  /** The first n loans that qualify are held by one more pointer. */
  function Inherited(loans: seq<Loan>, n: nat, qualifies: Key -> bool, pointer: nat): seq<Loan>
    requires n <= |loans|
  {
    if n == 0 then loans
    else
      var before, l := Inherited(loans, n - 1, qualifies, pointer), loans[n - 1];
      if qualifies(KeyOf(l)) then Added(before, Loan(l.base, l.projections, pointer, l.isMut)) else before
  }

  /** Loans of those places that qualify are added. */
  function Borrowing(loans: seq<Loan>, places: seq<Place>, qualifies: Place -> bool, pointer: nat,
                     isMut: bool): seq<Loan>
    decreases |places|
  {
    if places == [] then loans
    else
      var before, p := Borrowing(loans, places[..|places| - 1], qualifies, pointer, isMut), places[|places| - 1];
      if qualifies(p) then Added(before, Loan(p.base, p.projections, pointer, isMut)) else before
  }

  function Remaining(loans: seq<Loan>, ends: Key -> bool): seq<Loan>
    decreases |loans|
  {
    if loans == [] then []
    else
      var before, l := Remaining(loans[..|loans| - 1], ends), loans[|loans| - 1];
      if ends(KeyOf(l)) then before else before + [l]
  }

  function MoveLoans(facts: Facts, inst: MIRInst, loans: seq<Loan>): seq<Loan>
    requires inst.kind.Load?
  {
    if facts.isOnlyRead(inst) then loans
    else Borrowing(loans, facts.PlacesOf(facts.Address(inst.kind.loadPtr)), p => facts.Movable(p), NULL, true)
  }

  /** The part of the load branch that comes next: loans are inherited, and new ones made for a
      pointer, which a load of move type is not. */
  function Extracted(facts: Facts, inst: MIRInst, loans: seq<Loan>): seq<Loan>
    requires inst.kind.Load?
  {
    var t := facts.typeOf(inst);
    if !IsPointerType(t) && !IsAggregate(t, facts.isBorrow(inst)) then loans
    else
      var pointer, load := facts.Address(inst.kind.loadPtr), facts.Address(InstValue(inst));
      var inherited := Inherited(loans, |loans|, k => facts.Inherits(pointer, k), load);
      if !IsPointerType(t) then inherited
      else Borrowing(inherited, facts.PlacesOf(pointer), (p: Place) => p.base != NULL, load, facts.isExclusive(inst))
  }

  function Loaded(facts: Facts, inst: MIRInst, loans: seq<Loan>): seq<Loan>
    requires inst.kind.Load?
  {
    if !IsMoveType(facts.typeOf(inst), facts.isBorrow(inst)) then loans
    else Extracted(facts, inst, MoveLoans(facts, inst, loans))
  }

  function Step(facts: Facts, inst: MIRInst, loans: seq<Loan>): seq<Loan> {
    match inst.kind
    case Cast(v) => Inherited(loans, |loans|, (k: Key) => k.pointer == facts.Address(v), facts.Address(InstValue(inst)))
    case Load(_) => Remaining(Loaded(facts, inst, loans), k => facts.Ends(inst, k))
    case _ => loans
  }

  function Own(facts: Facts): Transfer {
    (inst: MIRInst, loans: seq<Loan>) => Step(facts, inst, loans)
  }

  // ---------------------------------------------------------------- on loan sets

  ghost function StepKeys(facts: Facts, inst: MIRInst, keys: set<Key>): set<Key> {
    match inst.kind
    case Cast(v) =>
      keys + set k | k in keys && k.pointer == facts.Address(v) :: Key(k.base, facts.Address(InstValue(inst)))
    case Load(_) => set k | k in LoadedKeys(facts, inst, keys) && !facts.Ends(inst, k)
    case _ => keys
  }

  ghost function LoadedKeys(facts: Facts, inst: MIRInst, keys: set<Key>): set<Key>
    requires inst.kind.Load?
  {
    if !IsMoveType(facts.typeOf(inst), facts.isBorrow(inst)) then keys
    else ExtractedKeys(facts, inst, keys + MovedKeys(facts, inst))
  }

  /** The loans that a load makes by moving out of a place. */
  ghost function MovedKeys(facts: Facts, inst: MIRInst): set<Key> {
    if inst.kind.Load? && IsMoveType(facts.typeOf(inst), facts.isBorrow(inst)) && !facts.isOnlyRead(inst) then
      set p | p in facts.PlacesOf(facts.Address(inst.kind.loadPtr)) && facts.Movable(p) :: Key(p.base, NULL)
    else {}
  }

  ghost function ExtractedKeys(facts: Facts, inst: MIRInst, keys: set<Key>): set<Key>
    requires inst.kind.Load?
  {
    if !IsAggregate(facts.typeOf(inst), facts.isBorrow(inst)) then keys
    else
      var pointer, load := facts.Address(inst.kind.loadPtr), facts.Address(InstValue(inst));
      keys + set k | k in keys && facts.Inherits(pointer, k) :: Key(k.base, load)
  }

  lemma AddedKeys(loans: seq<Loan>, l: Loan)
    ensures Keys(Added(loans, l)) == Keys(loans) + {KeyOf(l)}
    ensures Distinct(loans) ==> Distinct(Added(loans, l))
  {
    HoldsIsKey(loans, l);
    if Holds(loans, l) {
    } else {
      hide Holds;
      if Distinct(loans) {
        ListAppend(loans, l);
      }
      assert forall m :: m in loans + [l] <==> m in loans || m == l;
    }
  }

  lemma {:induction false} InheritedKeys(loans: seq<Loan>, n: nat, qualifies: Key -> bool, pointer: nat)
    requires n <= |loans|
    ensures Distinct(loans) ==> Distinct(Inherited(loans, n, qualifies, pointer))
    ensures Keys(Inherited(loans, n, qualifies, pointer)) ==
      Keys(loans) + set i | 0 <= i < n && qualifies(KeyOf(loans[i])) :: Key(loans[i].base, pointer)
  {
    if n > 0 {
      InheritedKeys(loans, n - 1, qualifies, pointer);
      var l := loans[n - 1];
      AddedKeys(Inherited(loans, n - 1, qualifies, pointer), Loan(l.base, l.projections, pointer, l.isMut));
    }
  }

  lemma AllInheritedKeys(loans: seq<Loan>, qualifies: Key -> bool, pointer: nat)
    ensures Distinct(loans) ==> Distinct(Inherited(loans, |loans|, qualifies, pointer))
    ensures Keys(Inherited(loans, |loans|, qualifies, pointer)) ==
      Keys(loans) + set k | k in Keys(loans) && qualifies(k) :: Key(k.base, pointer)
  {
    InheritedKeys(loans, |loans|, qualifies, pointer);
    hide Distinct, Inherited;
    var all := set i | 0 <= i < |loans| && qualifies(KeyOf(loans[i])) :: Key(loans[i].base, pointer);
    var heirs := set k | k in Keys(loans) && qualifies(k) :: Key(k.base, pointer);
    forall h | h in heirs ensures h in all {
      var k :| k in Keys(loans) && qualifies(k) && h == Key(k.base, pointer);
      var l :| l in loans && KeyOf(l) == k;
      var i :| 0 <= i < |loans| && loans[i] == l;
    }
    forall h | h in all ensures h in heirs {
      var i :| 0 <= i < |loans| && qualifies(KeyOf(loans[i])) && h == Key(loans[i].base, pointer);
      assert KeyOf(loans[i]) in Keys(loans);
    }
  }

  lemma {:induction false} BorrowingKeys(loans: seq<Loan>, places: seq<Place>, qualifies: Place -> bool, pointer: nat,
                                         isMut: bool)
    ensures Distinct(loans) ==> Distinct(Borrowing(loans, places, qualifies, pointer, isMut))
    ensures Keys(Borrowing(loans, places, qualifies, pointer, isMut)) ==
      Keys(loans) + set p | p in places && qualifies(p) :: Key(p.base, pointer)
    decreases |places|
  {
    if places != [] {
      var front, p := places[..|places| - 1], places[|places| - 1];
      BorrowingKeys(loans, front, qualifies, pointer, isMut);
      AddedKeys(Borrowing(loans, front, qualifies, pointer, isMut), Loan(p.base, p.projections, pointer, isMut));
      hide Distinct, Keys, Added;
      assert places == front + [p];
    }
  }

  lemma KeysOneMore(loans: seq<Loan>, l: Loan)
    ensures Keys(loans + [l]) == Keys(loans) + {KeyOf(l)}
  {
    assert forall m :: m in loans + [l] <==> m in loans || m == l;
  }

  lemma DistinctFront(loans: seq<Loan>)
    requires loans != [] && Distinct(loans)
    ensures Distinct(loans[..|loans| - 1]) && KeyOf(loans[|loans| - 1]) !in Keys(loans[..|loans| - 1])
  {
  }

  lemma {:induction false} RemainingKeys(loans: seq<Loan>, ends: Key -> bool)
    ensures Distinct(loans) ==> Distinct(Remaining(loans, ends))
    ensures Keys(Remaining(loans, ends)) == set k | k in Keys(loans) && !ends(k)
    decreases |loans|
  {
    hide Keys, Distinct;
    if loans == [] {
      assert Keys([]) == {} by { NoKeys(); }
    } else {
      var front, l := loans[..|loans| - 1], loans[|loans| - 1];
      RemainingKeys(front, ends);
      assert loans == front + [l];
      KeysOneMore(front, l);
      KeysOneMore(Remaining(front, ends), l);
      if Distinct(loans) {
        DistinctFront(loans);
        if !ends(KeyOf(l)) {
          ListAppend(Remaining(front, ends), l);
        }
      }
    }
  }

  lemma NoKeys()
    ensures Keys([]) == {}
  {
  }

  lemma MoveLoansKeys(facts: Facts, inst: MIRInst, loans: seq<Loan>)
    requires inst.kind.Load? && IsMoveType(facts.typeOf(inst), facts.isBorrow(inst))
    ensures Keys(MoveLoans(facts, inst, loans)) == Keys(loans) + MovedKeys(facts, inst)
    ensures Distinct(loans) ==> Distinct(MoveLoans(facts, inst, loans))
  {
    hide Keys, Distinct, Borrowing, IsMoveType;
    if !facts.isOnlyRead(inst) {
      BorrowingKeys(loans, facts.PlacesOf(facts.Address(inst.kind.loadPtr)), p => facts.Movable(p), NULL, true);
    }
  }

  lemma ExtractedIs(facts: Facts, inst: MIRInst, loans: seq<Loan>)
    requires inst.kind.Load? && IsMoveType(facts.typeOf(inst), facts.isBorrow(inst))
    ensures Keys(Extracted(facts, inst, loans)) == ExtractedKeys(facts, inst, Keys(loans))
    ensures Distinct(loans) ==> Distinct(Extracted(facts, inst, loans))
  {
    MoveTypesAreNoPointers(facts.typeOf(inst), facts.isBorrow(inst));
    hide Keys, Distinct, Inherited, IsMoveType, IsPointerType, IsAggregate;
    if IsAggregate(facts.typeOf(inst), facts.isBorrow(inst)) {
      var pointer, load := facts.Address(inst.kind.loadPtr), facts.Address(InstValue(inst));
      AllInheritedKeys(loans, k => facts.Inherits(pointer, k), load);
    }
  }

  lemma LoadedIs(facts: Facts, inst: MIRInst, loans: seq<Loan>)
    requires inst.kind.Load?
    ensures Keys(Loaded(facts, inst, loans)) == LoadedKeys(facts, inst, Keys(loans))
    ensures Distinct(loans) ==> Distinct(Loaded(facts, inst, loans))
  {
    hide Keys, Distinct, IsMoveType, ExtractedKeys, MovedKeys, MoveLoans, Extracted;
    if IsMoveType(facts.typeOf(inst), facts.isBorrow(inst)) {
      MoveLoansKeys(facts, inst, loans);
      ExtractedIs(facts, inst, MoveLoans(facts, inst, loans));
    }
  }

  /** What an instruction does to a list of loans it does to their set. */
  lemma StepIs(facts: Facts, inst: MIRInst, loans: seq<Loan>)
    ensures Keys(Step(facts, inst, loans)) == StepKeys(facts, inst, Keys(loans))
    ensures Distinct(loans) ==> Distinct(Step(facts, inst, loans))
  {
    hide Keys, Distinct, Inherited, Remaining, Loaded, LoadedKeys;
    match inst.kind
    case Cast(v) =>
      AllInheritedKeys(loans, (k: Key) => k.pointer == facts.Address(v), facts.Address(InstValue(inst)));
    case Load(_) =>
      LoadedIs(facts, inst, loans);
      RemainingKeys(Loaded(facts, inst, loans), k => facts.Ends(inst, k));
    case _ =>
  }

  /** The effects keep lists free of repetition and depend only on the loan set. */
  lemma OwnRespects(facts: Facts, insts: set<MIRInst>)
    ensures Respects(Own(facts), insts)
  {
    hide Keys, Distinct, Step, StepKeys;
    forall i, a | i in insts && Distinct(a) ensures Distinct(Own(facts)(i, a)) {
      StepIs(facts, i, a);
    }
    forall i, a, b | i in insts && Distinct(a) && Distinct(b) && Keys(a) == Keys(b)
      ensures Keys(Own(facts)(i, a)) == Keys(Own(facts)(i, b))
    {
      StepIs(facts, i, a);
      StepIs(facts, i, b);
    }
  }

  // ---------------------------------------------------------------- more loans into more

  lemma StepKeysGrow(facts: Facts, inst: MIRInst, s: set<Key>, t: set<Key>)
    requires s <= t
    ensures StepKeys(facts, inst, s) <= StepKeys(facts, inst, t)
  {
  }

  /** The places that loads move out of, and the pointers that can hold a loan. */
  ghost function Bases(facts: Facts, insts: set<MIRInst>): set<nat> {
    set i, k | i in insts && k in MovedKeys(facts, i) :: k.base
  }

  ghost function Holders(facts: Facts, insts: set<MIRInst>): set<nat> {
    {NULL} + set i | i in insts :: facts.Address(InstValue(i))
  }

  ghost function Universe(facts: Facts, insts: set<MIRInst>): set<Key> {
    set b, q | b in Bases(facts, insts) && q in Holders(facts, insts) :: Key(b, q)
  }

  lemma MovedInUniverse(facts: Facts, insts: set<MIRInst>, inst: MIRInst)
    requires inst in insts
    ensures forall k :: k in MovedKeys(facts, inst) ==> k.pointer == NULL && k in Universe(facts, insts)
  {
    forall k | k in MovedKeys(facts, inst) ensures k.pointer == NULL && k in Universe(facts, insts) {
      assert k.base in Bases(facts, insts);
    }
  }

  lemma StepStaysInside(facts: Facts, insts: set<MIRInst>, inst: MIRInst, keys: set<Key>)
    requires inst in insts && keys <= Universe(facts, insts)
    ensures StepKeys(facts, inst, keys) <= Universe(facts, insts)
  {
    MovedInUniverse(facts, insts, inst);
    hide MovedKeys, Bases, IsMoveType, IsAggregate;
  }

  /** The effects turn more loans into more, within the loans of the function. */
  lemma OwnIsMonotone(facts: Facts, insts: set<MIRInst>)
    ensures Monotone(Own(facts), insts, Universe(facts, insts))
  {
    hide Keys, Distinct, Step, StepKeys, Universe;
    forall i, a, b | i in insts && Distinct(a) && Distinct(b) && Keys(a) <= Keys(b) <= Universe(facts, insts)
      ensures Keys(Own(facts)(i, a)) <= Keys(Own(facts)(i, b)) <= Universe(facts, insts)
    {
      StepIs(facts, i, a);
      StepIs(facts, i, b);
      StepKeysGrow(facts, i, Keys(a), Keys(b));
      StepStaysInside(facts, insts, i, Keys(b));
    }
  }

  // ---------------------------------------------------------------- nothing ends a loan

  predicate HasOperand(inst: MIRInst) {
    && (inst.kind.Cast? ==> !inst.kind.casted.NullValue?)
    && (inst.kind.Load? ==> !inst.kind.loadPtr.NullValue?)
  }

  ghost predicate HeldByNone(keys: set<Key>) {
    forall k :: k in keys ==> k.pointer == NULL
  }

  /** Loans start as moves, which no pointer holds. A cast or load hands on only what its operand
      holds, and the sweep spares what none holds, so all an instruction does is add moves. */
  lemma StepOnlyMoves(facts: Facts, inst: MIRInst, keys: set<Key>)
    requires HasOperand(inst) && HeldByNone(keys)
    ensures StepKeys(facts, inst, keys) == keys + MovedKeys(facts, inst)
    ensures HeldByNone(StepKeys(facts, inst, keys))
  {
    MovedInUniverse(facts, {inst}, inst);
    hide MovedKeys, IsMoveType, IsAggregate;
  }
}
