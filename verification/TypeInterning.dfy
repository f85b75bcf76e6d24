/** The types of the high-level IR are allocated once for each structure. */
module TypeInterning {

  /** Types are known by their address: the position at which they were allocated. */
  type Address = nat

  datatype SimpleKind = Void | Bool | String | Null | Any

  datatype WrapperKind = Slice | Nullable | Promise | Weak | View | Mut | Lock | Const | Volatile

  /** What a getter is asked for. */
  datatype Shape =
    | Simple(simple: SimpleKind)
    | Int(width: nat, isSigned: bool, isPtrWidth: bool)
    | Float(floatWidth: nat)
    | Decimal(precision: nat, scale: nat)
    | Array(element: Address, size: nat)
    | Wrapper(wrapper: WrapperKind, inner: Address)
    | Map(key: Address, value: Address)
    | Struct(structName: string, isRefClass: bool)
    | Union(unionName: string)
    | Function(ret: Address, params: seq<Address>, isVariadic: bool, isInterrupt: bool)
    | Closure(closureRet: Address, closureParams: seq<Address>)

  /** The part of a struct or union that is stored but not compared. */
  datatype Body = NoBody | Body(fields: seq<Address>, fieldNames: seq<string>, isPacked: bool)

  datatype HIRType = HIRType(shape: Shape, body: Body)

  // ---------------------------------------------------------------- keys

  /** Position in the enumeration of type kinds. */
  function KindNumber(s: Shape): nat {
    match s
    case Simple(Void) => 0
    case Int(_, _, _) => 1
    case Float(_) => 2
    case Simple(Bool) => 3
    case Simple(String) => 4
    case Struct(_, _) => 5
    case Union(_) => 6
    case Array(_, _) => 7
    case Wrapper(Slice, _) => 8
    case Function(_, _, _, _) => 9
    case Wrapper(Nullable, _) => 12
    case Decimal(_, _) => 13
    case Wrapper(Promise, _) => 14
    case Closure(_, _) => 15
    case Wrapper(Weak, _) => 16
    case Wrapper(View, _) => 17
    case Wrapper(Mut, _) => 18
    case Wrapper(Lock, _) => 19
    case Wrapper(Const, _) => 20
    case Wrapper(Volatile, _) => 21
    case Simple(Null) => 22
    case Simple(Any) => 23
    case Map(_, _) => 24
  }

  /** Addresses and 64-bit sizes take two words of a key. */
  function TwoWords(n: nat): seq<nat> {
    [n % 0x1_0000_0000, n / 0x1_0000_0000]
  }

  function Flag(b: bool): nat {
    if b then 1 else 0
  }

  function Addresses(s: seq<Address>): seq<nat> {
    if s == [] then [] else Addresses(s[..|s| - 1]) + TwoWords(s[|s| - 1])
  }

  function Characters(s: string): seq<nat> {
    [|s|] + seq(|s|, i requires 0 <= i < |s| => s[i] as nat)
  }

  function Details(s: Shape): seq<nat> {
    match s
    case Simple(_) => []
    case Int(width, isSigned, isPtrWidth) => [width, Flag(isSigned), Flag(isPtrWidth)]
    case Float(width) => [width]
    case Decimal(precision, scale) => [precision, scale]
    case Array(element, size) => TwoWords(element) + TwoWords(size)
    case Wrapper(_, inner) => TwoWords(inner)
    case Map(key, value) => TwoWords(key) + TwoWords(value)
    case Struct(name, isRefClass) => Characters(name) + [Flag(isRefClass)]
    case Union(name) => Characters(name)
    case Function(ret, params, isVariadic, isInterrupt) =>
      TwoWords(ret) + Addresses(params) + [Flag(isVariadic), Flag(isInterrupt)]
    case Closure(ret, params) => TwoWords(ret) + Addresses(params)
  }

  /** The words that are looked up, which are also the words by which a stored type presents
      itself. */
  function KeyOf(s: Shape): seq<nat> {
    [KindNumber(s)] + Details(s)
  }

  lemma TwoWordsDetermine(m: nat, n: nat)
    requires TwoWords(m) == TwoWords(n)
    ensures m == n
  {
    assert TwoWords(m)[0] == TwoWords(n)[0] && TwoWords(m)[1] == TwoWords(n)[1];
  }

  lemma {:induction false} AddressesDetermine(s: seq<Address>, t: seq<Address>)
    requires Addresses(s) == Addresses(t)
    ensures s == t
    decreases |s|
  {
    AddressesCount(s);
    AddressesCount(t);
    if s != [] {
      var m := |s| - 1;
      AddressesCount(s[..m]);
      AddressesCount(t[..m]);
      assert Addresses(s)[..2 * m] == Addresses(s[..m]) && Addresses(t)[..2 * m] == Addresses(t[..m]);
      assert Addresses(s)[2 * m..] == TwoWords(s[m]) && Addresses(t)[2 * m..] == TwoWords(t[m]);
      TwoWordsDetermine(s[m], t[m]);
      AddressesDetermine(s[..m], t[..m]);
      assert s == s[..m] + [s[m]] && t == t[..m] + [t[m]];
    }
  }

  lemma {:induction false} AddressesCount(s: seq<Address>)
    ensures |Addresses(s)| == 2 * |s|
    decreases |s|
  {
    if s != [] {
      AddressesCount(s[..|s| - 1]);
    }
  }

  lemma CharactersDetermine(s: string, t: string)
    requires |Characters(s)| <= |Characters(t)| && Characters(t)[..|Characters(s)|] == Characters(s)
    ensures s == t
  {
    var p := Characters(t)[..|Characters(s)|];
    assert p[0] == |t| && Characters(s)[0] == |s|;
    forall i | 0 <= i < |s|
      ensures s[i] == t[i]
    {
      assert p[i + 1] == t[i] as nat && Characters(s)[i + 1] == s[i] as nat;
    }
  }

  lemma ListDetermines(ret: Address, params: seq<Address>, ret': Address, params': seq<Address>, tail: seq<nat>,
                       tail': seq<nat>)
    requires TwoWords(ret) + Addresses(params) + tail == TwoWords(ret') + Addresses(params') + tail'
    requires |tail| == |tail'|
    ensures ret == ret' && params == params' && tail == tail'
  {
    AddressesCount(params);
    AddressesCount(params');
    var a, b := TwoWords(ret) + Addresses(params) + tail, TwoWords(ret') + Addresses(params') + tail';
    var n := 2 + 2 * |params|;
    assert |a| == n + |tail| && |b| == 2 + 2 * |params'| + |tail'|;
    assert a[..2] == TwoWords(ret) && b[..2] == TwoWords(ret');
    assert a[2..n] == Addresses(params) && b[2..n] == Addresses(params');
    assert a[n..] == tail && b[n..] == tail';
    TwoWordsDetermine(ret, ret');
    AddressesDetermine(params, params');
  }

  lemma PairDetermines(m: nat, n: nat, m': nat, n': nat)
    requires TwoWords(m) + TwoWords(n) == TwoWords(m') + TwoWords(n')
    ensures m == m' && n == n'
  {
    assert (TwoWords(m) + TwoWords(n))[..2] == TwoWords(m) && (TwoWords(m') + TwoWords(n'))[..2] == TwoWords(m');
    assert (TwoWords(m) + TwoWords(n))[2..] == TwoWords(n) && (TwoWords(m') + TwoWords(n'))[2..] == TwoWords(n');
    TwoWordsDetermine(m, m');
    TwoWordsDetermine(n, n');
  }

  /** No two shapes share a key, although a key is a flat list of words without separators. */
  lemma KeyDetermines(s: Shape, t: Shape)
    requires KeyOf(s) == KeyOf(t)
    ensures s == t
  {
    hide TwoWords, Addresses, Characters;
    assert KeyOf(s)[0] == KeyOf(t)[0] && KeyOf(s)[1..] == KeyOf(t)[1..];
    assert KindNumber(s) == KindNumber(t) && Details(s) == Details(t);
    match s
    case Simple(_) =>
    case Int(_, _, _) =>
      assert Details(s)[0] == Details(t)[0] && Details(s)[1] == Details(t)[1] && Details(s)[2] == Details(t)[2];
    case Float(_) =>
      assert Details(s)[0] == Details(t)[0];
    case Decimal(_, _) =>
      assert Details(s)[0] == Details(t)[0] && Details(s)[1] == Details(t)[1];
    case Array(_, _) =>
      PairDetermines(s.element, s.size, t.element, t.size);
    case Wrapper(_, _) =>
      TwoWordsDetermine(s.inner, t.inner);
    case Map(_, _) =>
      PairDetermines(s.key, s.value, t.key, t.value);
    case Struct(_, _) =>
      NameAndFlagDetermine(s.structName, s.isRefClass, t.structName, t.isRefClass);
    case Union(_) =>
      CharactersDetermine(s.unionName, t.unionName);
    case Function(_, _, _, _) =>
      ListDetermines(s.ret, s.params, t.ret, t.params, [Flag(s.isVariadic), Flag(s.isInterrupt)],
        [Flag(t.isVariadic), Flag(t.isInterrupt)]);
    case Closure(_, _) =>
      assert TwoWords(s.closureRet) + Addresses(s.closureParams) + [] ==
        TwoWords(t.closureRet) + Addresses(t.closureParams) + [];
      ListDetermines(s.closureRet, s.closureParams, t.closureRet, t.closureParams, [], []);
  }

  lemma NameAndFlagDetermine(name: string, flag: bool, name': string, flag': bool)
    requires Characters(name) + [Flag(flag)] == Characters(name') + [Flag(flag')]
    ensures name == name' && flag == flag'
  {
    var a, b := Characters(name) + [Flag(flag)], Characters(name') + [Flag(flag')];
    assert |a| == |b|;
    assert a[..|a| - 1] == Characters(name) && b[..|b| - 1] == Characters(name');
    assert a[|a| - 1] == Flag(flag) && b[|b| - 1] == Flag(flag');
    CharactersDetermine(name, name');
  }

  // ---------------------------------------------------------------- structure

  function Parts(s: Shape): seq<Address> {
    match s
    case Array(element, _) => [element]
    case Wrapper(_, inner) => [inner]
    case Map(key, value) => [key, value]
    case Function(ret, params, _, _) => [ret] + params
    case Closure(ret, params) => [ret] + params
    case _ => []
  }

  /** A shape without its parts. */
  function Label(s: Shape): Shape {
    match s
    case Array(_, size) => Array(0, size)
    case Wrapper(wrapper, _) => Wrapper(wrapper, 0)
    case Map(_, _) => Map(0, 0)
    case Function(_, _, isVariadic, isInterrupt) => Function(0, [], isVariadic, isInterrupt)
    case Closure(_, _) => Closure(0, [])
    case _ => s
  }

  lemma LabelAndPartsDetermine(s: Shape, t: Shape)
    requires Label(s) == Label(t) && Parts(s) == Parts(t)
    ensures s == t
  {
    assert |Parts(s)| > 0 ==> Parts(s)[0] == Parts(t)[0];
    assert |Parts(s)| > 1 ==> Parts(s)[1] == Parts(t)[1] && Parts(s)[1..] == Parts(t)[1..];
    match s
    case Function(ret, params, _, _) =>
      assert Parts(s)[1..] == params && Parts(t)[1..] == t.params;
    case Closure(ret, params) =>
      assert Parts(s)[1..] == params && Parts(t)[1..] == t.closureParams;
    case _ =>
  }

  /** The full structure of a type; structs and unions stand for themselves by name. */
  datatype Tree = Tree(top: Shape, parts: seq<Tree>)

  /** Parts are allocated before the types that use them. */
  ghost predicate Grounded(types: seq<HIRType>) {
    forall a, k :: 0 <= a < |types| && 0 <= k < |Parts(types[a].shape)| ==> Parts(types[a].shape)[k] < a
  }

  ghost function TreeOf(types: seq<HIRType>, a: Address): Tree
    requires Grounded(types) && a < |types|
    decreases a
  {
    var parts := Parts(types[a].shape);
    Tree(Label(types[a].shape), seq(|parts|, k requires 0 <= k < |parts| => TreeOf(types, parts[k])))
  }

  ghost predicate Interned(types: seq<HIRType>) {
    && Grounded(types)
    && (forall a, b :: 0 <= a < b < |types| ==> types[a].shape != types[b].shape)
  }

  lemma {:induction false} SameTreeSameAddress(types: seq<HIRType>, a: Address, b: Address)
    requires Interned(types) && a < |types| && b < |types| && TreeOf(types, a) == TreeOf(types, b)
    ensures a == b
    decreases a
  {
    var p, q := Parts(types[a].shape), Parts(types[b].shape);
    var s, t := TreeOf(types, a).parts, TreeOf(types, b).parts;
    assert |p| == |s| && |q| == |t|;
    forall k | 0 <= k < |p|
      ensures p[k] == q[k]
    {
      assert s[k] == TreeOf(types, p[k]) && t[k] == TreeOf(types, q[k]);
      SameTreeSameAddress(types, p[k], q[k]);
    }
    LabelAndPartsDetermine(types[a].shape, types[b].shape);
  }

  /** Later allocations do not change the structure of a type. */
  lemma {:induction false} TreesPersist(types: seq<HIRType>, types': seq<HIRType>, a: Address)
    requires Grounded(types) && Grounded(types') && types <= types' && a < |types|
    ensures TreeOf(types', a) == TreeOf(types, a)
    decreases a
  {
    var p := Parts(types[a].shape);
    assert types'[a] == types[a];
    forall k | 0 <= k < |p|
      ensures TreeOf(types', p[k]) == TreeOf(types, p[k])
    {
      TreesPersist(types, types', p[k]);
    }
    assert TreeOf(types', a).parts == TreeOf(types, a).parts;
  }

  /** Of two types returned at any two moments, the second one no earlier than the first: they
      are the same object exactly if their full structures are equal. */
  lemma SameObjectIffSameStructure(types: seq<HIRType>, a: Address, types': seq<HIRType>, b: Address)
    requires Interned(types) && Interned(types') && types <= types' && a < |types| && b < |types'|
    ensures a == b <==> TreeOf(types, a) == TreeOf(types', b)
  {
    TreesPersist(types, types', a);
    if TreeOf(types, a) == TreeOf(types', b) {
      SameTreeSameAddress(types', a, b);
    }
  }

  lemma Allocated(types: seq<HIRType>, shape: Shape, body: Body)
    requires Interned(types) && (forall p :: p in Parts(shape) ==> p < |types|)
    requires forall b :: 0 <= b < |types| ==> KeyOf(types[b].shape) != KeyOf(shape)
    ensures Interned(types + [HIRType(shape, body)])
    ensures !exists t :: t in types && t.shape == shape
  {
    hide Parts, KeyOf;
    var longer := types + [HIRType(shape, body)];
    forall a, k | 0 <= a < |longer| && 0 <= k < |Parts(longer[a].shape)|
      ensures Parts(longer[a].shape)[k] < a
    {
      assert Parts(longer[a].shape)[k] in Parts(longer[a].shape);
    }
  }

  // ---------------------------------------------------------------- pointers

  datatype Ownership = NoOwnership | Owned | Borrowed | Shared

  datatype BorrowState = NoBorrow | ViewBorrow | MutBorrow | LockBorrow

  datatype PointerType = PointerType(pointee: Address, own: Ownership, state: BorrowState)

  function OwnershipNumber(o: Ownership): nat {
    match o case NoOwnership => 0 case Owned => 1 case Borrowed => 2 case Shared => 3
  }

  function BorrowNumber(b: BorrowState): nat {
    match b case NoBorrow => 0 case ViewBorrow => 1 case MutBorrow => 2 case LockBorrow => 3
  }

  const POINTER_KIND: nat := 10

  /** The words that are looked up ... */
  function PointerLookup(p: PointerType): seq<nat> {
    [POINTER_KIND] + TwoWords(p.pointee) + [OwnershipNumber(p.own), BorrowNumber(p.state)]
  }

  /** ... and those by which a stored pointer type presents itself. */
  function PointerProfile(p: PointerType): seq<nat> {
    [POINTER_KIND] + TwoWords(p.pointee) + [BorrowNumber(p.state), OwnershipNumber(p.own)]
  }

  predicate Meets(request: PointerType, stored: PointerType) {
    PointerLookup(request) == PointerProfile(stored)
  }

  /** Ownership and borrow state have the same number. */
  predicate Balanced(p: PointerType) {
    OwnershipNumber(p.own) == BorrowNumber(p.state)
  }

  function Mirrored(p: PointerType): PointerType {
    PointerType(p.pointee,
      match p.state
      case NoBorrow => NoOwnership case ViewBorrow => Owned case MutBorrow => Borrowed case LockBorrow => Shared,
      match p.own
      case NoOwnership => NoBorrow case Owned => ViewBorrow case Borrowed => MutBorrow case Shared => LockBorrow)
  }

  /** A request finds the type with the numbers of ownership and borrow state exchanged. */
  lemma MeetsMirrored(request: PointerType, stored: PointerType)
    ensures Meets(request, stored) <==> stored == Mirrored(request)
    ensures Mirrored(request) == request <==> Balanced(request)
  {
    var k, l := PointerLookup(request), PointerProfile(stored);
    assert k[1..3] == TwoWords(request.pointee) && l[1..3] == TwoWords(stored.pointee);
    if Meets(request, stored) {
      TwoWordsDetermine(request.pointee, stored.pointee);
      assert k[3] == l[3] && k[4] == l[4];
    }
  }

  ghost predicate OneOfEachBalanced(pointers: seq<PointerType>) {
    forall i, j :: 0 <= i < j < |pointers| && Balanced(pointers[i]) ==> pointers[i] != pointers[j]
  }

  /** What the hash table promises of the bucket that is searched for a request, in the order
      of the search. A type is put where its lookup ended, and is moved to where its own words
      belong whenever the table grows; where the two agree it is never missed. */
  predicate IsBucket(pointers: seq<PointerType>, request: PointerType, bucket: seq<Address>) {
    && (forall n :: 0 <= n < |bucket| ==> bucket[n] < |pointers|)
    && (forall j :: 0 <= j < |pointers| && pointers[j] == request && Balanced(request) ==> j in bucket)
  }

  predicate Found(pointers: seq<PointerType>, request: PointerType, bucket: seq<Address>)
    requires IsBucket(pointers, request, bucket)
  {
    exists n :: 0 <= n < |bucket| && Meets(request, pointers[bucket[n]])
  }

  /** The first type in the bucket that presents the key; else the next free address. */
  predicate IsAnswer(pointers: seq<PointerType>, request: PointerType, bucket: seq<Address>, a: Address)
    requires IsBucket(pointers, request, bucket)
  {
    if Found(pointers, request, bucket) then
      exists n :: 0 <= n < |bucket| && bucket[n] == a && Meets(request, pointers[a])
        && forall m :: 0 <= m < n ==> !Meets(request, pointers[bucket[m]])
    else a == |pointers|
  }

  function AfterRequest(pointers: seq<PointerType>, request: PointerType, bucket: seq<Address>): seq<PointerType>
    requires IsBucket(pointers, request, bucket)
  {
    if Found(pointers, request, bucket) then pointers else pointers + [request]
  }

  lemma MissedIsNew(pointers: seq<PointerType>, request: PointerType, bucket: seq<Address>)
    requires OneOfEachBalanced(pointers) && IsBucket(pointers, request, bucket) && !Found(pointers, request, bucket)
    ensures OneOfEachBalanced(pointers + [request])
  {
    MeetsMirrored(request, request);
    hide Meets, Mirrored, Balanced;
    assert forall j :: j in bucket ==> !Meets(request, pointers[j]);
  }

  /** What is returned has the requested ownership and borrow state exactly if their numbers
      agree or nothing in the bucket presented the key; else it has them exchanged. */
  lemma ReturnedAsRequestedIff(pointers: seq<PointerType>, request: PointerType, bucket: seq<Address>, a: Address)
    requires IsBucket(pointers, request, bucket) && IsAnswer(pointers, request, bucket, a)
    ensures var after := AfterRequest(pointers, request, bucket);
      && a < |after| && after[a] == (if Found(pointers, request, bucket) then Mirrored(request) else request)
      && (after[a] == request <==> Balanced(request) || !Found(pointers, request, bucket))
  {
    hide Meets, Mirrored, Balanced;
    if a < |pointers| {
      MeetsMirrored(request, pointers[a]);
    }
  }

  /** The same request once more returns the same object exactly if the first one found a type
      or the numbers agree. A first lookup that found one leaves the table as it was. */
  lemma RepeatedIsSameIff(pointers: seq<PointerType>, request: PointerType, bucket: seq<Address>, a: Address,
                          bucket': seq<Address>, b: Address)
    requires OneOfEachBalanced(pointers) && IsBucket(pointers, request, bucket)
    requires IsAnswer(pointers, request, bucket, a)
    requires Found(pointers, request, bucket) ==> bucket' == bucket
    requires var after := AfterRequest(pointers, request, bucket);
      IsBucket(after, request, bucket') && IsAnswer(after, request, bucket', b)
    ensures a == b <==> Found(pointers, request, bucket) || Balanced(request)
  {
    if !Found(pointers, request, bucket) {
      MissedIsNew(pointers, request, bucket);
      LaterIsSameIff(pointers, request, a, pointers + [request], bucket', b);
    }
  }

  /** At any later moment, whatever was stored in between and whatever is searched, the same
      request returns the object that was allocated for it exactly if the numbers agree. */
  lemma LaterIsSameIff(pointers: seq<PointerType>, request: PointerType, a: Address, later: seq<PointerType>,
                       bucket: seq<Address>, b: Address)
    requires a == |pointers| && pointers + [request] <= later && OneOfEachBalanced(later)
    requires IsBucket(later, request, bucket) && IsAnswer(later, request, bucket, b)
    ensures a == b <==> Balanced(request)
  {
    hide Meets, Mirrored, Balanced;
    assert later[a] == request;
    MeetsMirrored(request, request);
    if b < |later| {
      MeetsMirrored(request, later[b]);
    }
    if Balanced(request) {
      var n :| 0 <= n < |bucket| && bucket[n] == a;
      assert Found(later, request, bucket);
      assert later[b] == request;
    }
  }

  /** A view without ownership is answered by a stored owner, if the search comes across it:
      as soon as the table has grown, an owner sits where its own words belong. */
  lemma OwnerAnswersView(pointee: Address, a: Address)
    ensures var owner, view := PointerType(pointee, Owned, NoBorrow), PointerType(pointee, NoOwnership, ViewBorrow);
      IsBucket([owner], view, [0]) && (IsAnswer([owner], view, [0], a) <==> a == 0)
        && AfterRequest([owner], view, [0]) == [owner]
  {
    var owner, view := PointerType(pointee, Owned, NoBorrow), PointerType(pointee, NoOwnership, ViewBorrow);
    assert Meets(view, [owner][[0][0]]);
  }

  /** Two requests for an owner, one after the other, return two objects, whatever is stored
      and whatever the second one searches, unless the first one found a view. */
  lemma OwnersAreAllocatedTwice(pointers: seq<PointerType>, pointee: Address, bucket: seq<Address>,
                                bucket': seq<Address>, b: Address)
    requires var owner := PointerType(pointee, Owned, NoBorrow);
      && OneOfEachBalanced(pointers) && IsBucket(pointers, owner, bucket) && !Found(pointers, owner, bucket)
      && IsBucket(pointers + [owner], owner, bucket') && IsAnswer(pointers + [owner], owner, bucket', b)
    ensures b != |pointers|
    ensures PointerType(pointee, NoOwnership, ViewBorrow) !in pointers ==> b == |pointers| + 1
  {
    var owner := PointerType(pointee, Owned, NoBorrow);
    RepeatedIsSameIff(pointers, owner, bucket, |pointers|, bucket', b);
    if b < |pointers| {
      MeetsMirrored(owner, pointers[b]);
    }
  }

  // ---------------------------------------------------------------- the module

  class HIRModule {
    var types: seq<HIRType>
    var pointers: seq<PointerType>

    ghost predicate Valid()
      reads this
    {
      Interned(types) && OneOfEachBalanced(pointers)
    }

    constructor ()
      ensures Valid() && types == [] && pointers == []
    {
      types, pointers := [], [];
    }

    /** The stored type that presents itself by this key. */
    method FindNode(key: seq<nat>) returns (found: bool, a: Address)
      ensures found ==> a < |types| && KeyOf(types[a].shape) == key
      ensures !found ==> forall b :: 0 <= b < |types| ==> KeyOf(types[b].shape) != key
    {
      a := 0;
      while a < |types|
        invariant a <= |types| && forall b :: 0 <= b < a ==> KeyOf(types[b].shape) != key
      {
        if KeyOf(types[a].shape) == key {
          return true, a;
        }
        a := a + 1;
      }
      return false, a;
    }

    /** Every getter: look the key up, and allocate if there is none. The body of a struct or
        union that exists already is kept. */
    method GetType(shape: Shape, body: Body) returns (a: Address)
      requires Valid() && forall p :: p in Parts(shape) ==> p < |types|
      modifies this`types
      ensures Valid() && old(types) <= types && a < |types| && types[a].shape == shape
      ensures types == if exists t :: t in old(types) && t.shape == shape then old(types)
        else old(types) + [HIRType(shape, body)]
    {
      hide Interned, Parts, KeyOf;
      var found;
      found, a := FindNode(KeyOf(shape));
      if found {
        KeyDetermines(types[a].shape, shape);
        assert types[a] in types;
        return;
      }
      Allocated(types, shape, body);
      a := |types|;
      types := types + [HIRType(shape, body)];
    }

    /** The getter of pointer types: the bucket is searched for a type that presents the key,
        and the requested type is allocated if there is none. */
    method GetPointerType(request: PointerType, bucket: seq<Address>) returns (a: Address)
      requires Valid() && IsBucket(pointers, request, bucket)
      modifies this`pointers
      ensures Valid() && IsAnswer(old(pointers), request, bucket, a)
      ensures pointers == AfterRequest(old(pointers), request, bucket)
    {
      var n := 0;
      while n < |bucket|
        invariant n <= |bucket| && forall m :: 0 <= m < n ==> !Meets(request, pointers[bucket[m]])
      {
        if PointerLookup(request) == PointerProfile(pointers[bucket[n]]) {
          return bucket[n];
        }
        n := n + 1;
      }
      MissedIsNew(pointers, request, bucket);
      a := |pointers|;
      pointers := pointers + [request];
    }
  }
}
