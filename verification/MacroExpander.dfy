/** The substituter that clones macro bodies with hygienic local names. */
module MacroExpansion {
  import opened MacroSyntax

  type Renames = map<string, string>

  // ---------------------------------------------------------------- generated names

  function Digits(n: nat): (s: string)
    ensures |s| > 0
    ensures forall c :: c in s ==> '0' <= c <= '9'
  {
    var last := ['0' + (n % 10) as char];
    if n < 10 then last else Digits(n / 10) + last
  }

  function UniqueName(name: string, id: nat): string {
    name + "_h" + Digits(id)
  }

  /** The number that a text of decimal digits writes. */
  function DecimalValue(s: string): int {
    if s == "" then 0 else 10 * DecimalValue(s[..|s| - 1]) + (s[|s| - 1] as int - 48)
  }

  /** Decimal, and without leading zeros. */
  lemma {:induction false} DigitsAreDecimal(n: nat)
    ensures DecimalValue(Digits(n)) == n
    ensures n > 0 ==> Digits(n)[0] != '0'
    ensures n == 0 ==> Digits(n) == "0"
  {
    if n >= 10 {
      DigitsAreDecimal(n / 10);
      assert Digits(n)[..|Digits(n)| - 1] == Digits(n / 10);
    } else {
      assert Digits(n)[..0] == "";
    }
  }

  lemma {:induction false} DigitsInjective(m: nat, n: nat)
    requires Digits(m) == Digits(n)
    ensures m == n
  {
    var a, b := Digits(m), Digits(n);
    assert a[|a| - 1] == '0' + (m % 10) as char && b[|b| - 1] == '0' + (n % 10) as char;
    assert m % 10 == n % 10;
    if m >= 10 && n >= 10 {
      assert a[..|a| - 1] == Digits(m / 10) && b[..|b| - 1] == Digits(n / 10);
      DigitsInjective(m / 10, n / 10);
    }
  }

  lemma LongerTailHolds(u: string, d: string, d': string)
    requires |d| < |d'| <= |u| && u[|u| - |d| - 1] == 'h' && u[|u| - |d'|..] == d'
    ensures 'h' in d'
  {
    assert d'[|d'| - |d| - 1] == u[|u| - |d| - 1];
  }

  /** Different declarations never get the same generated name. */
  lemma UniqueNameInjective(name: string, id: nat, name': string, id': nat)
    requires UniqueName(name, id) == UniqueName(name', id')
    ensures id == id'
  {
    var u := UniqueName(name, id);
    var d, d' := Digits(id), Digits(id');
    assert d == u[|u| - |d|..] && d' == u[|u| - |d'|..];
    assert u[|u| - |d| - 1] == 'h' && u[|u| - |d'| - 1] == 'h';
    if |d| < |d'| {
      LongerTailHolds(u, d, d');
    } else if |d'| < |d| {
      LongerTailHolds(u, d', d);
    }
    DigitsInjective(id, id');
  }

  // ---------------------------------------------------------------- cloning

  /** The clone of an expression: renamed locals first, then parameters. An argument is cloned
      with the parameter removed from the list and no renaming. */
  function CloneExpr(params: seq<string>, args: seq<Expr>, renames: Renames, hygiene: bool, e: Expr): Expr
    decreases |params|, e
  {
    match e
    case Number(_) => e
    case Name(x) =>
      if hygiene && x in renames then Name(renames[x])
      else
        var i := ParamIndex(params, args, x);
        if i >= 0 then CloneExpr(params[..i] + params[i + 1..], args, map[], hygiene, args[i]) else e
    case Unary(op, x) => Unary(op, CloneExpr(params, args, renames, hygiene, x))
    case Binary(a, op, b) =>
      Binary(CloneExpr(params, args, renames, hygiene, a), op, CloneExpr(params, args, renames, hygiene, b))
    case Assign(t, s) =>
      Assign(CloneExpr(params, args, renames, hygiene, t), CloneExpr(params, args, renames, hygiene, s))
    case Ternary(c, t, f) =>
      Ternary(CloneExpr(params, args, renames, hygiene, c), CloneExpr(params, args, renames, hygiene, t),
              CloneExpr(params, args, renames, hygiene, f))
  }

  /** When an argument is cloned its parameter is dropped from the list, but the argument is not.
      An argument that mentions the next parameter therefore meets itself: with p for `q + n`, the
      q in it is replaced by `q + n` once more, and the argument for q is not looked at. */
  lemma ArgumentMeetsItself(p: string, q: string, op: string, n: int, e: Expr)
    requires p != q
    ensures var given := Binary(Name(q), op, Number(n));
      CloneExpr([p, q], [given, e], map[], true, Name(p)) == Binary(given, op, Number(n))
  {
    var given := Binary(Name(q), op, Number(n));
    var args := [given, e];
    var none: Renames := map[];
    assert [p, q][..0] + [p, q][1..] == [q] && [q][..0] + [q][1..] == [];
    assert CloneExpr([], args, none, true, Name(q)) == Name(q);
    assert CloneExpr([], args, none, true, given) == given;
    assert CloneExpr([q], args, none, true, Name(q)) == given by {
      assert ParamIndex([q], args, q) == 0;
    }
    assert CloneExpr([q], args, none, true, given) == Binary(given, op, Number(n));
    assert ParamIndex([p, q], args, p) == 0;
  }

  /** The name a declaration gets, and the renames afterwards. A declaration named like a
      parameter whose argument is a name declares that name instead. */
  function DeclaredAs(params: seq<string>, args: seq<Expr>, renames: Renames, hygiene: bool, d: Stmt): (string, Renames)
    requires d.Declare?
  {
    var i := LastNameParam(params, args, d.name, |params|);
    if i >= 0 then (args[i].name, renames)
    else if hygiene then (UniqueName(d.name, d.id), renames[d.name := UniqueName(d.name, d.id)])
    else (d.name, renames)
  }

  /** The last parameter before k that has this name and a name as its argument. */
  function LastNameParam(params: seq<string>, args: seq<Expr>, name: string, k: nat): (i: int)
    requires k <= |params|
    ensures i == -1 || (0 <= i < k && i < |args| && params[i] == name && args[i].Name?)
    ensures i == -1 ==> forall j :: 0 <= j < k && j < |args| && args[j].Name? ==> params[j] != name
    ensures 0 <= i ==> forall j :: i < j < k && j < |args| && args[j].Name? ==> params[j] != name
  {
    if k == 0 then -1
    else if params[k - 1] == name && k - 1 < |args| && args[k - 1].Name? then k - 1
    else LastNameParam(params, args, name, k - 1)
  }

  /** The clone of a body, with the renames known so far. */
  function CloneBody(params: seq<string>, args: seq<Expr>, renames: Renames, hygiene: bool, body: Body): (r: Body)
    ensures |r| == |body|
    decreases |body|
  {
    if body == [] then []
    else
      match body[0]
      case Evaluate(e) =>
        [Evaluate(CloneExpr(params, args, renames, hygiene, e))] + CloneBody(params, args, renames, hygiene, body[1..])
      case Declare(_, id, init) =>
        var (name, renames') := DeclaredAs(params, args, renames, hygiene, body[0]);
        [Declare(name, id, CloneExpr(params, args, renames', hygiene, init))]
          + CloneBody(params, args, renames', hygiene, body[1..])
  }

  class MacroSubstituter {
    const params: seq<string>
    const args: seq<Expr>
    const isHygieneEnabled: bool
    var localRenameMap: Renames

    constructor (params: seq<string>, args: seq<Expr>, enableHygiene: bool)
      ensures this.params == params && this.args == args && isHygieneEnabled == enableHygiene
      ensures localRenameMap == map[]
    {
      this.params, this.args, isHygieneEnabled := params, args, enableHygiene;
      localRenameMap := map[];
    }

    /** The source clones by recursion without touching the rename map. */
    function Clone(e: Expr): Expr
      reads this
    {
      CloneExpr(params, args, localRenameMap, isHygieneEnabled, e)
    }

    method CloneDecl(d: Stmt) returns (r: Stmt)
      requires d.Declare?
      modifies this`localRenameMap
      ensures r.Declare?
      ensures (r.name, localRenameMap) == DeclaredAs(params, args, old(localRenameMap), isHygieneEnabled, d)
      ensures r == Declare(r.name, d.id, Clone(d.init))
    {
      var name := d.name;
      var isParam := false;
      var i := 0;
      while i < |params|
        invariant i <= |params|
        invariant var last := LastNameParam(params, args, d.name, i);
          isParam == (last >= 0) && name == if last >= 0 then args[last].name else d.name
      {
        if params[i] == d.name {
          if i < |args| {
            if args[i].Name? {
              name := args[i].name;
              isParam := true;
            }
          }
        }
        i := i + 1;
      }
      if isHygieneEnabled && !isParam {
        var uniqueName := UniqueName(name, d.id);
        localRenameMap := localRenameMap[d.name := uniqueName];
        name := uniqueName;
      }
      r := Declare(name, d.id, Clone(d.init));
    }

    method CloneStmt(s: Stmt) returns (r: Stmt)
      modifies this`localRenameMap
      ensures s.Evaluate? ==> r == Evaluate(Clone(s.expr)) && localRenameMap == old(localRenameMap)
      ensures s.Declare? ==>
        && r.Declare? && r == Declare(r.name, s.id, Clone(s.init))
        && (r.name, localRenameMap) == DeclaredAs(params, args, old(localRenameMap), isHygieneEnabled, s)
    {
      match s
      case Evaluate(e) =>
        r := Evaluate(Clone(e));
      case Declare(_, _, _) =>
        r := CloneDecl(s);
    }
  }

  /** Nothing is produced when the number of arguments is wrong. */
  method Expand(params: seq<string>, body: Body, args: seq<Expr>) returns (result: Body)
    ensures |args| != |params| ==> result == []
    ensures |args| == |params| ==> result == CloneBody(params, args, map[], true, body)
  {
    result := [];
    if |args| != |params| {
      return;
    }
    var substituter := new MacroSubstituter(params, args, true);
    var i := 0;
    while i < |body|
      invariant i <= |body|
      invariant substituter.params == params && substituter.args == args && substituter.isHygieneEnabled
      invariant CloneBody(params, args, map[], true, body) ==
        result + CloneBody(params, args, substituter.localRenameMap, true, body[i..])
    {
      var stmt := substituter.CloneStmt(body[i]);
      assert body[i..][1..] == body[i + 1..];
      result := result + [stmt];
      i := i + 1;
    }
  }
}
