/** Expansion keeps the meaning of a macro call. */
module MacroHygiene {
  import opened MacroSyntax
  import opened MacroExpansion

  // ---------------------------------------------------------------- conditions a caller can check

  function DeclaredIn(body: Body): set<string> {
    set s | s in body && s.Declare? :: s.name
  }

  function GeneratedIn(body: Body): set<string> {
    set s | s in body && s.Declare? :: UniqueName(s.name, s.id)
  }

  function StmtNames(s: Stmt): set<string> {
    Names(if s.Declare? then s.init else s.expr)
  }

  /** Every declaration is a node of its own. */
  predicate DistinctNodes(body: Body) {
    forall i, j :: 0 <= i < j < |body| && body[i].Declare? && body[j].Declare? ==> body[i].id != body[j].id
  }

  /** Each parameter has its argument, no argument mentions a parameter, and no generated name
      occurs in an argument. */
  predicate ArgumentsFit(call: Call, generated: set<string>) {
    && |call.params| == |call.args|
    && (forall a, p :: a in call.args && p in call.params ==> p !in Names(a))
    && (forall a :: a in call.args ==> Names(a) !! generated)
  }

  /** No local is named like a parameter, and no generated name occurs in the body. */
  predicate BodyFits(call: Call, body: Body, generated: set<string>) {
    && (forall p :: p in call.params ==> p !in DeclaredIn(body))
    && (forall s :: s in body ==> StmtNames(s) !! generated)
  }

  /** The initializer of a declaration mentions the declared name. */
  predicate ReadsItself(s: Stmt) {
    s.Declare? && s.name in Names(s.init)
  }

  // ---------------------------------------------------------------- the simulation

  /** env is the caller's environment together with the locals under their generated names. */
  ghost predicate Sim(env: Env, caller: Env, locals: Env, renames: Renames, generated: set<string>) {
    && (forall y :: y in caller ==> y in env && env[y] == caller[y] && y !in generated)
    && locals.Keys == renames.Keys
    && (forall x :: x in renames ==> renames[x] in generated && renames[x] in env && env[renames[x]] == locals[x])
    && (forall x, y :: x in renames && y in renames && x != y ==> renames[x] != renames[y])
    && (forall y :: y in env ==> y in caller || y in generated)
  }

  /** Replacing each parameter list is idle on an expression without parameter names. */
  lemma {:induction false} CloneOfArgument(params: seq<string>, args: seq<Expr>, hygiene: bool, e: Expr)
    requires forall p :: p in params ==> p !in Names(e)
    ensures CloneExpr(params, args, map[], hygiene, e) == e
    decreases e
  {
    match e
    case Number(_) =>
    case Name(x) =>
      assert ParamIndex(params, args, x) == -1;
    case Unary(_, x) => CloneOfArgument(params, args, hygiene, x);
    case Binary(a, _, b) =>
      CloneOfArgument(params, args, hygiene, a);
      CloneOfArgument(params, args, hygiene, b);
    case Assign(t, s) =>
      CloneOfArgument(params, args, hygiene, t);
      CloneOfArgument(params, args, hygiene, s);
    case Ternary(c, t, f) =>
      CloneOfArgument(params, args, hygiene, c);
      CloneOfArgument(params, args, hygiene, t);
      CloneOfArgument(params, args, hygiene, f);
  }

  /** An expression of the caller behaves the same in the larger environment. */
  lemma {:induction false} CallerExpr(ops: Ops, e: Expr, env: Env, caller: Env, locals: Env, renames: Renames,
                                      generated: set<string>)
    requires Sim(env, caller, locals, renames, generated) && Names(e) !! generated
    ensures var r, s := Eval(ops, e, env), Eval(ops, e, caller);
      && r.Value? == s.Value?
      && (r.Value? ==> r.value == s.value && Sim(r.env, s.env, locals, renames, generated))
    decreases e
  {
    match e
    case Number(_) =>
    case Name(x) =>
    case Unary(_, x) => CallerExpr(ops, x, env, caller, locals, renames, generated);
    case Binary(a, op, b) =>
      CallerExpr(ops, a, env, caller, locals, renames, generated);
      var r, s := Eval(ops, a, env), Eval(ops, a, caller);
      if r.Value? && !ops.Stops(op, r.value) {
        CallerExpr(ops, b, r.env, s.env, locals, renames, generated);
      }
    case Assign(t, x) =>
      CallerExpr(ops, x, env, caller, locals, renames, generated);
      var r, s := Eval(ops, x, env), Eval(ops, x, caller);
      if r.Value? && t.Name? {
        assert t.name !in generated;
        StoreCaller(r.env, s.env, locals, renames, generated, t.name, r.value);
      }
    case Ternary(c, t, f) =>
      CallerExpr(ops, c, env, caller, locals, renames, generated);
      var r, s := Eval(ops, c, env), Eval(ops, c, caller);
      if r.Value? {
        CallerExpr(ops, if r.value != 0 then t else f, r.env, s.env, locals, renames, generated);
      }
  }

  lemma StoreCaller(env: Env, caller: Env, locals: Env, renames: Renames, generated: set<string>, y: string, v: int)
    requires Sim(env, caller, locals, renames, generated) && y !in generated
    ensures y in env <==> y in caller
    ensures y in env ==> Sim(env[y := v], caller[y := v], locals, renames, generated)
  {
  }

  lemma LookupLocal(env: Env, caller: Env, locals: Env, renames: Renames, generated: set<string>, x: string)
    requires Sim(env, caller, locals, renames, generated)
    ensures x in renames <==> x in locals
    ensures x in renames ==> renames[x] in env && env[renames[x]] == locals[x]
  {
  }

  lemma StoreLocal(env: Env, caller: Env, locals: Env, renames: Renames, generated: set<string>, x: string, v: int)
    requires Sim(env, caller, locals, renames, generated) && x in locals
    ensures Sim(env[renames[x] := v], caller, locals[x := v], renames, generated)
  {
  }

  lemma ArgumentIsForeign(call: Call, generated: set<string>, i: nat)
    requires ArgumentsFit(call, generated) && i < |call.args|
    ensures Names(call.args[i]) !! generated
    ensures forall p :: p in call.params ==> p !in Names(call.args[i])
  {
    hide Names;
  }

  lemma CloneOfParam(params: seq<string>, args: seq<Expr>, renames: Renames, x: string, i: nat)
    requires x !in renames && ParamIndex(params, args, x) == i
    requires forall p :: p in params ==> p !in Names(args[i])
    ensures CloneExpr(params, args, renames, true, Name(x)) == args[i]
  {
    hide Names, ParamIndex;
    var rest := params[..i] + params[i + 1..];
    assert forall p :: p in rest ==> p in params;
    CloneOfArgument(rest, args, true, args[i]);
  }

  /** What `CloneExpr` makes of a name agrees with what the name means. */
  lemma CloneOfName(call: Call, renames: Renames, generated: set<string>, x: string)
    requires ArgumentsFit(call, generated)
    ensures var c := CloneExpr(call.params, call.args, renames, true, Name(x));
      var i := ParamIndex(call.params, call.args, x);
      c == if x in renames then Name(renames[x]) else if i >= 0 then call.args[i] else Name(x)
    ensures var i := ParamIndex(call.params, call.args, x); i >= 0 ==> Names(call.args[i]) !! generated
  {
    hide Names, ArgumentsFit, ParamIndex;
    var i := ParamIndex(call.params, call.args, x);
    if i >= 0 {
      ArgumentIsForeign(call, generated, i);
      if x !in renames {
        CloneOfParam(call.params, call.args, renames, x, i);
      }
    }
  }

  /** A result in the joint environment agrees with one that keeps caller and locals apart. */
  ghost predicate Agree(r: Result, s: RefResult, renames: Renames, generated: set<string>) {
    && r.Value? == s.RefValue?
    && (r.Value? ==> r.value == s.value && Sim(r.env, s.caller, s.locals, renames, generated))
  }

  function Store(target: Expr, v: int, env: Env): Result {
    if target.Name? && target.name in env then Value(v, env[target.name := v]) else Fail
  }

  lemma NameAgrees(ops: Ops, call: Call, x: string, env: Env, caller: Env, locals: Env, renames: Renames,
                   generated: set<string>)
    requires ArgumentsFit(call, generated) && x !in generated && Sim(env, caller, locals, renames, generated)
    ensures Agree(Eval(ops, CloneExpr(call.params, call.args, renames, true, Name(x)), env),
                  RefEval(ops, call, Name(x), caller, locals), renames, generated)
  {
    CloneOfName(call, renames, generated, x);
    hide ArgumentsFit, ParamIndex, CloneExpr;
    LookupLocal(env, caller, locals, renames, generated, x);
    if x !in renames {
      hide Sim;
      var i := ParamIndex(call.params, call.args, x);
      CallerExpr(ops, if i >= 0 then call.args[i] else Name(x), env, caller, locals, renames, generated);
    }
  }

  lemma CloneOfOther(params: seq<string>, args: seq<Expr>, renames: Renames, e: Expr)
    requires !e.Name?
    ensures !CloneExpr(params, args, renames, true, e).Name?
  {
  }

  lemma StoreNameAgrees(call: Call, x: string, v: int, env: Env, caller: Env, locals: Env, renames: Renames,
                        generated: set<string>)
    requires ArgumentsFit(call, generated) && x !in generated && Sim(env, caller, locals, renames, generated)
    ensures Agree(Store(CloneExpr(call.params, call.args, renames, true, Name(x)), v, env),
                  RefStore(call, Name(x), v, caller, locals), renames, generated)
  {
    hide ArgumentsFit, ParamIndex, CloneExpr, Sim, Names;
    CloneOfName(call, renames, generated, x);
    LookupLocal(env, caller, locals, renames, generated, x);
    if x in renames {
      StoreLocal(env, caller, locals, renames, generated, x, v);
    } else {
      var i := ParamIndex(call.params, call.args, x);
      var meant := if i >= 0 then call.args[i] else Name(x);
      StoreMeant(meant, v, env, caller, locals, renames, generated);
    }
  }

  lemma StoreMeant(meant: Expr, v: int, env: Env, caller: Env, locals: Env, renames: Renames, generated: set<string>)
    requires Sim(env, caller, locals, renames, generated)
    requires (meant.Name? && meant.name !in generated) || Names(meant) !! generated
    ensures Agree(Store(meant, v, env),
                  if meant.Name? && meant.name in caller then RefValue(v, caller[meant.name := v], locals)
                  else RefFail, renames, generated)
  {
    if meant.Name? {
      assert meant.name in Names(meant);
      StoreCaller(env, caller, locals, renames, generated, meant.name, v);
    }
  }

  lemma StoreAgrees(call: Call, target: Expr, v: int, env: Env, caller: Env, locals: Env, renames: Renames,
                    generated: set<string>)
    requires ArgumentsFit(call, generated) && Names(target) !! generated && Sim(env, caller, locals, renames, generated)
    ensures Agree(Store(CloneExpr(call.params, call.args, renames, true, target), v, env),
                  RefStore(call, target, v, caller, locals), renames, generated)
  {
    hide Sim, ArgumentsFit, ParamIndex, CloneExpr;
    if target.Name? {
      StoreNameAgrees(call, target.name, v, env, caller, locals, renames, generated);
    } else {
      CloneOfOther(call.params, call.args, renames, target);
    }
  }

  /** The cloned expression, run in the joint environment, does what the body's expression
      does with caller and locals kept apart. */
  lemma {:induction false} CloneSimulates(ops: Ops, call: Call, e: Expr, env: Env, caller: Env, locals: Env,
                                          renames: Renames, generated: set<string>)
    requires ArgumentsFit(call, generated) && Names(e) !! generated
    requires Sim(env, caller, locals, renames, generated)
    ensures Agree(Eval(ops, CloneExpr(call.params, call.args, renames, true, e), env),
                  RefEval(ops, call, e, caller, locals), renames, generated)
    decreases e
  {
    hide Sim, ArgumentsFit, ParamIndex, RefStore;
    match e
    case Number(_) =>
    case Name(x) => NameAgrees(ops, call, x, env, caller, locals, renames, generated);
    case Unary(_, x) => CloneSimulates(ops, call, x, env, caller, locals, renames, generated);
    case Binary(a, op, b) =>
      CloneSimulates(ops, call, a, env, caller, locals, renames, generated);
      var r := Eval(ops, CloneExpr(call.params, call.args, renames, true, a), env);
      var s := RefEval(ops, call, a, caller, locals);
      if r.Value? && !ops.Stops(op, r.value) {
        CloneSimulates(ops, call, b, r.env, s.caller, s.locals, renames, generated);
      }
    case Assign(t, x) =>
      CloneSimulates(ops, call, x, env, caller, locals, renames, generated);
      var r := Eval(ops, CloneExpr(call.params, call.args, renames, true, x), env);
      var s := RefEval(ops, call, x, caller, locals);
      if r.Value? {
        StoreAgrees(call, t, r.value, r.env, s.caller, s.locals, renames, generated);
      }
    case Ternary(c, t, f) =>
      CloneSimulates(ops, call, c, env, caller, locals, renames, generated);
      var r := Eval(ops, CloneExpr(call.params, call.args, renames, true, c), env);
      var s := RefEval(ops, call, c, caller, locals);
      if r.Value? {
        CloneSimulates(ops, call, if r.value != 0 then t else f, r.env, s.caller, s.locals, renames, generated);
      }
  }

  // ---------------------------------------------------------------- whole bodies

  /** Renaming a name that does not occur changes nothing. */
  lemma {:induction false} RenameIdle(params: seq<string>, args: seq<Expr>, renames: Renames, x: string, u: string,
                                      e: Expr)
    requires x !in Names(e)
    ensures CloneExpr(params, args, renames[x := u], true, e) == CloneExpr(params, args, renames, true, e)
    decreases e
  {
    match e
    case Number(_) =>
    case Name(_) =>
    case Unary(_, y) => RenameIdle(params, args, renames, x, u, y);
    case Binary(a, _, b) =>
      RenameIdle(params, args, renames, x, u, a);
      RenameIdle(params, args, renames, x, u, b);
    case Assign(t, s) =>
      RenameIdle(params, args, renames, x, u, t);
      RenameIdle(params, args, renames, x, u, s);
    case Ternary(c, t, f) =>
      RenameIdle(params, args, renames, x, u, c);
      RenameIdle(params, args, renames, x, u, t);
      RenameIdle(params, args, renames, x, u, f);
  }

  lemma DeclareLocal(env: Env, caller: Env, locals: Env, renames: Renames, generated: set<string>, x: string, u: string,
                     v: int)
    requires Sim(env, caller, locals, renames, generated) && u in generated && u !in env
    ensures Sim(env[u := v], caller, locals[x := v], renames[x := u], generated)
  {
  }

  /** None of the declarations of the body has been carried out in env. */
  ghost predicate Undeclared(body: Body, env: Env) {
    forall s :: s in body && s.Declare? ==> UniqueName(s.name, s.id) !in env
  }

  ghost predicate Ready(call: Call, body: Body, env: Env, generated: set<string>) {
    && ArgumentsFit(call, generated) && BodyFits(call, body, generated) && DistinctNodes(body)
    && GeneratedIn(body) <= generated && Undeclared(body, env)
  }

  function Source(s: Stmt): Expr {
    if s.Declare? then s.init else s.expr
  }

  lemma ReadyHead(call: Call, body: Body, env: Env, generated: set<string>)
    requires Ready(call, body, env, generated) && body != []
    ensures ArgumentsFit(call, generated) && Names(Source(body[0])) !! generated
    ensures body[0].Declare? ==>
      var u := UniqueName(body[0].name, body[0].id);
      && u in generated && u !in env
      && forall renames: Renames ::
           DeclaredAs(call.params, call.args, renames, true, body[0]) == (u, renames[body[0].name := u])
  {
    var s := body[0];
    assert StmtNames(s) !! generated;
    if s.Declare? {
      assert s.name in DeclaredIn(body) && UniqueName(s.name, s.id) in GeneratedIn(body);
      assert s.name !in call.params;
    }
  }

  lemma ReadyTail(call: Call, body: Body, env: Env, env': Env, generated: set<string>)
    requires Ready(call, body, env, generated) && body != []
    requires env'.Keys == if body[0].Declare? then env.Keys + {UniqueName(body[0].name, body[0].id)} else env.Keys
    ensures Ready(call, body[1..], env', generated)
  {
    assert forall s :: s in body[1..] ==> s in body;
    forall s | s in body[1..] && s.Declare? ensures UniqueName(s.name, s.id) !in env' {
      if body[0].Declare? && UniqueName(s.name, s.id) == UniqueName(body[0].name, body[0].id) {
        UniqueNameInjective(s.name, s.id, body[0].name, body[0].id);
      }
    }
  }

  /** Both runs get stuck, or both finish with the same values and leave the caller's variables
      with the same contents. */
  ghost predicate Matches(r: Outcome, s: RefOutcome) {
    && r.Done? == s.RefDone?
    && (r.Done? ==> r.values == s.values && forall y :: y in s.caller ==> y in r.env && r.env[y] == s.caller[y])
  }

  ghost function Locals'(s: Stmt, locals: Env, v: int): Env {
    if s.Declare? then locals[s.name := v] else locals
  }

  ghost function Renames'(s: Stmt, renames: Renames): Renames {
    if s.Declare? then renames[s.name := UniqueName(s.name, s.id)] else renames
  }

  lemma ExecStep(ops: Ops, call: Call, body: Body, renames: Renames, env: Env, generated: set<string>)
    requires Ready(call, body, env, generated) && body != []
    ensures var e := CloneExpr(call.params, call.args, Renames'(body[0], renames), true, Source(body[0]));
      var r := Eval(ops, e, env);
      var run := Exec(ops, CloneBody(call.params, call.args, renames, true, body), env);
      && (r.Fail? ==> run == Stuck)
      && (r.Value? ==>
            var env2 := if body[0].Declare? then r.env[UniqueName(body[0].name, body[0].id) := r.value] else r.env;
            var rest := Exec(ops, CloneBody(call.params, call.args, Renames'(body[0], renames), true, body[1..]), env2);
            run == if rest.Done? then Done([r.value] + rest.values, rest.env) else Stuck)
  {
    ReadyHead(call, body, env, generated);
    var clone := CloneBody(call.params, call.args, renames, true, body);
    assert clone[1..] == CloneBody(call.params, call.args, Renames'(body[0], renames), true, body[1..]);
  }

  lemma RefStep(ops: Ops, call: Call, body: Body, caller: Env, locals: Env)
    requires body != []
    ensures var s := RefEval(ops, call, Source(body[0]), caller, locals);
      var run := RefExec(ops, call, body, caller, locals);
      && (s.RefFail? ==> run == RefStuck)
      && (s.RefValue? ==>
            var rest := RefExec(ops, call, body[1..], s.caller, Locals'(body[0], s.locals, s.value));
            run == if rest.RefDone? then RefDone([s.value] + rest.values, rest.caller) else RefStuck)
  {
  }

  /** One statement that does not read the name it declares. */
  lemma StmtSimulates(ops: Ops, call: Call, body: Body, env: Env, caller: Env, locals: Env, renames: Renames,
                      generated: set<string>)
    requires Ready(call, body, env, generated) && body != [] && Sim(env, caller, locals, renames, generated)
    requires !ReadsItself(body[0])
    ensures
      var clone := CloneExpr(call.params, call.args, Renames'(body[0], renames), true, Source(body[0]));
      var r := Eval(ops, clone, env);
      var s := RefEval(ops, call, Source(body[0]), caller, locals);
      && r.Value? == s.RefValue?
      && (r.Value? ==>
            var env2 := if body[0].Declare? then r.env[UniqueName(body[0].name, body[0].id) := r.value] else r.env;
            && r.value == s.value
            && Sim(env2, s.caller, Locals'(body[0], s.locals, s.value), Renames'(body[0], renames), generated)
            && Ready(call, body[1..], env2, generated))
  {
    hide Sim, RefEval;
    ReadyHead(call, body, env, generated);
    CloneSimulates(ops, call, Source(body[0]), env, caller, locals, renames, generated);
    var r := Eval(ops, CloneExpr(call.params, call.args, renames, true, Source(body[0])), env);
    var s := RefEval(ops, call, Source(body[0]), caller, locals);
    if body[0].Declare? {
      var u := UniqueName(body[0].name, body[0].id);
      RenameIdle(call.params, call.args, renames, body[0].name, u, body[0].init);
      if r.Value? {
        DeclareLocal(r.env, s.caller, s.locals, renames, generated, body[0].name, u, r.value);
        ReadyTail(call, body, env, r.env[u := r.value], generated);
      }
    } else if r.Value? {
      ReadyTail(call, body, env, r.env, generated);
    }
  }

  lemma {:induction false} BodySimulates(ops: Ops, call: Call, body: Body, env: Env, caller: Env, locals: Env,
                                         renames: Renames, generated: set<string>)
    requires Ready(call, body, env, generated) && Sim(env, caller, locals, renames, generated)
    requires forall s :: s in body ==> !ReadsItself(s)
    ensures Matches(Exec(ops, CloneBody(call.params, call.args, renames, true, body), env),
                    RefExec(ops, call, body, caller, locals))
    decreases |body|
  {
    hide Ready, Sim, CloneBody, CloneExpr, Eval, RefEval, Exec, RefExec, ReadsItself;
    if body == [] {
      NothingLeft(ops, call, env, caller, locals, renames, generated);
    } else {
      ExecStep(ops, call, body, renames, env, generated);
      RefStep(ops, call, body, caller, locals);
      StmtSimulates(ops, call, body, env, caller, locals, renames, generated);
      var r := Eval(ops, CloneExpr(call.params, call.args, Renames'(body[0], renames), true, Source(body[0])), env);
      var s := RefEval(ops, call, Source(body[0]), caller, locals);
      if r.Value? {
        var env2 := if body[0].Declare? then r.env[UniqueName(body[0].name, body[0].id) := r.value] else r.env;
        BodySimulates(ops, call, body[1..], env2, s.caller, Locals'(body[0], s.locals, s.value),
                      Renames'(body[0], renames), generated);
      }
    }
  }

  lemma NothingLeft(ops: Ops, call: Call, env: Env, caller: Env, locals: Env, renames: Renames, generated: set<string>)
    requires Sim(env, caller, locals, renames, generated)
    ensures Matches(Exec(ops, CloneBody(call.params, call.args, renames, true, []), env),
      RefExec(ops, call, [], caller, locals))
  {
  }

  // ---------------------------------------------------------------- the theorems

  /** Everything a call needs for its expansion to be hygienic, apart from self-reads. */
  ghost predicate Hygienic(call: Call, body: Body, caller: Env) {
    var generated := GeneratedIn(body);
    && ArgumentsFit(call, generated) && BodyFits(call, body, generated) && DistinctNodes(body)
    && caller.Keys !! generated
  }

  ghost function ExpansionRun(ops: Ops, call: Call, body: Body, caller: Env): Outcome {
    Exec(ops, CloneBody(call.params, call.args, map[], true, body), caller)
  }

  lemma HygienicIsReady(call: Call, body: Body, caller: Env)
    requires Hygienic(call, body, caller)
    ensures Ready(call, body, caller, GeneratedIn(body)) && Sim(caller, caller, map[], map[], GeneratedIn(body))
  {
    forall s | s in body && s.Declare? ensures UniqueName(s.name, s.id) !in caller {
      assert UniqueName(s.name, s.id) in GeneratedIn(body);
    }
  }

  /** Running the expansion in the caller's environment does what the body does with its own
      locals and with parameters standing for the caller's arguments. */
  lemma ExpansionKeepsMeaning(ops: Ops, call: Call, body: Body, caller: Env)
    requires Hygienic(call, body, caller) && forall s :: s in body ==> !ReadsItself(s)
    ensures Matches(ExpansionRun(ops, call, body, caller), RefExec(ops, call, body, caller, map[]))
  {
    HygienicIsReady(call, body, caller);
    BodySimulates(ops, call, body, caller, caller, map[], map[], GeneratedIn(body));
  }

  /** An expression that must read a name that is not there fails. */
  lemma {:induction false} UnboundFails(ops: Ops, params: seq<string>, args: seq<Expr>, renames: Renames, e: Expr,
                                        x: string, env: Env)
    requires Strict(e) && x in Names(e) && x in renames && renames[x] !in env
    ensures Eval(ops, CloneExpr(params, args, renames, true, e), env) == Fail
    decreases e
  {
    match e
    case Name(_) =>
    case Unary(_, y) => UnboundFails(ops, params, args, renames, y, x, env);
    case Binary(a, _, b) =>
      if x in Names(a) {
        UnboundFails(ops, params, args, renames, a, x, env);
      } else {
        var r := Eval(ops, CloneExpr(params, args, renames, true, a), env);
        if r.Value? {
          UnboundFails(ops, params, args, renames, b, x, r.env);
        }
      }
    case Assign(t, s) =>
      if x in Names(s) {
        UnboundFails(ops, params, args, renames, s, x, env);
      } else {
        var r := Eval(ops, CloneExpr(params, args, renames, true, s), env);
        assert t.Name? ==> CloneExpr(params, args, renames, true, t) == Name(renames[x]);
      }
  }

  lemma {:induction false} SelfReadGetsStuck(ops: Ops, call: Call, body: Body, env: Env, caller: Env, locals: Env,
                                             renames: Renames, generated: set<string>)
    requires Ready(call, body, env, generated) && Sim(env, caller, locals, renames, generated)
    requires forall s :: s in body ==> Strict(Source(s))
    requires exists s :: s in body && ReadsItself(s)
    requires RefExec(ops, call, body, caller, locals).RefDone?
    ensures Exec(ops, CloneBody(call.params, call.args, renames, true, body), env) == Stuck
    decreases |body|
  {
    ExecStep(ops, call, body, renames, env, generated);
    RefStep(ops, call, body, caller, locals);
    if ReadsItself(body[0]) {
      ReadyHead(call, body, env, generated);
      UnboundFails(ops, call.params, call.args, Renames'(body[0], renames), body[0].init, body[0].name, env);
    } else {
      StmtSimulates(ops, call, body, env, caller, locals, renames, generated);
      assert exists s :: s in body[1..] && ReadsItself(s) by {
        var s :| s in body && ReadsItself(s);
        assert body == [body[0]] + body[1..];
        assert s in body[1..];
      }
      hide Ready, Sim, CloneBody, Exec, RefExec, ReadsItself;
      var r := Eval(ops, CloneExpr(call.params, call.args, Renames'(body[0], renames), true, Source(body[0])), env);
      var s := RefEval(ops, call, Source(body[0]), caller, locals);
      var env2 := if body[0].Declare? then r.env[UniqueName(body[0].name, body[0].id) := r.value] else r.env;
      SelfReadGetsStuck(ops, call, body[1..], env2, s.caller, Locals'(body[0], s.locals, s.value),
                        Renames'(body[0], renames), generated);
    }
  }

  /** The renaming of a declaration takes effect before its initializer is cloned. For a body
      without conditional evaluation whose meaning is defined, the expansion therefore keeps
      the meaning exactly when no initializer mentions the name being declared. */
  lemma ExpansionKeepsMeaningExactly(ops: Ops, call: Call, body: Body, caller: Env)
    requires Hygienic(call, body, caller) && forall s :: s in body ==> Strict(Source(s))
    requires RefExec(ops, call, body, caller, map[]).RefDone?
    ensures Matches(ExpansionRun(ops, call, body, caller), RefExec(ops, call, body, caller, map[]))
       <==> forall s :: s in body ==> !ReadsItself(s)
  {
    if forall s :: s in body ==> !ReadsItself(s) {
      ExpansionKeepsMeaning(ops, call, body, caller);
    } else {
      HygienicIsReady(call, body, caller);
      SelfReadGetsStuck(ops, call, body, caller, caller, map[], map[], GeneratedIn(body));
    }
  }

  /** `x = x + 1` with the caller's x on the right: the expansion is stuck on its own name. */
  lemma SelfReadExample(ops: Ops, n: int, id: nat)
    ensures var body := [Declare("x", id, Binary(Name("x"), "+", Number(1)))];
      var call, caller := Call([], []), map["x" := n];
      && RefExec(ops, call, body, caller, map[]) == RefDone([ops.binary("+", n, 1)], caller)
      && ExpansionRun(ops, call, body, caller) == Stuck
  {
    var init := Binary(Name("x"), "+", Number(1));
    var body, caller := [Declare("x", id, init)], map["x" := n];
    var u := UniqueName("x", id);
    assert u[1] == '_' && u !in caller;
    assert Eval(ops, init, caller) == Value(ops.binary("+", n, 1), caller);
    assert RefExec(ops, Call([], []), body[1..], caller, map["x" := n + 1]) == RefDone([], caller);
    var clone := [Declare(u, id, Binary(Name(u), "+", Number(1)))];
    assert CloneBody([], [], map[], true, body) == clone;
    assert Eval(ops, clone[0].init, caller) == Fail;
  }

  // ---------------------------------------------------------------- resolving names

  /** The names of an expression once it is cloned: generated ones for locals, those of the
      argument for a parameter. */
  function NamesMeant(call: Call, renames: Renames, x: string): set<string> {
    if x in renames then {renames[x]}
    else
      var i := ParamIndex(call.params, call.args, x);
      if i >= 0 then Names(call.args[i]) else {x}
  }

  predicate AllMeantIn(call: Call, renames: Renames, names: set<string>, scope: set<string>) {
    forall x :: x in names ==> NamesMeant(call, renames, x) <= scope
  }

  lemma {:induction false} CloneNames(call: Call, renames: Renames, generated: set<string>, e: Expr, scope: set<string>)
    requires ArgumentsFit(call, generated)
    ensures Names(CloneExpr(call.params, call.args, renames, true, e)) <= scope
       <==> AllMeantIn(call, renames, Names(e), scope)
    decreases e
  {
    hide ArgumentsFit, NamesMeant, ParamIndex;
    match e
    case Number(_) =>
    case Name(x) => CloneNamesOfName(call, renames, generated, x);
    case Unary(_, x) => CloneNames(call, renames, generated, x, scope);
    case Binary(a, _, b) =>
      CloneNames(call, renames, generated, a, scope);
      CloneNames(call, renames, generated, b, scope);
    case Assign(t, s) =>
      CloneNames(call, renames, generated, t, scope);
      CloneNames(call, renames, generated, s, scope);
    case Ternary(c, t, f) =>
      CloneNames(call, renames, generated, c, scope);
      CloneNames(call, renames, generated, t, scope);
      CloneNames(call, renames, generated, f, scope);
  }

  lemma CloneNamesOfName(call: Call, renames: Renames, generated: set<string>, x: string)
    requires ArgumentsFit(call, generated)
    ensures Names(CloneExpr(call.params, call.args, renames, true, Name(x))) == NamesMeant(call, renames, x)
  {
    CloneOfName(call, renames, generated, x);
    hide CloneExpr, ParamIndex, ArgumentsFit;
  }

  /** Every name of a statement is in scope when the statement is checked; a declared name comes
      into scope after its initializer. */
  predicate Resolves(body: Body, scope: set<string>) {
    body != [] ==>
      && Names(Source(body[0])) <= scope
      && Resolves(body[1..], if body[0].Declare? then scope + {body[0].name} else scope)
  }

  /** The same for a macro body with locals of its own, in a caller's scope. */
  predicate RefResolves(call: Call, body: Body, caller: set<string>, locals: set<string>) {
    body != [] ==>
      && (forall x :: x in Names(Source(body[0])) && x !in locals ==> NamesMeant(call, map[], x) <= caller)
      && RefResolves(call, body[1..], caller, if body[0].Declare? then locals + {body[0].name} else locals)
  }

  /** The scope of the expansion is the caller's with the generated names of the locals. */
  ghost predicate ScopeFits(scope: set<string>, caller: set<string>, renames: Renames, generated: set<string>) {
    && caller + renames.Values <= scope <= caller + generated && caller !! generated
  }

  lemma StmtResolves(call: Call, body: Body, env: Env, caller: set<string>, renames: Renames, generated: set<string>,
                     scope: set<string>)
    requires Ready(call, body, env, generated) && body != [] && env.Keys == scope
    requires ScopeFits(scope, caller, renames, generated)
    ensures Names(CloneExpr(call.params, call.args, Renames'(body[0], renames), true, Source(body[0]))) <= scope <==>
      && !ReadsItself(body[0])
      && forall x :: x in Names(Source(body[0])) && x !in renames ==> NamesMeant(call, map[], x) <= caller
  {
    ReadyHead(call, body, env, generated);
    var s := body[0];
    var e := Source(s);
    var renames' := Renames'(s, renames);
    CloneNames(call, renames', generated, e, scope);
    hide Ready, CloneExpr, ParamIndex;
    forall x | x in Names(e)
      ensures NamesMeant(call, renames', x) <= scope <==>
        !(s.Declare? && x == s.name) && (x !in renames ==> NamesMeant(call, map[], x) <= caller)
    {
      NameResolves(call, body, renames, generated, caller, scope, x);
    }
  }

  lemma NameResolves(call: Call, body: Body, renames: Renames, generated: set<string>, caller: set<string>,
                     scope: set<string>, x: string)
    requires body != [] && ArgumentsFit(call, generated) && ScopeFits(scope, caller, renames, generated)
    requires x !in generated
    requires body[0].Declare? ==>
      var u := UniqueName(body[0].name, body[0].id); u in generated && u !in scope
    ensures NamesMeant(call, Renames'(body[0], renames), x) <= scope <==>
      !(body[0].Declare? && x == body[0].name) && (x !in renames ==> NamesMeant(call, map[], x) <= caller)
  {
    hide ParamIndex, Names;
    var i := ParamIndex(call.params, call.args, x);
    if i >= 0 {
      ArgumentIsForeign(call, generated, i);
    }
    if x in renames {
      assert renames[x] in renames.Values;
    }
  }

  /** Without any condition on how the body computes: the names of the expansion are in scope
      where the checker looks for them exactly if those of the body are, and no initializer
      mentions the name it declares. */
  lemma {:induction false} BodyResolves(call: Call, body: Body, env: Env, caller: set<string>, renames: Renames,
                                        generated: set<string>)
    requires Ready(call, body, env, generated) && ScopeFits(env.Keys, caller, renames, generated)
    ensures Resolves(CloneBody(call.params, call.args, renames, true, body), env.Keys)
       <==> RefResolves(call, body, caller, renames.Keys) && forall s :: s in body ==> !ReadsItself(s)
    decreases |body|
  {
    if body != [] {
      var u := if body[0].Declare? then UniqueName(body[0].name, body[0].id) else "";
      var env' := if body[0].Declare? then env[u := 0] else env;
      ReadyHead(call, body, env, generated);
      StmtResolves(call, body, env, caller, renames, generated, env.Keys);
      ReadyTail(call, body, env, env', generated);
      ResolvesStep(call, body, env, renames, generated, env.Keys);
      assert body == [body[0]] + body[1..];
      hide Ready, CloneExpr, CloneBody, ReadsItself, Names, Resolves;
      BodyResolves(call, body[1..], env', caller, Renames'(body[0], renames), generated);
      assert renames.Keys + (if body[0].Declare? then {body[0].name} else {}) == Renames'(body[0], renames).Keys;
    }
  }

  lemma ResolvesStep(call: Call, body: Body, env: Env, renames: Renames, generated: set<string>, scope: set<string>)
    requires Ready(call, body, env, generated) && body != []
    ensures var clone, renames' := CloneBody(call.params, call.args, renames, true, body), Renames'(body[0], renames);
      var scope' := if body[0].Declare? then scope + {UniqueName(body[0].name, body[0].id)} else scope;
      Resolves(clone, scope) <==>
        && Names(CloneExpr(call.params, call.args, renames', true, Source(body[0]))) <= scope
        && Resolves(CloneBody(call.params, call.args, renames', true, body[1..]), scope')
  {
    ReadyHead(call, body, env, generated);
    var clone, renames' := CloneBody(call.params, call.args, renames, true, body), Renames'(body[0], renames);
    assert clone[1..] == CloneBody(call.params, call.args, renames', true, body[1..]);
    hide Ready, CloneExpr, Names;
  }

  /** For every hygienic call: the expansion resolves exactly if the body does with locals of its
      own and no initializer mentions the name being declared. */
  lemma ExpansionResolvesExactly(call: Call, body: Body, caller: Env)
    requires Hygienic(call, body, caller)
    ensures Resolves(CloneBody(call.params, call.args, map[], true, body), caller.Keys)
       <==> RefResolves(call, body, caller.Keys, {}) && forall s :: s in body ==> !ReadsItself(s)
  {
    var none: Renames := map[];
    assert none.Keys == {} && none.Values == {};
    HygienicIsReady(call, body, caller);
    assert ScopeFits(caller.Keys, caller.Keys, none, GeneratedIn(body));
    hide CloneBody, Resolves, RefResolves, ReadsItself, Ready, ScopeFits, GeneratedIn;
    BodyResolves(call, body, caller, caller.Keys, none, GeneratedIn(body));
  }

  /** An expansion whose names resolve means what the body means. */
  lemma ResolvedMeansTheSame(ops: Ops, call: Call, body: Body, caller: Env)
    requires Hygienic(call, body, caller)
    requires Resolves(CloneBody(call.params, call.args, map[], true, body), caller.Keys)
    ensures Matches(ExpansionRun(ops, call, body, caller), RefExec(ops, call, body, caller, map[]))
  {
    ExpansionResolvesExactly(call, body, caller);
    ExpansionKeepsMeaning(ops, call, body, caller);
  }
}
