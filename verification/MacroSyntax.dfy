/** Macro bodies made of local declarations and expressions, and what they mean. */
module MacroSyntax {

  /** A compound assignment is the assignment of an operation on its target, as lowering takes it
      apart; so are increments before a name. */
  datatype Expr =
    | Number(value: int)
    | Name(name: string)
    | Unary(uop: string, operand: Expr)
    | Binary(left: Expr, op: string, right: Expr)
    | Assign(target: Expr, source: Expr)
    | Ternary(condition: Expr, whenTrue: Expr, whenFalse: Expr)

  /** `id` stands for the address of the declaration node. */
  datatype Stmt =
    | Declare(name: string, id: nat, init: Expr)
    | Evaluate(expr: Expr)

  type Body = seq<Stmt>

  function Names(e: Expr): set<string> {
    match e
    case Number(_) => {}
    case Name(x) => {x}
    case Unary(_, x) => Names(x)
    case Binary(a, _, b) => Names(a) + Names(b)
    case Assign(t, s) => Names(t) + Names(s)
    case Ternary(c, t, f) => Names(c) + Names(t) + Names(f)
  }

  /** The operators that may leave their right operand unevaluated. */
  predicate MayStop(op: string) {
    op == "&&" || op == "||" || op == "??"
  }

  /** No part of the expression is evaluated conditionally. */
  predicate Strict(e: Expr) {
    match e
    case Number(_) => true
    case Name(_) => true
    case Unary(_, x) => Strict(x)
    case Binary(a, op, b) => !MayStop(op) && Strict(a) && Strict(b)
    case Assign(t, s) => Strict(t) && Strict(s)
    case Ternary(_, _, _) => false
  }

  // ---------------------------------------------------------------- evaluation in one environment

  type Env = map<string, int>

  /** The operators, whatever they compute, and whether and with what result `&&`, `||` and `??`
      stop after their left operand. */
  datatype Ops = Ops(unary: (string, int) -> int, binary: (string, int, int) -> int,
                     stops: (string, int) -> bool, alone: (string, int) -> int)
  {
    predicate Stops(op: string, v: int) {
      MayStop(op) && stops(op, v)
    }
  }

  datatype Result = Fail | Value(value: int, env: Env)

  function Eval(ops: Ops, e: Expr, env: Env): (r: Result)
    ensures r.Value? ==> r.env.Keys == env.Keys
  {
    match e
    case Number(n) => Value(n, env)
    case Name(x) => if x in env then Value(env[x], env) else Fail
    case Unary(op, x) =>
      (match Eval(ops, x, env)
       case Value(v, env1) => Value(ops.unary(op, v), env1)
       case Fail => Fail)
    case Binary(a, op, b) =>
      (match Eval(ops, a, env)
       case Value(v, env1) =>
         if ops.Stops(op, v) then Value(ops.alone(op, v), env1) else
         (match Eval(ops, b, env1)
          case Value(w, env2) => Value(ops.binary(op, v, w), env2)
          case Fail => Fail)
       case Fail => Fail)
    case Assign(t, s) =>
      (match Eval(ops, s, env)
       case Value(v, env1) => if t.Name? && t.name in env1 then Value(v, env1[t.name := v]) else Fail
       case Fail => Fail)
    case Ternary(c, t, f) =>
      (match Eval(ops, c, env)
       case Value(v, env1) => Eval(ops, if v != 0 then t else f, env1)
       case Fail => Fail)
  }

  datatype Outcome = Stuck | Done(values: seq<int>, env: Env)

  /** A declared name is in scope after its initializer. */
  function Exec(ops: Ops, body: Body, env: Env): Outcome {
    if body == [] then Done([], env)
    else
      match Eval(ops, if body[0].Declare? then body[0].init else body[0].expr, env)
      case Fail => Stuck
      case Value(v, env1) =>
        var env2 := if body[0].Declare? then env1[body[0].name := v] else env1;
        match Exec(ops, body[1..], env2)
        case Stuck => Stuck
        case Done(vs, env3) => Done([v] + vs, env3)
  }

  // ---------------------------------------------------------------- what a macro call means

  /** A macro call: parameter names and the argument expressions. */
  datatype Call = Call(params: seq<string>, args: seq<Expr>)

  /** The first parameter of that name that has an argument; -1 if there is none. */
  function ParamIndex(params: seq<string>, args: seq<Expr>, name: string, from: nat := 0): (i: int)
    ensures i == -1 || from <= i < |params|
    ensures 0 <= i ==> i < |args| && params[i] == name && name in params
    ensures 0 <= i ==> forall k :: from <= k < i ==> params[k] != name
    ensures i == -1 ==> forall k :: from <= k < |params| && k < |args| ==> params[k] != name
    decreases |params| - from
  {
    if from >= |params| then -1
    else if params[from] == name && from < |args| then from
    else ParamIndex(params, args, name, from + 1)
  }

  datatype RefResult = RefFail | RefValue(value: int, caller: Env, locals: Env)

  /** Evaluation of a macro body with its own locals. A parameter stands for its argument,
      evaluated in the caller's environment; any other name is the caller's. */
  function RefEval(ops: Ops, call: Call, e: Expr, caller: Env, locals: Env): (r: RefResult)
    ensures r.RefValue? ==> r.caller.Keys == caller.Keys && r.locals.Keys == locals.Keys
    decreases e
  {
    match e
    case Number(n) => RefValue(n, caller, locals)
    case Name(x) =>
      if x in locals then RefValue(locals[x], caller, locals)
      else
        var i := ParamIndex(call.params, call.args, x);
        var meant := if i >= 0 then call.args[i] else e;
        (match Eval(ops, meant, caller)
         case Value(v, caller1) => RefValue(v, caller1, locals)
         case Fail => RefFail)
    case Unary(op, x) =>
      (match RefEval(ops, call, x, caller, locals)
       case RefValue(v, c1, l1) => RefValue(ops.unary(op, v), c1, l1)
       case RefFail => RefFail)
    case Binary(a, op, b) =>
      (match RefEval(ops, call, a, caller, locals)
       case RefValue(v, c1, l1) =>
         if ops.Stops(op, v) then RefValue(ops.alone(op, v), c1, l1) else
         (match RefEval(ops, call, b, c1, l1)
          case RefValue(w, c2, l2) => RefValue(ops.binary(op, v, w), c2, l2)
          case RefFail => RefFail)
       case RefFail => RefFail)
    case Assign(t, s) =>
      (match RefEval(ops, call, s, caller, locals)
       case RefValue(v, c1, l1) => RefStore(call, t, v, c1, l1)
       case RefFail => RefFail)
    case Ternary(c, t, f) =>
      (match RefEval(ops, call, c, caller, locals)
       case RefValue(v, c1, l1) => if v != 0 then RefEval(ops, call, t, c1, l1) else RefEval(ops, call, f, c1, l1)
       case RefFail => RefFail)
  }

  /** Assigning to a local, to the variable that an argument names, or to the caller's. */
  function RefStore(call: Call, target: Expr, v: int, caller: Env, locals: Env): (r: RefResult)
    ensures r.RefValue? ==> r.caller.Keys == caller.Keys && r.locals.Keys == locals.Keys
  {
    if !target.Name? then RefFail
    else if target.name in locals then RefValue(v, caller, locals[target.name := v])
    else
      var i := ParamIndex(call.params, call.args, target.name);
      var meant := if i >= 0 then call.args[i] else target;
      if meant.Name? && meant.name in caller then RefValue(v, caller[meant.name := v], locals) else RefFail
  }

  datatype RefOutcome = RefStuck | RefDone(values: seq<int>, caller: Env)

  function RefExec(ops: Ops, call: Call, body: Body, caller: Env, locals: Env): RefOutcome {
    if body == [] then RefDone([], caller)
    else
      match RefEval(ops, call, if body[0].Declare? then body[0].init else body[0].expr, caller, locals)
      case RefFail => RefStuck
      case RefValue(v, caller1, locals1) =>
        var locals2 := if body[0].Declare? then locals1[body[0].name := v] else locals1;
        match RefExec(ops, call, body[1..], caller1, locals2)
        case RefStuck => RefStuck
        case RefDone(vs, caller2) => RefDone([v] + vs, caller2)
  }
}
