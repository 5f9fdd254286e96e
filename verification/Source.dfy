/**
 * What the source means: an interpreter of the C subset over integers mod 2^64, run on the body with its conversions
 * made explicit.  It fails where the program reads a variable without a value (uninitialised, or a parameter whose
 * register has taken a result), where it assigns a parameter whose register holds a result, where a loop's bound
 * changes while it runs, and on operators outside the subset.  C is less strict: see CSource.
 */
module Source {
  import opened Prelude
  import opened Machine
  import opened Ast
  import opened Conversions

  type Vars = map<string, u64>

  // ----- expressions -----

  /** The value of an expression and the memory after it. */
  datatype Val = Val(v: u64, mem: Mem)

  function Truth(b: bool): u64 { if b then 1 else 0 }

  function BinValue(op: BinOp, a: u64, b: u64): Result<u64> {
    match op
    case BitOr => Ok(Bitwise(BOR, a, b))
    case BitXor => Ok(Bitwise(BXOR, a, b))
    case BitAnd => Ok(Bitwise(BAND, a, b))
    case Equal => Ok(Truth(a == b))
    case NotEqual => Ok(Truth(a != b))
    case Less => Ok(Truth(a < b))
    case GreaterEqual => Ok(Truth(a >= b))
    case LessEqual => Ok(Truth(a <= b))
    case Greater => Ok(Truth(a > b))
    case ShiftL => Ok(ShiftLeft(a, b))
    case ShiftR => Ok(ShiftRight(a, b))
    case Plus => Ok(Mask64(a + b))
    case Minus => Ok(Mask64(a - b))
    case Times => Ok(Mask64(a * b))
    case Divide => if b == 0 then Err else Ok(Quotient(a, b))
    case Modulo => if b == 0 then Err else Ok(a % b)
  }

  function Quotient(a: u64, b: u64): u64
    requires b > 0
  {
    QuotientFits(a, b);
    a / b
  }

  lemma QuotientFits(a: nat, b: nat)
    requires b > 0
    ensures 0 <= a / b <= a
  {
    assert a == b * (a / b) + a % b;
    if a / b > a { MulAtLeast(b, a / b); }
  }

  function UnValue(op: UnOp, a: u64): u64 {
    match op
    case Negate => Mask64(0 - a as int)
    case LogicalNot => Truth(a == 0)
    case Complement => U64_MAX - a
  }

  /** The address of 8-byte element `i` from `base`. */
  function Element(base: u64, i: u64): u64 { Mask64(base + i * 8) }

  function Eval(e: Expr, vars: Vars, mem: Mem): Result<Val>
    decreases e
  {
    match e
    case Const(v) => Ok(Val(Mask64(v), mem))
    case Id(name) => if name in vars then Ok(Val(vars[name], mem)) else Err
    case Bin(op, l, r) =>
      var x :- Eval(l, vars, mem);
      var y :- Eval(r, vars, x.mem);
      var v :- BinValue(op, x.v, y.v);
      Ok(Val(v, y.mem))
    case Un(op, inner) =>
      var x :- Eval(inner, vars, mem);
      Ok(Val(UnValue(op, x.v), x.mem))
    case Index(base, index) =>
      if !base.Id? || base.name !in vars then Err
      else
        var i :- Eval(index, vars, mem);
        Ok(Val(Load(i.mem, Element(vars[base.name], i.v)), i.mem))
    case Call(fn, args) => EvalCall(fn, args, vars, mem)
    case Cast(_, inner) => Eval(inner, vars, mem)
  }

  /** The builtins that are expressions; `tiara_set_result` is a statement. */
  function EvalCall(fn: string, args: seq<Expr>, vars: Vars, mem: Mem): Result<Val>
    decreases args
  {
    if fn == "tiara_andi" && |args| == 2 then
      var x :- Eval(args[0], vars, mem);
      var m :- Eval(args[1], vars, x.mem);
      Ok(Val(Bitwise(BAND, x.v, m.v), m.mem))
    else if fn == "tiara_memcpy" && |args| == 4 then
      var d :- Eval(args[0], vars, mem);
      var s :- Eval(args[1], vars, d.mem);
      var length :- RequireConst(args[2]);
      var _ :- RequireConst(args[3]);
      Ok(Val(0, Memcpy(s.mem, d.v, s.v, length)))
    else if fn == "tiara_cas" && |args| == 3 then
      var x :- Eval(args[0], vars, mem);
      var e :- Eval(args[1], vars, x.mem);
      var n :- Eval(args[2], vars, e.mem);
      var cur := Load(n.mem, x.v);
      Ok(Val(cur, if cur == e.v then n.mem[x.v := n.v] else n.mem))
    else if fn == "tiara_caa" && |args| == 2 then
      var x :- Eval(args[0], vars, mem);
      var y :- Eval(args[1], vars, x.mem);
      var cur := Load(y.mem, x.v);
      Ok(Val(cur, y.mem[x.v := Mask64(cur as int + y.v as int)]))
    else if fn == "tiara_wait" && |args| == 1 then
      var _ :- RequireConst(args[0]);
      Ok(Val(0, mem))
    else Err
  }

  // ----- statements -----

  /** Variables with a value, memory, and the result slots set so far. */
  datatype Env = Env(vars: Vars, mem: Mem, out: map<int, u64>)

  datatype Done = Done(env: Env, returned: bool)

  /** The result slot that shares a register with parameter `name`, or 0. */
  function SlotOf(params: seq<Param>, name: string): int {
    if params == [] then 0
    else if params[|params| - 1].name == name then |params|
    else SlotOf(params[..|params| - 1], name)
  }

  /** Assigning a parameter would overwrite the result in its register. */
  function SetVar(params: seq<Param>, env: Env, name: string, v: u64): Result<Env> {
    if SlotOf(params, name) in env.out then Err else Ok(env.(vars := env.vars[name := v]))
  }

  /** Setting a result takes the value from the parameter in its register. */
  function SetResult(params: seq<Param>, env: Env, slot: int, v: u64): Env {
    var taken := if 1 <= slot <= |params| then {params[slot - 1].name} else {};
    env.(vars := env.vars - taken, out := env.out[slot := v])
  }

  /** `lhs op= rhs`.  The target's index is evaluated once, then the old value is read, then `rhs` evaluated. */
  function ExecAssign(params: seq<Param>, op: AssignOp, lhs: Expr, rhs: Expr, env: Env): Result<Env> {
    if lhs.Id? then
      var x :- Eval(if op.Set? then rhs else Bin(FoldedMeaning(op), lhs, rhs), env.vars, env.mem);
      SetVar(params, env.(mem := x.mem), lhs.name, x.v)
    else if lhs.Index? && lhs.base.Id? && lhs.base.name in env.vars then
      var i :- Eval(lhs.index, env.vars, env.mem);
      var at := Element(env.vars[lhs.base.name], i.v);
      var x :- Eval(rhs, env.vars, i.mem);
      var v :- if op.Set? then Ok(x.v) else BinValue(FoldedMeaning(op), Load(i.mem, at), x.v);
      Ok(env.(mem := x.mem[at := v]))
    else Err
  }

  function ExecStmt(params: seq<Param>, s: Stmt, env: Env): Result<Done>
    decreases s, 1, 0
  {
    match s
    case Decl(name, _, init) =>
      var env1 := env.(vars := env.vars - {name});
      if init.None? then Ok(Done(env1, false))
      else
        var x :- Eval(init.value, env1.vars, env1.mem);
        Ok(Done(Env(env1.vars[name := x.v], x.mem, env1.out), false))
    case Assign(op, lhs, rhs) =>
      var env1 :- ExecAssign(params, op, lhs, rhs, env);
      Ok(Done(env1, false))
    case For(ind, bound, body) =>
      var n :- Eval(bound, env.vars[ind := 0], env.mem);
      ExecFor(params, ind, bound, body, 0, n.v, env)
    case If(cond, body) =>
      var c :- Eval(cond, env.vars, env.mem);
      if c.v != 0 then ExecBlock(params, body, env.(mem := c.mem)) else Ok(Done(env.(mem := c.mem), false))
    case Return(value) =>
      if value.None? then Ok(Done(env, true))
      else
        var x :- Eval(value.value, env.vars, env.mem);
        Ok(Done(SetResult(params, env.(mem := x.mem), 1, x.v), true))
    case ExprCall(call) =>
      if !call.Call? then Err
      else if call.fn == "tiara_set_result" && |call.args| == 2 then
        var slot :- RequireConst(call.args[0]);
        var x :- Eval(call.args[1], env.vars, env.mem);
        Ok(Done(SetResult(params, env.(mem := x.mem), slot, x.v), false))
      else
        var x :- Eval(call, env.vars, env.mem);
        Ok(Done(env.(mem := x.mem), false))
    case IncDec(target, delta) =>
      if target !in env.vars then Err
      else
        var env1 :- SetVar(params, env, target, Mask64(env.vars[target] + delta));
        Ok(Done(env1, false))
  }

  function ExecBlock(params: seq<Param>, ss: seq<Stmt>, env: Env): Result<Done>
    decreases ss, 0, 0
  {
    if ss == [] then Ok(Done(env, false))
    else
      var r :- ExecStmt(params, ss[0], env);
      if r.returned then Ok(r) else ExecBlock(params, ss[1..], r.env)
  }

  /**
   * `for (int ind = k; ind < bound; ind++) body`, the bound evaluated afresh at every test: it must have no
   * effect and keep the value `n` it had at entry, and the body must leave the induction variable alone.
   */
  function ExecFor(
    params: seq<Param>, ind: string, bound: Expr, body: seq<Stmt>, k: nat, n: u64, env: Env): Result<Done>
    requires k <= n
    decreases body, 1, n - k
  {
    var env1 := env.(vars := env.vars[ind := k]);
    var b :- Eval(bound, env1.vars, env1.mem);
    if b.v != n || b.mem != env1.mem then Err
    else if k == n then Ok(Done(env.(vars := env.vars - {ind}), false))
    else
      var r :- ExecBlock(params, body, env1);
      if r.returned then Ok(r)
      else if ind !in r.env.vars || r.env.vars[ind] != k then Err
      else ExecFor(params, ind, bound, body, k + 1, n, r.env)
  }

  /** Parameters take the arguments in order, zero when there are fewer. */
  function Bind(params: seq<Param>, args: seq<int>): Vars {
    if params == [] then map[]
    else
      var n := |params| - 1;
      Bind(params[..n], args)[params[n].name := if n < |args| then Mask64(args[n]) else 0]
  }

  function RunSource(fn: FuncDef, args: seq<int>, mem: Mem): Result<Env> {
    var body :- ExplicitBody(fn);
    var r :- ExecBlock(fn.params, body, Env(Bind(fn.params, args), mem, map[]));
    Ok(r.env)
  }
}
