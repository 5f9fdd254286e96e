/**
 * C's meaning of statements and functions, knowing nothing of registers: results and parameters share no storage, a
 * loop tests its bound afresh and steps its variable, and names end with their block.  The interpreter agrees wherever
 * it gives a meaning at all.
 */
module CSource {
  import opened Prelude
  import opened Machine
  import opened Ast
  import opened Conversions
  import opened Source

  /** More tests than these, and a 64-bit variable has overflowed. */
  const MOST_TESTS: nat := 0x1_0000_0000_0000_0000

  function CAssign(op: AssignOp, lhs: Expr, rhs: Expr, env: Env): Result<Env> {
    if lhs.Id? then
      var x :- Eval(if op.Set? then rhs else Bin(FoldedMeaning(op), lhs, rhs), env.vars, env.mem);
      Ok(Env(env.vars[lhs.name := x.v], x.mem, env.out))
    else if lhs.Index? && lhs.base.Id? && lhs.base.name in env.vars then
      var i :- Eval(lhs.index, env.vars, env.mem);
      var at := Element(env.vars[lhs.base.name], i.v);
      var x :- Eval(rhs, env.vars, i.mem);
      var v :- if op.Set? then Ok(x.v) else BinValue(FoldedMeaning(op), Load(i.mem, at), x.v);
      Ok(env.(mem := x.mem[at := v]))
    else Err
  }

  /** The names a block declares for itself. */
  function Declared(ss: seq<Stmt>): set<string> {
    if ss == [] then {} else (if ss[0].Decl? then {ss[0].name} else {}) + Declared(ss[1..])
  }

  /** Leaving a block: the names declared in it end, and those they hid are back. */
  function Leave(outer: Vars, names: set<string>, inner: Env): Env {
    var hidden := map x | x in names && x in outer :: outer[x];
    inner.(vars := inner.vars - names + hidden)
  }

  function CStmt(s: Stmt, env: Env): Result<Done>
    decreases s, 1, 0
  {
    match s
    case Decl(name, _, init) =>
      var env1 := env.(vars := env.vars - {name});
      if init.None? then Ok(Done(env1, false))
      else
        var x :- Eval(init.value, env1.vars, env1.mem);
        Ok(Done(Env(env1.vars[name := x.v], x.mem, env1.out), false))
    case Assign(op, lhs, rhs) =>
      var env1 :- CAssign(op, lhs, rhs, env);
      Ok(Done(env1, false))
    case For(ind, bound, body) =>
      var r :- CFor(ind, bound, body, env.(vars := env.vars[ind := 0]), MOST_TESTS);
      Ok(r.(env := Leave(env.vars, {ind}, r.env)))
    case If(cond, body) =>
      var c :- Eval(cond, env.vars, env.mem);
      if c.v == 0 then Ok(Done(env.(mem := c.mem), false))
      else
        var r :- CBlock(body, env.(mem := c.mem));
        Ok(r.(env := Leave(env.vars, Declared(body), r.env)))
    case Return(value) =>
      if value.None? then Ok(Done(env, true))
      else
        var x :- Eval(value.value, env.vars, env.mem);
        Ok(Done(Env(env.vars, x.mem, env.out[1 := x.v]), true))
    case ExprCall(call) =>
      if !call.Call? then Err
      else if call.fn == "tiara_set_result" && |call.args| == 2 then
        var slot :- RequireConst(call.args[0]);
        var x :- Eval(call.args[1], env.vars, env.mem);
        Ok(Done(Env(env.vars, x.mem, env.out[slot := x.v]), false))
      else
        var x :- Eval(call, env.vars, env.mem);
        Ok(Done(env.(mem := x.mem), false))
    case IncDec(target, delta) =>
      if target !in env.vars then Err
      else Ok(Done(env.(vars := env.vars[target := Mask64(env.vars[target] + delta)]), false))
  }

  function CBlock(ss: seq<Stmt>, env: Env): Result<Done>
    decreases ss, 0, 0
  {
    if ss == [] then Ok(Done(env, false))
    else
      var r :- CStmt(ss[0], env);
      if r.returned then Ok(r) else CBlock(ss[1..], r.env)
  }

  /** Test, run the body, step: as often as the test holds, within `left` tests. */
  function CFor(ind: string, bound: Expr, body: seq<Stmt>, env: Env, left: nat): Result<Done>
    decreases body, 1, left
  {
    if left == 0 || ind !in env.vars then Err
    else
      var n :- Eval(bound, env.vars, env.mem);
      if env.vars[ind] >= n.v then Ok(Done(env.(mem := n.mem), false))
      else
        var r :- CBlock(body, env.(mem := n.mem));
        var after := Leave(env.vars, Declared(body), r.env);
        if r.returned then Ok(r)
        else if ind !in after.vars then Err
        else
          var next := after.vars[ind := Mask64(after.vars[ind] as int + 1)];
          CFor(ind, bound, body, after.(vars := next), left - 1)
  }

  function CRun(fn: FuncDef, args: seq<int>, mem: Mem): Result<Env> {
    var body :- ExplicitBody(fn);
    var r :- CBlock(body, Env(Bind(fn.params, args), mem, map[]));
    Ok(r.env)
  }

  // ----- explicit bodies use names as C's scopes want -----

  lemma {:induction false} ExplicitReads(ks: Kinds, e: Expr)
    requires Explicit(ks, e).Ok?
    ensures Reads(Explicit(ks, e).value.e) <= ks.Keys
    decreases e
  {
    hide ExplicitBin, Convert, KindOf, UnKind;
    match e
    case Bin(op, l, r) =>
      ExplicitReads(ks, l);
      ExplicitReads(ks, r);
      BinReads(op, Explicit(ks, l).value, Explicit(ks, r).value);
    case Un(_, inner) => ExplicitReads(ks, inner);
    case Index(base, index) =>
      ExplicitReads(ks, base);
      ExplicitReads(ks, index);
    case Call(_, args) => ExplicitReadsAll(ks, args);
    case Cast(ty, inner) =>
      ExplicitReads(ks, inner);
      ConvertReads(ty, Explicit(ks, inner).value);
    case _ =>
  }

  lemma {:induction false} ExplicitReadsAll(ks: Kinds, args: seq<Expr>)
    requires ExplicitArgs(ks, args).Ok?
    ensures ReadsAll(ExplicitArgs(ks, args).value) <= ks.Keys
    decreases args
  {
    hide Explicit, Reads;
    if args != [] {
      ExplicitReads(ks, args[0]);
      ExplicitReadsAll(ks, args[1..]);
      var e, rest := Explicit(ks, args[0]).value.e, ExplicitArgs(ks, args[1..]).value;
      assert ([e] + rest)[1..] == rest;
    }
  }

  lemma BinReads(op: BinOp, x: Typed, y: Typed)
    requires ExplicitBin(op, x, y).Ok?
    ensures var e := ExplicitBin(op, x, y).value.e; Reads(e.l) == Reads(x.e) && Reads(e.r) == Reads(y.e)
  {
    hide Comparable, ArithKind, SizeOf;
  }

  lemma ConvertReads(ty: CType, x: Typed)
    requires Convert(ty, x).Ok?
    ensures Reads(Convert(ty, x).value.e) == Reads(x.e)
  {
    hide BitsOf, KindOf, IsUnsigned, Pow2, TryConst;
  }

  lemma RhsReads(op: AssignOp, lhs: Typed, rhs: Typed)
    requires ExplicitRhs(op, lhs, rhs).Ok?
    ensures Reads(ExplicitRhs(op, lhs, rhs).value) == Reads(rhs.e)
  {
    hide ExplicitBin, Reads;
    if !op.Set? { BinReads(FoldedMeaning(op), lhs, rhs); }
  }

  lemma {:induction false} ExplicitNames(ks: Kinds, s: Stmt)
    requires ExplicitStmt(ks, s).Ok?
    ensures var (t, ks1) := ExplicitStmt(ks, s).value; NamesOk(ks.Keys, t) && ks1.Keys == ScopeAfter(ks.Keys, t)
    decreases s, 1
  {
    hide Explicit, ExplicitRhs, KindOf, Comparable, SizeOf, Reads;
    match s
    case Decl(_, _, init) =>
      if init.Some? { ExplicitReads(ks, init.value); }
    case Assign(op, lhs, rhs) =>
      ExplicitReads(ks, lhs);
      ExplicitReads(ks, rhs);
      RhsReads(op, Explicit(ks, lhs).value, Explicit(ks, rhs).value);
    case For(ind, bound, body) =>
      ExplicitReads(ks[ind := Natural], bound);
      ExplicitBlockNames(ks[ind := Natural], body);
      assert ks[ind := Natural].Keys == ks.Keys + {ind};
    case If(cond, body) =>
      ExplicitReads(ks, cond);
      ExplicitBlockNames(ks, body);
    case Return(value) =>
      if value.Some? { ExplicitReads(ks, value.value); }
    case ExprCall(call) => ExplicitReads(ks, call);
    case IncDec(_, _) =>
  }

  lemma {:induction false} ExplicitBlockNames(ks: Kinds, ss: seq<Stmt>)
    requires ExplicitBlock(ks, ss).Ok?
    ensures BlockNamesOk(ks.Keys, ExplicitBlock(ks, ss).value)
    decreases ss, 0
  {
    hide ExplicitStmt, NamesOk;
    if ss != [] {
      var (t, ks1) := ExplicitStmt(ks, ss[0]).value;
      ExplicitNames(ks, ss[0]);
      ExplicitBlockNames(ks1, ss[1..]);
      var rest := ExplicitBlock(ks1, ss[1..]).value;
      assert ([t] + rest)[1..] == rest;
    }
  }

  // ----- the interpreter gives C's meaning wherever it gives one -----

  /** Of the given names, those with a value have the same one. */
  predicate Covers(names: set<string>, more: Vars, vars: Vars) {
    forall x :: x in names && x in vars ==> x in more && more[x] == vars[x]
  }

  /** The same memory and results, and at least those variables. */
  predicate Knows(names: set<string>, c: Env, env: Env) {
    c.mem == env.mem && c.out == env.out && Covers(names, c.vars, env.vars)
  }

  lemma CoversOne(names: set<string>, more: Vars, vars: Vars, name: string)
    requires Covers(names, more, vars) && name in names && name in vars
    ensures name in more && more[name] == vars[name]
  {
  }

  lemma {:induction false} EvalMore(e: Expr, names: set<string>, vars: Vars, more: Vars, mem: Mem)
    requires Covers(names, more, vars) && Reads(e) <= names && Eval(e, vars, mem).Ok?
    ensures Eval(e, more, mem) == Eval(e, vars, mem)
    decreases e
  {
    hide BinValue, UnValue, Element, EvalCall, Covers, ReadsAll;
    match e
    case Const(_) =>
    case Id(name) => CoversOne(names, more, vars, name);
    case Bin(_, l, r) =>
      EvalMore(l, names, vars, more, mem);
      EvalMore(r, names, vars, more, Eval(l, vars, mem).value.mem);
    case Un(_, inner) => EvalMore(inner, names, vars, more, mem);
    case Index(base, index) =>
      CoversOne(names, more, vars, base.name);
      EvalMore(index, names, vars, more, mem);
    case Call(fn, args) => CallMore(fn, args, names, vars, more, mem);
    case Cast(_, inner) => EvalMore(inner, names, vars, more, mem);
  }

  lemma {:induction false} CallMore(
    fn: string, args: seq<Expr>, names: set<string>, vars: Vars, more: Vars, mem: Mem)
    requires Covers(names, more, vars) && ReadsAll(args) <= names && EvalCall(fn, args, vars, mem).Ok?
    ensures EvalCall(fn, args, more, mem) == EvalCall(fn, args, vars, mem)
    decreases args
  {
    hide Eval, Memcpy, Bitwise, Covers, Mask64, Reads, ReadsAll;
    if fn != "tiara_wait" {
      ReadsArg(args, 0);
      ReadsArg(args, 1);
      EvalMore(args[0], names, vars, more, mem);
      var m1 := Eval(args[0], vars, mem).value.mem;
      EvalMore(args[1], names, vars, more, m1);
      if fn == "tiara_cas" {
        ReadsArg(args, 2);
        EvalMore(args[2], names, vars, more, Eval(args[1], vars, m1).value.mem);
      }
    }
  }

  lemma AssignIsC(
    params: seq<Param>, names: set<string>, op: AssignOp, lhs: Expr, rhs: Expr, env: Env, c: Env)
    requires Knows(names, c, env) && Reads(lhs) <= names && Reads(rhs) <= names
    requires ExecAssign(params, op, lhs, rhs, env).Ok?
    ensures CAssign(op, lhs, rhs, c).Ok?
    ensures Knows(names, CAssign(op, lhs, rhs, c).value, ExecAssign(params, op, lhs, rhs, env).value)
  {
    hide Eval, BinValue, Element;
    if lhs.Id? {
      EvalMore(if op.Set? then rhs else Bin(FoldedMeaning(op), lhs, rhs), names, env.vars, c.vars, env.mem);
    } else {
      EvalMore(lhs.index, names, env.vars, c.vars, env.mem);
      EvalMore(rhs, names, env.vars, c.vars, Eval(lhs.index, env.vars, env.mem).value.mem);
    }
  }

  /** A block declares only names that are not in scope, so leaving it changes nothing that is. */
  lemma {:induction false} DeclaredNew(scope: set<string>, ss: seq<Stmt>)
    requires BlockNamesOk(scope, ss)
    ensures Declared(ss) !! scope
    decreases ss
  {
    hide NamesOk;
    if ss != [] {
      DeclaredNew(ScopeAfter(scope, ss[0]), ss[1..]);
      if ss[0].Decl? { DeclNew(scope, ss[0]); }
    }
  }

  lemma DeclNew(scope: set<string>, s: Stmt)
    requires NamesOk(scope, s) && s.Decl?
    ensures s.name !in scope
  {
  }

  lemma LeaveKnows(names: set<string>, declared: set<string>, outer: Vars, c: Env, env: Env)
    requires Knows(names, c, env) && declared !! names
    ensures Knows(names, Leave(outer, declared, c), env)
  {
  }

  lemma KnowsFewer(names: set<string>, fewer: set<string>, c: Env, env: Env)
    requires Knows(names, c, env) && fewer <= names
    ensures Knows(fewer, c, env)
  {
  }

  lemma {:induction false} StmtIsC(params: seq<Param>, names: set<string>, s: Stmt, env: Env, c: Env)
    requires Knows(names, c, env) && NamesOk(names, s) && ExecStmt(params, s, env).Ok?
    ensures var r := ExecStmt(params, s, env).value;
            && CStmt(s, c).Ok? && CStmt(s, c).value.returned == r.returned
            && Knows(ScopeAfter(names, s), CStmt(s, c).value.env, r.env)
    decreases s, 1, 0
  {
    hide Eval, ExecAssign, CAssign, Reads, Leave, ExecBlock, CBlock, ExecFor, CFor, BlockNamesOk;
    match s
    case Decl(name, _, init) =>
      if init.Some? { EvalMore(init.value, names, env.vars - {name}, c.vars - {name}, env.mem); }
    case Assign(op, lhs, rhs) => AssignIsC(params, names, op, lhs, rhs, env, c);
    case For(ind, bound, body) =>
      var n := Eval(bound, env.vars[ind := 0], env.mem).value.v;
      ForIsC(params, names, ind, bound, body, 0, n, env, c, MOST_TESTS);
      var r := CFor(ind, bound, body, c.(vars := c.vars[ind := 0]), MOST_TESTS).value;
      LeaveKnows(names, {ind}, c.vars, r.env, ExecFor(params, ind, bound, body, 0, n, env).value.env);
    case If(cond, body) =>
      EvalMore(cond, names, env.vars, c.vars, env.mem);
      var x := Eval(cond, env.vars, env.mem).value;
      if x.v != 0 {
        var (env1, c1) := (env.(mem := x.mem), c.(mem := x.mem));
        BlockIsC(params, names, body, env1, c1);
        DeclaredNew(names, body);
        LeaveKnows(names, Declared(body), c.vars, CBlock(body, c1).value.env, ExecBlock(params, body, env1).value.env);
      }
    case Return(value) =>
      if value.Some? { EvalMore(value.value, names, env.vars, c.vars, env.mem); }
    case ExprCall(call) => CallIsC(params, names, call, env, c);
    case IncDec(_, _) =>
  }

  lemma CallIsC(params: seq<Param>, names: set<string>, call: Expr, env: Env, c: Env)
    requires Knows(names, c, env) && Reads(call) <= names && ExecStmt(params, ExprCall(call), env).Ok?
    ensures var (s, r) := (ExprCall(call), ExecStmt(params, ExprCall(call), env).value);
            CStmt(s, c).Ok? && !r.returned && !CStmt(s, c).value.returned && Knows(names, CStmt(s, c).value.env, r.env)
  {
    hide Eval;
    if call.fn == "tiara_set_result" && |call.args| == 2 {
      assert Reads(call) == ReadsAll(call.args);
      ReadsArg(call.args, 1);
      EvalMore(call.args[1], names, env.vars, c.vars, env.mem);
    } else {
      EvalMore(call, names, env.vars, c.vars, env.mem);
    }
  }

  lemma {:induction false} BlockIsC(params: seq<Param>, names: set<string>, ss: seq<Stmt>, env: Env, c: Env)
    requires Knows(names, c, env) && BlockNamesOk(names, ss) && ExecBlock(params, ss, env).Ok?
    ensures var r := ExecBlock(params, ss, env).value;
            && CBlock(ss, c).Ok? && CBlock(ss, c).value.returned == r.returned
            && Knows(names, CBlock(ss, c).value.env, r.env)
    decreases ss, 0, 0
  {
    hide ExecStmt, CStmt, Knows, NamesOk;
    if ss != [] {
      StmtIsC(params, names, ss[0], env, c);
      var (r, rc, names1) := (ExecStmt(params, ss[0], env).value, CStmt(ss[0], c).value, ScopeAfter(names, ss[0]));
      if r.returned {
        KnowsFewer(names1, names, rc.env, r.env);
      } else {
        BlockIsC(params, names1, ss[1..], r.env, rc.env);
        KnowsFewer(names1, names, CBlock(ss[1..], rc.env).value.env, ExecBlock(params, ss[1..], r.env).value.env);
      }
    }
  }

  /** From iteration `k` of `n` on, with that many tests left. */
  lemma {:induction false} ForIsC(
    params: seq<Param>, names: set<string>, ind: string, bound: Expr, body: seq<Stmt>, k: nat, n: u64, env: Env,
    c: Env, left: nat)
    requires k <= n < k + left && Knows(names, c, env) && NamesOk(names, For(ind, bound, body))
    requires ExecFor(params, ind, bound, body, k, n, env).Ok?
    ensures var (r, f) := (ExecFor(params, ind, bound, body, k, n, env).value,
                           CFor(ind, bound, body, c.(vars := c.vars[ind := k]), left));
            f.Ok? && f.value.returned == r.returned && Knows(names, f.value.env, r.env)
    decreases body, 1, n - k
  {
    hide Eval, ExecBlock, CBlock, ExecFor, CFor, BlockNamesOk, Leave, Reads, Declared;
    var (env1, c1, names1) := (env.(vars := env.vars[ind := k]), c.(vars := c.vars[ind := k]), names + {ind});
    ExecForStep(params, ind, bound, body, k, n, env);
    EvalMore(bound, names1, env1.vars, c1.vars, env.mem);
    CForStep(ind, bound, body, c1, left);
    if k < n {
      BlockIsC(params, names1, body, env1, c1);
      DeclaredNew(names1, body);
      var r, rc := ExecBlock(params, body, env1).value, CBlock(body, c1).value;
      if !r.returned {
        var after := Leave(c1.vars, Declared(body), rc.env);
        LeaveKnows(names1, Declared(body), c1.vars, rc.env, r.env);
        ForIsC(params, names, ind, bound, body, k + 1, n, r.env, after, left - 1);
      }
    }
  }

  lemma ExecForStep(params: seq<Param>, ind: string, bound: Expr, body: seq<Stmt>, k: nat, n: u64, env: Env)
    requires k <= n && ExecFor(params, ind, bound, body, k, n, env).Ok?
    ensures var env1 := env.(vars := env.vars[ind := k]);
            && Eval(bound, env1.vars, env.mem) == Ok(Val(n, env.mem))
            && (k == n ==>
                  ExecFor(params, ind, bound, body, k, n, env) == Ok(Done(env.(vars := env.vars - {ind}), false)))
    ensures k < n ==> ExecBlock(params, body, env.(vars := env.vars[ind := k])).Ok?
    ensures k < n ==>
              var r := ExecBlock(params, body, env.(vars := env.vars[ind := k])).value;
              if r.returned then ExecFor(params, ind, bound, body, k, n, env) == Ok(r)
              else
                && ind in r.env.vars && r.env.vars[ind] == k
                && ExecFor(params, ind, bound, body, k, n, env) == ExecFor(params, ind, bound, body, k + 1, n, r.env)
  {
    hide Eval, ExecBlock;
  }

  lemma CForStep(ind: string, bound: Expr, body: seq<Stmt>, env: Env, left: nat)
    requires left > 0 && ind in env.vars && Eval(bound, env.vars, env.mem).Ok?
    ensures var n := Eval(bound, env.vars, env.mem).value;
            if env.vars[ind] >= n.v then CFor(ind, bound, body, env, left) == Ok(Done(env.(mem := n.mem), false))
            else
              var r := CBlock(body, env.(mem := n.mem));
              && (r.Ok? && r.value.returned ==> CFor(ind, bound, body, env, left) == r)
              && (r.Ok? && !r.value.returned ==>
                    var after := Leave(env.vars, Declared(body), r.value.env);
                    ind in after.vars ==>
                      var next := after.vars[ind := Mask64(after.vars[ind] as int + 1)];
                      CFor(ind, bound, body, env, left) == CFor(ind, bound, body, after.(vars := next), left - 1))
  {
    hide Eval, CBlock, Leave, Declared;
  }

  /** Wherever the interpreter gives a function a meaning it is C's: the same memory and the same results. */
  lemma SourceIsC(fn: FuncDef, args: seq<int>, mem: Mem)
    requires RunSource(fn, args, mem).Ok?
    ensures CRun(fn, args, mem).Ok?
    ensures CRun(fn, args, mem).value.mem == RunSource(fn, args, mem).value.mem
    ensures CRun(fn, args, mem).value.out == RunSource(fn, args, mem).value.out
  {
    hide ExecBlock, CBlock, ExplicitBlock, ParamKinds, Bind, BlockNamesOk;
    var (env, ks) := (Env(Bind(fn.params, args), mem, map[]), ParamKinds(fn.params).value);
    ExplicitBlockNames(ks, fn.body);
    BlockIsC(fn.params, ks.Keys, ExplicitBody(fn).value, env, env);
  }
}
