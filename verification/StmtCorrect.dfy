/** Statement lowering: the emitted tree does what the interpreter does. */
module StmtCorrect {
  import opened Prelude
  import opened Isa
  import opened Machine
  import opened Ast
  import opened CodeTree
  import opened Lowering
  import opened Source
  import opened ExprCorrect
  import opened StmtRules

  // ----- code writes only the registers it names -----

  lemma {:induction false} ExecFrame(code: seq<Node>, d: Data, r: reg)
    requires Wf(code) && r > 4 && r as int !in Written(code)
    ensures Exec(code, d).d.regs[r] == d.regs[r]
    decreases code, 0, 0
  {
    hide Effect;
    if code != [] {
      assert code[0] in code && forall c :: c in code[1..] ==> c in code;
      NodeFrame(code, d, r);
      if !ExecOne(code[0], d).returned {
        ExecFrame(code[1..], ExecOne(code[0], d).d, r);
      }
    }
  }

  lemma {:induction false} NodeFrame(code: seq<Node>, d: Data, r: reg)
    requires code != [] && Wf(code) && r > 4 && r as int !in WrittenOne(code[0])
    ensures ExecOne(code[0], d).d.regs[r] == d.regs[r]
    decreases code[0], 1, 0
  {
    hide Effect, Ctrl;
    assert code[0] in code;
    match code[0]
    case Ins(i) => InsEffect(i, d);
    case Loop(n, _, body) =>
      CtrlKeeps(LOOP, n, d);
      IterateFrame(body, d.regs[n], Ctrl(LOOP, n, d), r);
    case Skip(n, _, body) =>
      CtrlKeeps(JUMP, n, d);
      if d.regs[n] == 0 { ExecFrame(body, Ctrl(JUMP, n, d), r); }
    case Ret(n) => CtrlKeeps(RET, n, d);
    case Bad =>
  }

  lemma CtrlKeeps(op: LegalOp, n: reg, d: Data)
    requires op.LOOP? || op.JUMP? || op.RET?
    ensures Ctrl(op, n, d).regs == d.regs && Ctrl(op, n, d).mem == d.mem
    ensures op.RET? ==> Ctrl(op, n, d).result == d.regs[1..5]
  {
    hide DrainAll;
  }

  lemma {:induction false} IterateFrame(body: seq<Node>, n: nat, d: Data, r: reg)
    requires Wf(body) && r > 4 && r as int !in Written(body)
    ensures Iterate(body, n, d).d.regs[r] == d.regs[r]
    decreases body, 1, n
  {
    hide Exec;
    if n > 0 {
      ExecFrame(body, d, r);
      if !Exec(body, d).returned {
        IterateFrame(body, n - 1, Exec(body, d).d, r);
      }
    }
  }

  lemma {:induction false} WrittenAppend(a: seq<Node>, b: seq<Node>)
    ensures Written(a + b) == Written(a) + Written(b)
    decreases |a|
  {
    hide WrittenOne;
    if a == [] {
      assert a + b == b;
    } else {
      assert (a + b)[1..] == a[1..] + b;
      WrittenAppend(a[1..], b);
    }
  }

  // ----- the relation between source and machine -----

  /** Results set so far are in their registers. */
  predicate OutOk(out: map<int, u64>, regs: Regs) {
    forall k :: k in out ==> 1 <= k <= 4 && regs[k] == out[k]
  }

  /** Outside every loop, scratch registers nothing has written are still zero. */
  predicate ZeroOutside(dirty: set<int>, regs: Regs) {
    forall r: reg :: 9 <= r && r as int !in dirty ==> regs[r] == 0
  }

  predicate Related(params: seq<Param>, a: Alloc, c: Ctx, env: Env, d: Data) {
    && ShapeOk(params, a, c.scope)
    && Holds(a.syms, c.Readable(), env.vars, d.regs)
    && d.mem == env.mem
    && OutOk(env.out, d.regs)
    && (c.top ==> ZeroOutside(c.dirty, d.regs))
  }

  /** A finished run: memory and results as the interpreter says. */
  predicate Finished(env: Env, d: Data) {
    && d.mem == env.mem && |d.result| == 4
    && forall k :: k in env.out ==> 1 <= k <= 4 && d.result[k - 1] == env.out[k]
  }

  /** Machine outcome `r` matches source outcome `done`, the allocator being `b` and the context `c` afterwards. */
  predicate Matches(params: seq<Param>, b: Alloc, c: Ctx, done: Done, r: Ran) {
    && r.returned == done.returned
    && (r.returned ==> Finished(done.env, r.d))
    && (!r.returned ==> Related(params, b, c, done.env, r.d))
  }

  lemma ReadyFrom(params: seq<Param>, a: Alloc, c: Ctx, env: Env, d: Data)
    requires Related(params, a, c, env, d)
    ensures Ready(a, c.Readable(), env.vars, d) && AllocOk(a)
  {
  }

  /** An expression evaluated where a statement stands. */
  lemma ExprRuns(params: seq<Param>, a: Alloc, c: Ctx, env: Env, d: Data, e: Expr)
    requires Related(params, a, c, env, d) && ExprFine(e, c.Readable())
    requires Lower(a, e).Ok? && Eval(e, env.vars, env.mem).Ok?
    ensures var x, v := Lower(a, e).value, Eval(e, env.vars, env.mem).value;
            var r := Exec(x.code, d);
            && !r.returned && r.d.regs[x.r] == v.v && r.d.mem == v.mem && Kept(d, r.d, a.used)
            && LoweredOk(a, x) && OnlyScratch(x.code, a.used)
  {
    hide Lower, Eval, Holds, Exec, AllocOk;
    ReadyFrom(params, a, c, env, d);
    LowerCorrect(a, e, c.Readable(), env.vars, d);
    LowerShape(a, e);
    ScratchKeeps(Lower(a, e).value.code, a.used, d);
  }

  /** Code that keeps used registers keeps the relation, with the memory it leaves. */
  lemma RelatedKept(params: seq<Param>, a: Alloc, c: Ctx, env: Env, d: Data, b: Alloc, code: seq<Node>, mem: Mem)
    requires Related(params, a, c, env, d) && ShapeOk(params, b, c.scope) && b.syms == a.syms
    requires OnlyScratch(code, a.used) && Exec(code, d).d.mem == mem
    ensures Related(params, b, c.(dirty := c.dirty + Written(code)), env.(mem := mem), Exec(code, d).d)
    ensures !Exec(code, d).returned
  {
    hide Exec;
    ScratchKeeps(code, a.used, d);
    HoldsAfter(a, c.Readable(), env.vars, d, Exec(code, d).d);
    ScratchWf(code, a.used);
    ZeroKept(c, code, d);
  }

  lemma ScratchWf(code: seq<Node>, used: set<int>)
    requires OnlyScratch(code, used)
    ensures Wf(code)
  {
  }

  lemma ZeroKept(c: Ctx, code: seq<Node>, d: Data)
    requires Wf(code)
    ensures ZeroOutside(c.dirty, d.regs) ==> ZeroOutside(c.dirty + Written(code), Exec(code, d).d.regs)
  {
    hide Exec, Written;
    forall r: reg | 9 <= r && r as int !in c.dirty + Written(code)
      ensures Exec(code, d).d.regs[r] == d.regs[r]
    {
      ExecFrame(code, d, r);
    }
  }

  // ----- moves -----

  lemma MoveIs(rd: reg, rs: reg, d: Data)
    requires rd != 0
    ensures ExecOne(Move(rd, rs), d) == Ran(ExecOne(Move(rd, rs), d).d, false)
    ensures var d' := ExecOne(Move(rd, rs), d).d; d'.regs == d.regs[rd := d.regs[rs]] && d'.mem == d.mem
  {
    AluImmEffectIs(ADDI, rd, rs, 0, d);
  }

  lemma ExecThenMove(code: seq<Node>, used: set<int>, rd: reg, rs: reg, d: Data)
    requires OnlyScratch(code, used) && rd != 0
    ensures var r, d1 := Exec(code + [Move(rd, rs)], d), Exec(code, d).d;
            !r.returned && r.d.regs == d1.regs[rd := d1.regs[rs]] && r.d.mem == d1.mem
  {
    hide ExecOne;
    ScratchKeeps(code, used, d);
    ExecAppend(code, [Move(rd, rs)], d);
    ExecSingle(Move(rd, rs), Exec(code, d).d);
    MoveIs(rd, rs, Exec(code, d).d);
  }

  /** Writing a variable's register is `SetVar`. */
  lemma SetVarRelated(
    params: seq<Param>, a: Alloc, c: Ctx, env: Env, d: Data, name: string, v: u64, d': Data, dirty: set<int>)
    requires Related(params, a, c, env, d) && name in a.syms
    requires d'.regs == d.regs[a.syms[name].reg := v] && d'.mem == d.mem
    requires (c.top ==> ZeroOutside(dirty, d'.regs)) && SetVar(params, env, name, v).Ok?
    ensures Related(params, a, c.(dirty := dirty), SetVar(params, env, name, v).value, d')
  {
  }

  /** Writing a result register is `SetResult`. */
  lemma SetResultRelated(
    params: seq<Param>, a: Alloc, c: Ctx, env: Env, d: Data, slot: int, v: u64, d': Data, dirty: set<int>)
    requires Related(params, a, c, env, d) && 1 <= slot <= 4
    requires d'.regs == d.regs[slot := v] && d'.mem == d.mem
    requires c.top ==> ZeroOutside(dirty, d'.regs)
    ensures Related(params, a, c.(dirty := dirty), SetResult(params, env, slot, v), d')
  {
  }

  lemma RetFinishes(r: reg, env: Env, d: Data)
    requires d.mem == env.mem && OutOk(env.out, d.regs)
    ensures ExecOne(Ret(r), d).returned && Finished(env, ExecOne(Ret(r), d).d)
  {
    hide Ctrl;
    CtrlKeeps(RET, r, d);
  }

  // ----- lowered code is well formed, whatever the source -----

  lemma {:induction false} LowerLinear(a: Alloc, e: Expr)
    requires Lower(a, e).Ok?
    ensures Linear(Lower(a, e).value.code) && Lower(a, e).value.a.labelId == a.labelId
    decreases e, 1
  {
    hide Temp, MaybeFree, Free;
    match e
    case Bin(op, l, r) =>
      LowerLinear(a, l);
      if !(TryConst(r).Some? && ImmSub(op).Some?) { LowerLinear(Lower(a, l).value.a, r); }
    case Un(_, inner) => LowerLinear(a, inner);
    case Index(base, index) => LowerAddrLinear(a, base, index);
    case Call(fn, args) => LowerCallLinear(a, fn, args);
    case Cast(_, inner) => LowerLinear(a, inner);
    case _ =>
  }

  lemma {:induction false} LowerAddrLinear(a: Alloc, base: Expr, index: Expr)
    requires LowerAddr(a, base, index).Ok?
    ensures Linear(LowerAddr(a, base, index).value.code) && LowerAddr(a, base, index).value.a.labelId == a.labelId
    decreases index, 2
  {
    hide Temp, MaybeFree, Free;
    if TryConst(index).None? { LowerLinear(a, index); }
  }

  lemma {:induction false} LowerCallLinear(a: Alloc, fn: string, args: seq<Expr>)
    requires LowerCall(a, fn, args).Ok?
    ensures Linear(LowerCall(a, fn, args).value.code) && LowerCall(a, fn, args).value.a.labelId == a.labelId
    decreases args, 2
  {
    hide Temp, MaybeFree, Free, Lower;
    if fn == "tiara_set_result" {
      LowerLinear(a, args[1]);
    } else if fn != "tiara_wait" {
      LowerLinear(a, args[0]);
      if fn != "tiara_andi" {
        var x := Lower(a, args[0]).value;
        LowerLinear(x.a, args[1]);
        if fn == "tiara_cas" { LowerLinear(Lower(x.a, args[1]).value.a, args[2]); }
      }
    }
  }

  lemma CondLinear(a: Alloc, e: Expr)
    requires LowerCondNegated(a, e).Ok?
    ensures Linear(LowerCondNegated(a, e).value.code) && LowerCondNegated(a, e).value.a.labelId == a.labelId
  {
    hide Temp, MaybeFree, Lower;
    if e.Bin? && e.op.Equal? {
      LowerLinear(a, e.l);
      LowerLinear(Lower(a, e.l).value.a, e.r);
    } else {
      LowerLinear(a, e);
    }
  }

  /** Lowered statements are well formed, and LOOPs nest as the `for`s do. */
  lemma {:induction false} StmtWf(a: Alloc, s: Stmt)
    requires LowerStmt(a, s).Ok?
    ensures Wf(LowerStmt(a, s).value.1) && Depth(LowerStmt(a, s).value.1) == NestingOne(s)
    decreases s, 1
  {
    hide Lower, MaybeFree, AddLocal, LowerAddr, LowerCall, LowerCondNegated, Free, Depth;
    var code := LowerStmt(a, s).value.1;
    match s
    case Decl(name, _, init) =>
      if init.Some? { LowerLinear(AddLocal(a, name).value.0, init.value); }
      LinearDepth(code);
    case Assign(op, lhs, rhs) =>
      AssignLinear(a, lhs, if op.Set? then rhs else Bin(FoldedOp(op), lhs, rhs));
      LinearDepth(code);
    case For(ind, bound, body) =>
      var (a1, r) := AddLocal(a, ind).value;
      var n := Lower(a1, bound).value;
      var (a2, end) := Fresh(n.a, "for_end");
      var inner := LowerBlock(a2, body).value.1;
      LowerLinear(a1, bound);
      LinearDepth(n.code);
      BlockWf(a2, body);
      LoopDepth(n.code, n.r, end, inner, AluImm(ADDI, r, r, 1));
    case If(cond, body) =>
      if cond.Const? && cond.v != 0 {
        BlockWf(a, body);
      } else {
        CondLinear(a, cond);
        var x := LowerCondNegated(a, cond).value;
        var (a1, skip) := Fresh(x.a, "if_skip");
        var inner := LowerBlock(MaybeFree(a1, x.r), body).value.1;
        LinearDepth(x.code);
        BlockWf(MaybeFree(a1, x.r), body);
        DepthAppend(x.code, [Skip(x.r, skip, inner)]);
        DepthSingle(Skip(x.r, skip, inner));
      }
    case Return(value) =>
      if value.Some? { ReturnDepth(a, value.value); } else { DepthSingle(Ret(0)); }
    case ExprCall(call) =>
      LowerCallLinear(a, call.fn, call.args);
      LinearDepth(code);
    case IncDec(_, _) => LinearDepth(code);
  }

  lemma NoDepth()
    ensures Depth([]) == 0
  {
  }

  lemma AssignLinear(a: Alloc, lhs: Expr, rhs: Expr)
    requires LowerAssign(a, lhs, rhs).Ok?
    ensures Linear(LowerAssign(a, lhs, rhs).value.1) && LowerAssign(a, lhs, rhs).value.0.labelId == a.labelId
  {
    hide Lower, LowerAddr, MaybeFree;
    if lhs.Id? {
      LowerLinear(a, rhs);
    } else {
      LowerAddrLinear(a, lhs.base, lhs.index);
      LowerLinear(LowerAddr(a, lhs.base, lhs.index).value.a, rhs);
    }
  }

  lemma LoopDepth(count: seq<Node>, n: reg, end: string, body: seq<Node>, step: Instr)
    requires Linear(count) && Wf(body) && Straight(step.op)
    ensures var code := count + [Loop(n, end, body + [Ins(step)])]; Wf(code) && Depth(code) == 1 + Depth(body)
  {
    LinearDepth(count);
    DepthAppend(count, [Loop(n, end, body + [Ins(step)])]);
    DepthSingle(Loop(n, end, body + [Ins(step)]));
    DepthAppend(body, [Ins(step)]);
    DepthSingle(Ins(step));
    assert Wf(body + [Ins(step)]);
  }

  lemma ReturnDepth(a: Alloc, e: Expr)
    requires LowerStmt(a, Return(Some(e))).Ok?
    ensures var code := LowerStmt(a, Return(Some(e))).value.1; Wf(code) && Depth(code) == 0
  {
    hide Lower, MaybeFree, Depth;
    LowerLinear(a, e);
    var x := Lower(a, e).value;
    var moved := x.code + (if x.r != 1 then [Move(1, x.r)] else []);
    LinearDepth(moved);
    DepthAppend(moved, [Ret(1)]);
    DepthSingle(Ret(1));
  }

  lemma {:induction false} BlockWf(a: Alloc, ss: seq<Stmt>)
    requires LowerBlock(a, ss).Ok?
    ensures Wf(LowerBlock(a, ss).value.1) && Depth(LowerBlock(a, ss).value.1) == Nesting(ss)
    decreases ss, 0
  {
    hide LowerStmt, Depth, NestingOne;
    if ss != [] {
      var (a1, first) := LowerStmt(a, ss[0]).value;
      StmtWf(a, ss[0]);
      BlockWf(a1, ss[1..]);
      DepthAppend(first, LowerBlock(a1, ss[1..]).value.1);
    } else {
      assert Depth([]) == 0 by { NoDepth(); }
    }
  }

  // ----- one statement at a time -----

  lemma DeclRuns(params: seq<Param>, a: Alloc, c: Ctx, s: Stmt, env: Env, d: Data)
    requires s.Decl? && Related(params, a, c, env, d) && StmtOk(a, c, s)
    requires LowerStmt(a, s).Ok? && ExecStmt(params, s, env).Ok?
    ensures var (b, code) := LowerStmt(a, s).value;
            Matches(params, b, CtxAfter(c, s, code), ExecStmt(params, s, env).value, Exec(code, d))
  {
    hide Lower, Eval, Exec, MaybeFree, AddLocal, Written;
    var Decl(name, _, init) := s;
    AddLocalIs(params, a, c.scope, name);
    var (a1, r) := AddLocal(a, name).value;
    var c1 := c.(scope := c.scope + {name});
    var env1 := env.(vars := env.vars - {name});
    DeclRelated(params, a, c, env, d, name, a1);
    if init.None? {
      NilRuns(d);
    } else {
      ExprRuns(params, a1, c1, env1, d, init.value);
      var x := Lower(a1, init.value).value;
      ExprFreedShape(params, a1, c1.scope, init.value);
      var b := MaybeFree(x.a, x.r);
      RelatedKept(params, a1, c1, env1, d, b, x.code, Exec(x.code, d).d.mem);
      ExecThenMove(x.code, a1.used, r, x.r, d);
      WrittenMove(x.code, r, x.r);
      ZeroMoved(c.dirty + Written(x.code), r, Exec(x.code, d).d.regs[x.r], Exec(x.code, d).d.regs, c.top);
      var d1 := Exec(x.code, d).d;
      SetLocalRelated(params, b, c1.(dirty := c.dirty + Written(x.code)), env1.(mem := d1.mem), d1, name, d1.regs[x.r],
                      Exec(x.code + [Move(r, x.r)], d).d, c.dirty + Written(x.code + [Move(r, x.r)]));
    }
  }

  lemma NilRuns(d: Data)
    ensures Exec([], d) == Ran(d, false) && Written([]) == {}
  {
  }

  /** Declaring a name takes its old value away and gives it a register nothing else has. */
  lemma DeclRelated(params: seq<Param>, a: Alloc, c: Ctx, env: Env, d: Data, name: string, b: Alloc)
    requires Related(params, a, c, env, d) && name !in c.scope
    requires ShapeOk(params, b, c.scope + {name}) && Extends(a, c.scope, b)
    ensures Related(params, b, c.(scope := c.scope + {name}), env.(vars := env.vars - {name}), d)
  {
    hide AllocOk, ParamRegs, OutOk, ZeroOutside;
  }

  lemma WrittenMove(code: seq<Node>, rd: reg, rs: reg)
    ensures Written(code + [Move(rd, rs)]) == Written(code) + {rd as int}
  {
    WrittenAppend(code, [Move(rd, rs)]);
    WrittenIns(AluImm(ADDI, rd, rs, 0));
  }

  lemma WrittenIns(i: Instr)
    ensures Written([Ins(i)]) == {i.rd as int}
  {
    assert [Ins(i)][1..] == [];
  }

  lemma ZeroMoved(dirty: set<int>, rd: reg, v: u64, regs: Regs, top: bool)
    ensures (top ==> ZeroOutside(dirty, regs)) ==> (top ==> ZeroOutside(dirty + {rd as int}, regs[rd := v]))
  {
  }

  /** A local declared with an initial value has it. */
  lemma SetLocalRelated(
    params: seq<Param>, a: Alloc, c: Ctx, env: Env, d: Data, name: string, v: u64, d': Data, dirty: set<int>)
    requires Related(params, a, c, env, d) && name in a.syms && a.syms[name].reg >= 9
    requires d'.regs == d.regs[a.syms[name].reg := v] && d'.mem == d.mem
    requires c.top ==> ZeroOutside(dirty, d'.regs)
    ensures Related(params, a, c.(dirty := dirty), env.(vars := env.vars[name := v]), d')
  {
  }

  lemma IncDecRuns(params: seq<Param>, a: Alloc, c: Ctx, s: Stmt, env: Env, d: Data)
    requires s.IncDec? && Related(params, a, c, env, d) && StmtOk(a, c, s)
    requires LowerStmt(a, s).Ok? && ExecStmt(params, s, env).Ok?
    ensures var (b, code) := LowerStmt(a, s).value;
            Matches(params, b, CtxAfter(c, s, code), ExecStmt(params, s, env).value, Exec(code, d))
  {
    hide Exec, Written, Effect, SetVar;
    var r := a.syms[s.target].reg;
    var i := AluImm(ADDI, r, r, s.delta);
    ExecSingleIns(i, d);
    AluImmEffectIs(ADDI, r, r, s.delta, d);
    WrittenIns(i);
    var d' := Exec([Ins(i)], d).d;
    RegNotZero(params, a, c.scope, s.target);
    ZeroMoved(c.dirty, r, d'.regs[r], d.regs, c.top);
    SetVarRelated(params, a, c, env, d, s.target, d'.regs[r], d', c.dirty + {r as int});
  }

  lemma RegNotZero(params: seq<Param>, a: Alloc, scope: set<string>, name: string)
    requires ShapeOk(params, a, scope) && name in a.syms
    ensures a.syms[name].reg != 0
  {
  }

  lemma AssignRuns(params: seq<Param>, a: Alloc, c: Ctx, lhs: Expr, rhs: Expr, env: Env, d: Data)
    requires Related(params, a, c, env, d) && lhs.Id? && ExprFine(rhs, c.Readable())
    requires LowerAssign(a, lhs, rhs).Ok? && ExecAssign(params, Set, lhs, rhs, env).Ok?
    ensures var (b, code) := LowerAssign(a, lhs, rhs).value;
            Matches(params, b, c.(dirty := c.dirty + Written(code)),
                    Done(ExecAssign(params, Set, lhs, rhs, env).value, false), Exec(code, d))
  {
    hide Lower, Eval, Exec, MaybeFree, Written, SetVar;
    ExprRuns(params, a, c, env, d, rhs);
    var x := Lower(a, rhs).value;
    ExprFreedShape(params, a, c.scope, rhs);
    var b := MaybeFree(x.a, x.r);
    var d1 := Exec(x.code, d).d;
    RelatedKept(params, a, c, env, d, b, x.code, d1.mem);
    var r := a.syms[lhs.name].reg;
    RegNotZero(params, a, c.scope, lhs.name);
    ExecThenMove(x.code, a.used, r, x.r, d);
    WrittenMove(x.code, r, x.r);
    ZeroMoved(c.dirty + Written(x.code), r, d1.regs[x.r], d1.regs, c.top);
    SetVarRelated(params, b, c.(dirty := c.dirty + Written(x.code)), env.(mem := d1.mem), d1,
                  lhs.name, d1.regs[x.r], Exec(x.code + [Move(r, x.r)], d).d,
                  c.dirty + Written(x.code + [Move(r, x.r)]));
    assert c.dirty + Written(x.code) + {r as int} == c.dirty + Written(x.code + [Move(r, x.r)]);
  }

  lemma StoreRuns(params: seq<Param>, a: Alloc, c: Ctx, lhs: Expr, rhs: Expr, env: Env, d: Data)
    requires Related(params, a, c, env, d) && lhs.Index? && ExprFine(lhs, c.Readable()) && ExprFine(rhs, c.Readable())
    requires LowerAssign(a, lhs, rhs).Ok? && ExecAssign(params, Set, lhs, rhs, env).Ok?
    ensures var (b, code) := LowerAssign(a, lhs, rhs).value;
            Matches(params, b, c.(dirty := c.dirty + Written(code)),
                    Done(ExecAssign(params, Set, lhs, rhs, env).value, false), Exec(code, d))
  {
    hide Lower, LowerAddr, Eval, Exec, MaybeFree, Written, Element, EffectiveAddr, Effect, Holds, AllocOk, ParamRegs,
         OutOk, ZeroOutside;
    var Index(base, index) := lhs;
    ReadyFrom(params, a, c, env, d);
    assert Reads(base) == {base.name} && Reads(lhs) == Reads(base) + Reads(index);
    LowerAddrCorrect(a, base, index, c.Readable(), env.vars, d);
    LowerAddrShape(a, base, index);
    var addr := LowerAddr(a, base, index).value;
    var d1 := Exec(addr.code, d).d;
    var c1 := c.(dirty := c.dirty + Written(addr.code));
    GrowsExtends(params, a, c.scope, addr.a);
    RelatedKept(params, a, c, env, d, addr.a, addr.code, d1.mem);
    var env1 := env.(mem := d1.mem);
    ExprRuns(params, addr.a, c1, env1, d1, rhs);
    var x := Lower(addr.a, rhs).value;
    ExprFreedShape(params, addr.a, c.scope, rhs);
    var b := MaybeFree(x.a, x.r);
    var d2 := Exec(x.code, d1).d;
    RelatedKept(params, addr.a, c1, env1, d1, b, x.code, d2.mem);
    var i := Instr(STORE, 0, addr.base, x.r, 0, addr.off, None);
    assert d2.regs[addr.base] == d1.regs[addr.base];
    StoreIs(i, d2);
    ExecTwo(addr.code, x.code, a.used, addr.a.used, d);
    ScratchAppend(addr.code, x.code, a.used, addr.a.used);
    ExecThen(addr.code + x.code, i, a.used, d);
    WrittenAppend(addr.code, x.code);
    WrittenAppend(addr.code + x.code, [Ins(i)]);
    WrittenIns(i);
    StoredRelated(params, b, c1.(dirty := c1.dirty + Written(x.code)), env1.(mem := d2.mem), d2,
                  Effect(Seen(i), ExtraRd(i), d2),
                  c.dirty + Written(addr.code + x.code + [Ins(i)]));
  }

  lemma StoreIs(i: Instr, d: Data)
    requires i.op.STORE? && SignedImm(i.imm)
    ensures var d' := Effect(Seen(i), ExtraRd(i), d);
            d'.regs == d.regs && d'.mem == d.mem[EffectiveAddr(d.regs[i.rs1], i.imm) := d.regs[i.rs2]]
  {
  }

  lemma StoredRelated(params: seq<Param>, a: Alloc, c: Ctx, env: Env, d: Data, d': Data, dirty: set<int>)
    requires Related(params, a, c, env, d) && d'.regs == d.regs && c.dirty <= dirty
    ensures Related(params, a, c.(dirty := dirty), env.(mem := d'.mem), d')
  {
  }

  lemma ReturnRuns(params: seq<Param>, a: Alloc, c: Ctx, s: Stmt, env: Env, d: Data)
    requires s.Return? && Related(params, a, c, env, d) && StmtOk(a, c, s)
    requires LowerStmt(a, s).Ok? && ExecStmt(params, s, env).Ok?
    ensures var (b, code) := LowerStmt(a, s).value;
            Matches(params, b, CtxAfter(c, s, code), ExecStmt(params, s, env).value, Exec(code, d))
  {
    hide Lower, Eval, MaybeFree, Written, Holds, AllocOk, ParamRegs, ExecOne;
    if s.value.None? {
      RetFinishes(0, env, d);
    } else {
      var e := s.value.value;
      ExprRuns(params, a, c, env, d, e);
      var x, v := Lower(a, e).value, Eval(e, env.vars, env.mem).value;
      var d1 := Exec(x.code, d).d;
      assert OutOk(env.out, d1.regs);
      var moved := if x.r != 1 then [Move(1, x.r)] else [];
      ReturnMoves(x.code, a.used, x.r, d);
      var d2 := Exec(x.code + moved, d).d;
      var env2 := SetResult(params, env.(mem := v.mem), 1, v.v);
      assert OutOk(env2.out, d2.regs);
      ExecAppend(x.code + moved, [Ret(1)], d);
      RetFinishes(1, env2, d2);
    }
  }

  lemma ReturnMoves(code: seq<Node>, used: set<int>, r: reg, d: Data)
    requires OnlyScratch(code, used)
    ensures var d1 := Exec(code, d).d;
            var moved := Exec(code + (if r != 1 then [Move(1, r)] else []), d);
            !moved.returned && moved.d.regs == d1.regs[1 := d1.regs[r]] && moved.d.mem == d1.mem
  {
    hide Exec;
    ScratchKeeps(code, used, d);
    if r != 1 {
      ExecThenMove(code, used, 1, r, d);
    } else {
      assert code + [] == code;
    }
  }

  lemma CallRuns(params: seq<Param>, a: Alloc, c: Ctx, call: Expr, env: Env, d: Data)
    requires Related(params, a, c, env, d) && StmtOk(a, c, ExprCall(call))
    requires LowerStmt(a, ExprCall(call)).Ok? && ExecStmt(params, ExprCall(call), env).Ok?
    ensures var (b, code) := LowerStmt(a, ExprCall(call)).value;
            Matches(params, b, CtxAfter(c, ExprCall(call), code), ExecStmt(params, ExprCall(call), env).value,
                    Exec(code, d))
  {
    hide Exec, Eval, MaybeFree, Written, SetResult, ExprOk;
    if call.fn == "tiara_set_result" && |call.args| == 2 {
      SetResultRuns(params, a, c, call, env, d);
    } else {
      assert Lower(a, call) == LowerCall(a, call.fn, call.args) by { LowerIsCall(a, call); }
      ExprRuns(params, a, c, env, d, call);
      var x := Lower(a, call).value;
      GrowsExtends(params, a, c.scope, x.a);
      RelatedKept(params, a, c, env, d, x.a, x.code, Exec(x.code, d).d.mem);
    }
  }

  lemma LowerIsCall(a: Alloc, call: Expr)
    requires call.Call?
    ensures Lower(a, call) == LowerCall(a, call.fn, call.args)
  {
  }

  lemma SetResultRuns(params: seq<Param>, a: Alloc, c: Ctx, call: Expr, env: Env, d: Data)
    requires call.Call? && call.fn == "tiara_set_result" && |call.args| == 2
    requires Related(params, a, c, env, d) && StmtOk(a, c, ExprCall(call))
    requires LowerStmt(a, ExprCall(call)).Ok? && ExecStmt(params, ExprCall(call), env).Ok?
    ensures var (b, code) := LowerStmt(a, ExprCall(call)).value;
            Matches(params, b, CtxAfter(c, ExprCall(call), code), ExecStmt(params, ExprCall(call), env).value,
                    Exec(code, d))
  {
    hide Exec, Lower, Eval, MaybeFree, Written, SetResult, ExprOk;
    var e, slot := call.args[1], RequireConst(call.args[0]).value;
    ExprRuns(params, a, c, env, d, e);
    var x := Lower(a, e).value;
    var d1 := Exec(x.code, d).d;
    ExprFreedShape(params, a, c.scope, e);
    var b := MaybeFree(x.a, x.r);
    RelatedKept(params, a, c, env, d, b, x.code, d1.mem);
    ExecThenMove(x.code, a.used, slot, x.r, d);
    WrittenMove(x.code, slot, x.r);
    ZeroMoved(c.dirty + Written(x.code), slot, d1.regs[x.r], d1.regs, c.top);
    SetResultRelated(params, b, c.(dirty := c.dirty + Written(x.code)), env.(mem := d1.mem), d1, slot, d1.regs[x.r],
                     Exec(x.code + [Move(slot, x.r)], d).d, c.dirty + Written(x.code) + {slot as int});
    assert c.dirty + Written(x.code) + {slot as int} == c.dirty + Written(x.code + [Move(slot, x.r)]);
  }

  // ----- conditions -----

  /** The negated condition is non-zero exactly when the condition is zero. */
  lemma CondRuns(params: seq<Param>, a: Alloc, c: Ctx, e: Expr, env: Env, d: Data)
    requires Related(params, a, c, env, d) && ExprFine(e, c.Readable())
    requires LowerCondNegated(a, e).Ok? && Eval(e, env.vars, env.mem).Ok?
    ensures var x, v := LowerCondNegated(a, e).value, Eval(e, env.vars, env.mem).value;
            var d' := Exec(x.code, d).d;
            (d'.regs[x.r] != 0 <==> v.v == 0) && d'.mem == v.mem
  {
    hide Exec, Lower, Eval, MaybeFree, Holds, AllocOk, Temp, ParamRegs, Effect;
    if e.Bin? && e.op.Equal? {
      EqualRuns(params, a, c, e, env, d);
    } else {
      ExprRuns(params, a, c, env, d, e);
      var x := Lower(a, e).value;
      FinishOne(a, x);
      var rd := Temp(x.a).value.1;
      var i := Alu3(EQ, rd, x.r, 0);
      ExecThen(x.code, i, a.used, d);
      AluEffectIs(EQ, rd, x.r, 0, Exec(x.code, d).d);
      ZeroReg(params, a, c, env, d);
    }
  }

  lemma ZeroReg(params: seq<Param>, a: Alloc, c: Ctx, env: Env, d: Data)
    requires Related(params, a, c, env, d)
    ensures d.regs[0] == 0
  {
  }

  lemma EqualRuns(params: seq<Param>, a: Alloc, c: Ctx, e: Expr, env: Env, d: Data)
    requires e.Bin? && e.op.Equal? && Related(params, a, c, env, d) && ExprFine(e, c.Readable())
    requires LowerCondNegated(a, e).Ok? && Eval(e, env.vars, env.mem).Ok?
    ensures var x, v := LowerCondNegated(a, e).value, Eval(e, env.vars, env.mem).value;
            var d' := Exec(x.code, d).d;
            (d'.regs[x.r] != 0 <==> v.v == 0) && d'.mem == v.mem
  {
    hide Exec, Lower, MaybeFree, Holds, AllocOk, Temp, ParamRegs, Effect;
    assert ExprFine(e.l, c.Readable()) && ExprFine(e.r, c.Readable());
    ReadyFrom(params, a, c, env, d);
    LowerCorrect(a, e.l, c.Readable(), env.vars, d);
    LowerShape(a, e.l);
    var x := Lower(a, e.l).value;
    NextOperand(a, x, c.Readable(), env.vars, d);
    var d1 := Exec(x.code, d).d;
    LowerCorrect(x.a, e.r, c.Readable(), env.vars, d1);
    LowerShape(x.a, e.r);
    var y := Lower(x.a, e.r).value;
    FinishTwo(a, x, y);
    TempIs(y.a);
    var (a1, rd) := Temp(y.a).value;
    TempIs(a1);
    var tmp := Temp(a1).value.1;
    var xv, yv := Eval(e.l, env.vars, d.mem).value, Eval(e.r, env.vars, d1.mem).value;
    var i := Alu3(EQ, rd, x.r, y.r);
    TwoOperands(a, x, y, i, d, xv, yv);
    AluEffectIs(EQ, rd, x.r, y.r, Exec(y.code, d1).d);
    var d3 := Exec(x.code + y.code + [Ins(i)], d).d;
    FlipRuns(rd, tmp, d3);
    var flip := [Ins(AluImm(LI, tmp, 0, 1)), Ins(Alu3(XOR, rd, rd, tmp))];
    ExecAppend(x.code + y.code + [Ins(i)], flip, d);
    assert x.code + y.code + [Ins(i)] + flip
      == x.code + y.code + [Ins(i), Ins(AluImm(LI, tmp, 0, 1)), Ins(Alu3(XOR, rd, rd, tmp))];
  }

  lemma FlipRuns(rd: reg, tmp: reg, d: Data)
    requires rd != tmp && rd != 0 && tmp != 0 && d.regs[rd] <= 1
    ensures var r := Exec([Ins(AluImm(LI, tmp, 0, 1)), Ins(Alu3(XOR, rd, rd, tmp))], d);
            !r.returned && r.d.regs[rd] == 1 - d.regs[rd] && r.d.mem == d.mem
  {
    hide Exec, Effect, Bitwise;
    var i, j := AluImm(LI, tmp, 0, 1), Alu3(XOR, rd, rd, tmp);
    ExecPair(i, j, d);
    AluImmEffectIs(LI, tmp, 0, 1, d);
    var d1 := Effect(Seen(i), ExtraRd(i), d);
    AluEffectIs(XOR, rd, rd, tmp, d1);
    XorOneFlips(d.regs[rd]);
  }

  // ----- compound statements -----

  /** Code followed by code. */
  lemma ExecSeq(x: seq<Node>, y: seq<Node>, d: Data)
    requires !Exec(x, d).returned
    ensures Exec(x + y, d) == Exec(y, Exec(x, d).d)
  {
    hide Exec;
    ExecAppend(x, y, d);
  }

  lemma {:induction false} IfRuns(params: seq<Param>, a: Alloc, c: Ctx, s: Stmt, env: Env, d: Data)
    requires s.If? && !(s.cond.Const? && s.cond.v != 0) && Related(params, a, c, env, d) && StmtOk(a, c, s)
    requires LowerStmt(a, s).Ok? && ExecStmt(params, s, env).Ok?
    ensures var (b, code) := LowerStmt(a, s).value;
            Matches(params, b, CtxAfter(c, s, code), ExecStmt(params, s, env).value, Exec(code, d))
    decreases s, 0, 0
  {
    hide Exec, Lower, Eval, MaybeFree, Written, Holds, AllocOk, ParamRegs, LowerCondNegated, ZeroOutside, OutOk,
         Ctrl, ExprOk;
    var If(cond, body) := s;
    ShapeAlloc(params, a, c.scope);
    CondShape(a, cond);
    CondRuns(params, a, c, cond, env, d);
    var x := LowerCondNegated(a, cond).value;
    var (a1, skip) := Fresh(x.a, "if_skip");
    var a2 := MaybeFree(a1, x.r);
    var c2 := c.(dirty := c.dirty + Written(x.code));
    FreshFreed(params, a, c.scope, x, a1);
    var (b, inner) := LowerBlock(a2, body).value;
    var d1 := Exec(x.code, d).d;
    var env1 := env.(mem := d1.mem);
    RelatedKept(params, a, c, env, d, a2, x.code, d1.mem);
    ExecSeq(x.code, [Skip(x.r, skip, inner)], d);
    ExecSingle(Skip(x.r, skip, inner), d1);
    SkipRuns(x.r, skip, inner, d1);
    CtrlKeeps(JUMP, x.r, d1);
    CtrlRelated(params, a2, c2, env1, d1, JUMP, x.r);
    WrittenAppend(x.code, [Skip(x.r, skip, inner)]);
    WrittenSkip(x.r, skip, inner);
    BlockShape(params, a2, c2.scope, body);
    var dirty := c.dirty + Written(x.code + [Skip(x.r, skip, inner)]);
    if d1.regs[x.r] != 0 {
      SkippedRelated(params, a2, c2, b, env1, Ctrl(JUMP, x.r, d1), dirty);
    } else {
      BlockRuns(params, a2, c2, body, env1, Ctrl(JUMP, x.r, d1));
      assert c.dirty + Written(x.code) + Written(inner) == dirty;
    }
  }

  lemma SkipRuns(r: reg, end: string, body: seq<Node>, d: Data)
    ensures ExecOne(Skip(r, end, body), d) ==
              (if d.regs[r] != 0 then Ran(Ctrl(JUMP, r, d), false) else Exec(body, Ctrl(JUMP, r, d)))
  {
  }

  lemma WrittenSkip(r: reg, end: string, body: seq<Node>)
    ensures Written([Skip(r, end, body)]) == Written(body)
  {
    assert [Skip(r, end, body)][1..] == [];
  }

  /** Control instructions change neither registers nor memory. */
  lemma CtrlRelated(params: seq<Param>, a: Alloc, c: Ctx, env: Env, d: Data, op: LegalOp, r: reg)
    requires Related(params, a, c, env, d) && (op.LOOP? || op.JUMP?)
    ensures Related(params, a, c, env, Ctrl(op, r, d))
  {
    hide Ctrl;
    CtrlKeeps(op, r, d);
  }

  /** A block that is not run leaves the relation as it is, the allocator moving on. */
  lemma SkippedRelated(params: seq<Param>, a: Alloc, c: Ctx, b: Alloc, env: Env, d: Data, dirty: set<int>)
    requires Related(params, a, c, env, d) && ShapeOk(params, b, c.scope) && Extends(a, c.scope, b) && c.dirty <= dirty
    ensures Related(params, b, c.(dirty := dirty), env, d)
  {
    hide AllocOk, ParamRegs;
  }

  // ----- loops -----

  /** What holds at the start of iteration `k`: the relation of the body, with the induction variable at `k`. */
  predicate AtIteration(params: seq<Param>, a: Alloc, c: Ctx, ind: string, k: nat, env: Env, d: Data)
    requires k < 0x1_0000_0000_0000_0000
  {
    Related(params, a, c, env.(vars := env.vars[ind := k]), d)
  }

  /**
   * The bound evaluated: its value is in the count register, and the body can start with the induction variable zero.
   */
  lemma BoundRuns(params: seq<Param>, a: Alloc, c: Ctx, s: Stmt, env: Env, d: Data)
    requires s.For? && Related(params, a, c, env, d) && StmtOk(a, c, s)
    requires LowerStmt(a, s).Ok? && ExecStmt(params, s, env).Ok?
    ensures var (a1, r) := AddLocal(a, s.ind).value;
            var n := Lower(a1, s.bound).value;
            var a2 := Fresh(n.a, "for_end").0;
            var ran := Exec(n.code, d);
            && !ran.returned && ran.d.regs[n.r] == Eval(s.bound, env.vars[s.ind := 0], env.mem).value.v
            && AtIteration(params, a2, LoopCtx(c, s.ind, r), s.ind, 0, env, Ctrl(LOOP, n.r, ran.d))
            && Extends(a, c.scope, a2) && a2.syms == a1.syms && a1.syms[s.ind].reg == r && r >= 9
  {
    hide Exec, Lower, Eval, MaybeFree, Written, Holds, AllocOk, ParamRegs, ZeroOutside, OutOk, Ctrl, AddLocal,
         Extends, Free, LowerBlock;
    var For(ind, bound, body) := s;
    AddLocalIs(params, a, c.scope, ind);
    var (a1, r) := AddLocal(a, ind).value;
    var c1 := LoopCtx(c, ind, r);
    var n := Lower(a1, bound).value;
    var a2 := Fresh(n.a, "for_end").0;
    var env0 := env.(vars := env.vars[ind := 0]);
    EnterLoop(params, a, c, env, d, ind, a1, r);
    ExprRuns(params, a1, c1, env0, d, bound);
    var d1 := Exec(n.code, d).d;
    FreshExtends(params, a1, c1.scope, n.a, a2);
    ExtendsTrans(a, a1, a2, c.scope, c1.scope);
    assert d1.mem == env.mem by { BoundPure(params, s, env); }
    RelatedKept(params, a1, c1, env0, d, a2, n.code, d1.mem);
    CtrlRelated(params, a2, c1.(dirty := c1.dirty + Written(n.code)), env0, d1, LOOP, n.r);
    CleanCtx(params, a2, c1, c1.dirty + Written(n.code), env0, Ctrl(LOOP, n.r, d1));
  }

  lemma {:induction false} ForRuns(params: seq<Param>, a: Alloc, c: Ctx, s: Stmt, env: Env, d: Data)
    requires s.For? && Related(params, a, c, env, d) && StmtOk(a, c, s)
    requires LowerStmt(a, s).Ok? && ExecStmt(params, s, env).Ok?
    ensures var (b, code) := LowerStmt(a, s).value;
            Matches(params, b, CtxAfter(c, s, code), ExecStmt(params, s, env).value, Exec(code, d))
    decreases s, 0, 0
  {
    hide Exec, Lower, Eval, MaybeFree, Written, Holds, AllocOk, ParamRegs, ZeroOutside, OutOk, Ctrl, AddLocal,
         Extends, Free;
    var For(ind, bound, body) := s;
    var (a1, r) := AddLocal(a, ind).value;
    var n := Lower(a1, bound).value;
    var (a2, end) := Fresh(n.a, "for_end");
    var inner := LowerBlock(a2, body).value.1 + [Ins(AluImm(ADDI, r, r, 1))];
    var (b, code) := LowerStmt(a, s).value;
    BoundRuns(params, a, c, s, env, d);
    var count := Eval(bound, env.vars[ind := 0], env.mem).value.v;
    var d1 := Exec(n.code, d).d;
    IterationsRun(params, a2, LoopCtx(c, ind, r), s, r, 0, count, env, Ctrl(LOOP, n.r, d1));
    ExecSeq(n.code, [Loop(n.r, end, inner)], d);
    ExecSingle(Loop(n.r, end, inner), d1);
    LoopIterates(n.r, end, inner, d1);
    StmtShape(params, a, c.scope, s);
    StmtWf(a, s);
    ZeroKept(c, code, d);
    var done, ran := ExecFor(params, ind, bound, body, 0, count, env).value, Exec(code, d);
    if !ran.returned {
      LeaveLoop(params, a, c, a2, LoopCtx(c, ind, r), b, done.env, ran.d, c.dirty + Written(code), ind);
    }
  }

  lemma LoopIterates(r: reg, end: string, body: seq<Node>, d: Data)
    ensures ExecOne(Loop(r, end, body), d) == Iterate(body, d.regs[r], Ctrl(LOOP, r, d))
  {
  }

  /** The bound has no effect on memory. */
  lemma BoundPure(params: seq<Param>, s: Stmt, env: Env)
    requires s.For? && ExecStmt(params, s, env).Ok?
    ensures Eval(s.bound, env.vars[s.ind := 0], env.mem).Ok?
        && Eval(s.bound, env.vars[s.ind := 0], env.mem).value.mem == env.mem
  {
    hide Eval, ExecBlock;
  }

  /** The induction variable is zero, and its register too when it counts as readable. */
  lemma EnterLoop(params: seq<Param>, a: Alloc, c: Ctx, env: Env, d: Data, ind: string, a1: Alloc, r: reg)
    requires Related(params, a, c, env, d) && ind !in c.scope
    requires ShapeOk(params, a1, c.scope + {ind}) && Extends(a, c.scope, a1) && 9 <= r && a1.syms[ind].reg == r
    ensures Related(params, a1, LoopCtx(c, ind, r), env.(vars := env.vars[ind := 0]), d)
  {
    hide AllocOk, ParamRegs, OutOk;
  }

  /** Inside a loop nothing is claimed of unwritten registers. */
  lemma CleanCtx(params: seq<Param>, a: Alloc, c: Ctx, dirty: set<int>, env: Env, d: Data)
    requires Related(params, a, c.(dirty := dirty), env, d) && !c.top
    ensures Related(params, a, c, env, d)
  {
  }

  lemma {:induction false} IterationsRun(
    params: seq<Param>, a: Alloc, c: Ctx, s: Stmt, r: reg, k: nat, n: u64, env: Env, d: Data)
    requires s.For? && k <= n && !c.top && c.dirty == {} && s.ind in c.scope
    requires LowerBlock(a, s.body).Ok? && BlockOk(a, c, s.body)
    requires s.ind in a.syms && a.syms[s.ind].reg == r && r >= 9
    requires AtIteration(params, a, c, s.ind, k, env, d)
    requires ExecFor(params, s.ind, s.bound, s.body, k, n, env).Ok?
    ensures var done := ExecFor(params, s.ind, s.bound, s.body, k, n, env).value;
            var ran := Iterate(LowerBlock(a, s.body).value.1 + [Ins(AluImm(ADDI, r, r, 1))], n - k, d);
            && ran.returned == done.returned
            && (ran.returned ==> Finished(done.env, ran.d))
            && (!ran.returned ==> Related(params, a, c, done.env, ran.d))
    decreases s.body, 1, n - k
  {
    hide Exec, Eval, Written, Holds, AllocOk, ParamRegs, OutOk, Extends;
    var env1 := env.(vars := env.vars[s.ind := k]);
    if k == n {
      ForgetVar(params, a, c, env1, d, s.ind);
      assert env1.vars - {s.ind} == env.vars - {s.ind};
    } else {
      var (a3, inner) := LowerBlock(a, s.body).value;
      var i := AluImm(ADDI, r, r, 1);
      BlockRuns(params, a, c, s.body, env1, d);
      var done1, ran1 := ExecBlock(params, s.body, env1).value, Exec(inner, d);
      ExecAppend(inner, [Ins(i)], d);
      if !ran1.returned {
        BlockNames(a, c, s.body);
        BlockShape(params, a, c.scope, s.body);
        var c3 := c.(dirty := c.dirty + Written(inner));
        NextIteration(params, a, c, a3, c3, s.ind, r, k, done1.env, ran1.d);
        IterationsRun(params, a, c, s, r, k + 1, n, done1.env, Exec([Ins(i)], ran1.d).d);
      }
    }
  }

  /** Without its value a variable makes no claim. */
  lemma ForgetVar(params: seq<Param>, a: Alloc, c: Ctx, env: Env, d: Data, name: string)
    requires Related(params, a, c, env, d)
    ensures Related(params, a, c, env.(vars := env.vars - {name}), d)
  {
    hide ShapeOk, OutOk, ZeroOutside;
  }

  /** The increment at the end of the body takes iteration `k` to the start of iteration `k + 1`. */
  lemma NextIteration(
    params: seq<Param>, a: Alloc, c: Ctx, a3: Alloc, c3: Ctx, ind: string, r: reg, k: nat, env: Env, d: Data)
    requires Related(params, a3, c3, env, d) && ShapeOk(params, a, c.scope) && Extends(a, c.scope, a3)
    requires c3.scope == c.scope && c3.stale == c.stale && !c.top
    requires ind in c.scope && ind in a.syms && a.syms[ind].reg == r && r >= 9
    requires k + 1 < 0x1_0000_0000_0000_0000 && ind in env.vars && env.vars[ind] == k
    ensures var ran := Exec([Ins(AluImm(ADDI, r, r, 1))], d);
            !ran.returned && AtIteration(params, a, c, ind, k + 1, env, ran.d)
  {
    hide Exec, Effect;
    var i := AluImm(ADDI, r, r, 1);
    ExecSingleIns(i, d);
    AluImmEffectIs(ADDI, r, r, 1, d);
    assert a3.syms[ind].reg == r;
    NextHolds(a, c, a3, ind, r, k, env.vars, d.regs, Effect(Seen(i), ExtraRd(i), d).regs);
  }

  lemma NextHolds(a: Alloc, c: Ctx, a3: Alloc, ind: string, r: reg, k: nat, vars: Vars, regs: Regs, regs': Regs)
    requires AllocOk(a) && Extends(a, c.scope, a3) && c.scope <= a.syms.Keys && Holds(a3.syms, c.Readable(), vars, regs)
    requires ind in c.scope && ind in a.syms && a.syms[ind].reg == r && r >= 9
    requires k + 1 < 0x1_0000_0000_0000_0000 && ind in vars && vars[ind] == k
    requires regs' == regs[r := Mask64(regs[r] as int + 1)]
    ensures Holds(a.syms, c.Readable(), vars[ind := k + 1], regs')
  {
  }

  /** After the loop the induction variable is out of scope. */
  lemma LeaveLoop(
    params: seq<Param>, a: Alloc, c: Ctx, a2: Alloc, c1: Ctx, b: Alloc, env: Env, d: Data, dirty: set<int>, ind: string)
    requires Related(params, a2, c1, env, d) && c1.scope == c.scope + {ind} && ind !in c.scope
    requires c.stale - {ind} <= c1.stale <= c.stale + {ind}
    requires ShapeOk(params, a, c.scope) && ShapeOk(params, b, c.scope) && Extends(a, c.scope, b)
        && Extends(a, c.scope, a2)
    requires c.top ==> ZeroOutside(dirty, d.regs)
    ensures Related(params, b, c.(dirty := dirty), env, d)
  {
    hide AllocOk, ParamRegs, OutOk, ZeroOutside;
  }

  // ----- all statements -----

  lemma {:induction false} StmtRuns(params: seq<Param>, a: Alloc, c: Ctx, s: Stmt, env: Env, d: Data)
    requires Related(params, a, c, env, d) && StmtOk(a, c, s)
    requires LowerStmt(a, s).Ok? && ExecStmt(params, s, env).Ok?
    ensures var (b, code) := LowerStmt(a, s).value;
            Matches(params, b, CtxAfter(c, s, code), ExecStmt(params, s, env).value, Exec(code, d))
    decreases s, 1, 0
  {
    hide Exec, Lower, Eval, Written, Related, Finished, AddLocal, ExprOk, LowerAddr, LowerCall;
    match s
    case Decl(_, _, _) => DeclRuns(params, a, c, s, env, d);
    case Assign(op, lhs, rhs) =>
      FoldsAlike(op);
      if !op.Set? { CompoundAssign(params, op, lhs, rhs, env); }
      var value := if op.Set? then rhs else Bin(FoldedOp(op), lhs, rhs);
      if lhs.Id? { AssignRuns(params, a, c, lhs, value, env, d); } else { StoreRuns(params, a, c, lhs, value, env, d); }
    case For(_, _, _) => ForRuns(params, a, c, s, env, d);
    case If(cond, body) =>
      if cond.Const? && cond.v != 0 {
        ConstCond(a, cond, env);
        BlockRuns(params, a, c, body, env, d);
      } else {
        IfRuns(params, a, c, s, env, d);
      }
    case Return(_) => ReturnRuns(params, a, c, s, env, d);
    case ExprCall(call) => CallRuns(params, a, c, call, env, d);
    case IncDec(_, _) => IncDecRuns(params, a, c, s, env, d);
  }

  lemma FoldsAlike(op: AssignOp)
    requires !op.ShlSet? && !op.ShrSet?
    ensures !op.Set? ==> FoldedOp(op) == FoldedMeaning(op)
  {
  }

  lemma ConstCond(a: Alloc, e: Expr, env: Env)
    requires e.Const? && ExprOk(e) && e.v != 0
    ensures Eval(e, env.vars, env.mem) == Ok(Val(e.v, env.mem))
  {
  }

  lemma {:induction false} BlockRuns(params: seq<Param>, a: Alloc, c: Ctx, ss: seq<Stmt>, env: Env, d: Data)
    requires Related(params, a, c, env, d) && BlockOk(a, c, ss)
    requires LowerBlock(a, ss).Ok? && ExecBlock(params, ss, env).Ok?
    ensures var (b, code) := LowerBlock(a, ss).value;
            Matches(params, b, c.(dirty := c.dirty + Written(code)), ExecBlock(params, ss, env).value, Exec(code, d))
    decreases ss, 0, 0
  {
    hide LowerStmt, ExecStmt, StmtOk, AllocOk, Holds, ParamRegs, OutOk, ZeroOutside, Finished, ExecOne;
    if ss != [] {
      var (a1, first) := LowerStmt(a, ss[0]).value;
      var c1 := CtxAfter(c, ss[0], first);
      var done := ExecStmt(params, ss[0], env).value;
      StmtRuns(params, a, c, ss[0], env, d);
      var (b, rest) := LowerBlock(a1, ss[1..]).value;
      ExecAppend(first, rest, d);
      WrittenAppend(first, rest);
      if !done.returned {
        BlockRuns(params, a1, c1, ss[1..], done.env, Exec(first, d).d);
        var done2, ran := ExecBlock(params, ss[1..], done.env).value, Exec(rest, Exec(first, d).d);
        if !ran.returned {
          BlockNames(a, c, ss);
          StmtShape(params, a, c.scope, ss[0]);
          BlockShape(params, a1, c1.scope, ss[1..]);
          NarrowScope(params, b, c, c1, done2.env, ran.d, c.dirty + Written(first + rest), Written(rest));
        }
      }
    } else {
      NilRuns(d);
      assert c.(dirty := c.dirty + {}) == c;
    }
  }

  lemma NarrowScope(params: seq<Param>, b: Alloc, c: Ctx, c1: Ctx, env: Env, d: Data, dirty: set<int>, more: set<int>)
    requires Related(params, b, c1.(dirty := c1.dirty + more), env, d)
    requires c.scope <= c1.scope && c1.stale == c.stale && c1.top == c.top && c1.dirty + more <= dirty
    ensures Related(params, b, c.(dirty := dirty), env, d)
  {
    hide AllocOk, ParamRegs, OutOk;
  }
}
