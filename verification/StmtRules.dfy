/** The statements the correctness theorem covers, and what lowering them keeps. */
module StmtRules {
  import opened Isa
  import opened Machine
  import opened Ast
  import opened CodeTree
  import opened Lowering
  import opened Source
  import opened ExprCorrect

  /**
   * Where a statement stands: the names in scope; the induction variables among them whose register need not hold
   * their value; the scratch registers written by the code before it; and whether it is outside every loop.
   */
  datatype Ctx = Ctx(scope: set<string>, stale: set<string>, dirty: set<int>, top: bool) {
    function Readable(): set<string> { scope - stale }
  }

  /** Registers some instruction of the code writes. */
  function Written(code: seq<Node>): set<int>
    decreases code
  {
    if code == [] then {} else WrittenOne(code[0]) + Written(code[1..])
  }

  function WrittenOne(c: Node): set<int>
    decreases c
  {
    match c
    case Ins(i) => {i.rd as int}
    case Loop(_, _, body) => Written(body)
    case Skip(_, _, body) => Written(body)
    case _ => {}
  }

  /** Evaluating the expression writes no memory. */
  predicate Quiet(e: Expr)
    decreases e
  {
    match e
    case Bin(_, l, r) => Quiet(l) && Quiet(r)
    case Un(_, inner) => Quiet(inner)
    case Index(_, index) => Quiet(index)
    case Call(fn, args) =>
      fn != "tiara_memcpy" && fn != "tiara_cas" && fn != "tiara_caa" && forall a :: a in args ==> Quiet(a)
    case Cast(_, inner) => Quiet(inner)
    case _ => true
  }

  lemma {:induction false} QuietKeepsMemory(e: Expr, vars: Vars, mem: Mem)
    requires Quiet(e) && Eval(e, vars, mem).Ok?
    ensures Eval(e, vars, mem).value.mem == mem
    decreases e
  {
    match e
    case Bin(_, l, r) =>
      QuietKeepsMemory(l, vars, mem);
      QuietKeepsMemory(r, vars, mem);
    case Un(_, inner) => QuietKeepsMemory(inner, vars, mem);
    case Index(_, index) => QuietKeepsMemory(index, vars, mem);
    case Call(fn, args) =>
      if fn == "tiara_andi" {
        QuietKeepsMemory(args[0], vars, mem);
        QuietKeepsMemory(args[1], vars, mem);
      }
    case Cast(_, inner) => QuietKeepsMemory(inner, vars, mem);
    case _ =>
  }

  /** With a quiet index a compound assignment is the assignment it abbreviates. */
  lemma CompoundAssign(params: seq<Param>, op: AssignOp, lhs: Expr, rhs: Expr, env: Env)
    requires !op.Set? && (lhs.Index? ==> Quiet(lhs.index)) && ExecAssign(params, op, lhs, rhs, env).Ok?
    ensures ExecAssign(params, Set, lhs, Bin(FoldedMeaning(op), lhs, rhs), env) == ExecAssign(params, op, lhs, rhs, env)
  {
    hide BinValue, Element, SetVar, FoldedMeaning;
    if lhs.Index? {
      QuietKeepsMemory(lhs.index, env.vars, env.mem);
      assert Eval(lhs, env.vars, env.mem).Ok?;
    }
  }

  predicate ExprFine(e: Expr, names: set<string>) { ExprOk(e) && Reads(e) <= names }

  /** The context of a loop body.  The induction variable starts at zero only in a register nothing has written. */
  function LoopCtx(c: Ctx, ind: string, r: reg): Ctx {
    Ctx(c.scope + {ind}, if c.top && r as int !in c.dirty then c.stale - {ind} else c.stale + {ind}, {}, false)
  }

  function CtxAfter(c: Ctx, s: Stmt, code: seq<Node>): Ctx {
    c.(scope := ScopeAfter(c.scope, s), dirty := c.dirty + Written(code))
  }

  /**
   * Names are well used; only readable names are read; `<<=` and `>>=` do not occur; the index of a compound
   * assignment's target, which the compiler evaluates twice, is quiet; constants fit.  The allocator's state is
   * needed only to tell whether an induction variable starts at zero.
   */
  predicate StmtOk(a: Alloc, c: Ctx, s: Stmt)
    decreases s, 1
  {
    NamesOk(c.scope, s) &&
    match s
    case Decl(name, _, init) => init.Some? ==> ExprFine(init.value, c.Readable())
    case Assign(op, lhs, rhs) =>
      && !op.ShlSet? && !op.ShrSet?
      && ExprFine(if op.Set? then rhs else Bin(FoldedOp(op), lhs, rhs), c.Readable())
      && (lhs.Index? ==> ExprFine(lhs, c.Readable()) && (op.Set? || Quiet(lhs.index)))
    case For(ind, bound, body) =>
      && AddLocal(a, ind).Ok?
      && var (a1, r) := AddLocal(a, ind).value;
         && ExprFine(bound, LoopCtx(c, ind, r).Readable()) && Lower(a1, bound).Ok?
         && BlockOk(Fresh(Lower(a1, bound).value.a, "for_end").0, LoopCtx(c, ind, r), body)
    case If(cond, body) =>
      && ExprFine(cond, c.Readable())
      && (if cond.Const? && cond.v != 0 then BlockOk(a, c, body)
          else
            && LowerCondNegated(a, cond).Ok?
            && var x := LowerCondNegated(a, cond).value;
               BlockOk(MaybeFree(Fresh(x.a, "if_skip").0, x.r), c.(dirty := c.dirty + Written(x.code)), body))
    case Return(value) => value.Some? ==> ExprFine(value.value, c.Readable())
    case ExprCall(call) =>
      call.Call? && (if call.fn == "tiara_set_result" && |call.args| == 2 then ExprFine(call.args[1], c.Readable())
                     else ExprFine(call, c.Readable()))
    case IncDec(target, delta) => target in c.Readable() && SignedImm(delta)
  }

  predicate BlockOk(a: Alloc, c: Ctx, ss: seq<Stmt>)
    decreases ss, 0
  {
    ss == [] ||
    (&& StmtOk(a, c, ss[0]) && LowerStmt(a, ss[0]).Ok?
     && var (a1, code) := LowerStmt(a, ss[0]).value;
        BlockOk(a1, CtxAfter(c, ss[0], code), ss[1..]))
  }

  lemma {:induction false} BlockNames(a: Alloc, c: Ctx, ss: seq<Stmt>)
    requires BlockOk(a, c, ss)
    ensures BlockNamesOk(c.scope, ss)
    decreases ss
  {
    hide NamesOk, LowerStmt;
    if ss != [] {
      var (a1, code) := LowerStmt(a, ss[0]).value;
      BlockNames(a1, CtxAfter(c, ss[0], code), ss[1..]);
    }
  }

  // ----- what lowering keeps of the allocator -----

  /** A symbol in an argument register is the parameter that came in it. */
  predicate ParamRegs(params: seq<Param>, syms: map<string, Sym>) {
    forall n :: n in syms && syms[n].reg <= 8 ==>
      1 <= syms[n].reg <= |params| && params[syms[n].reg - 1].name == n && SlotOf(params, n) == syms[n].reg
  }

  predicate ShapeOk(params: seq<Param>, a: Alloc, scope: set<string>) {
    AllocOk(a) && scope <= a.syms.Keys && ParamRegs(params, a.syms)
  }

  /** Used registers stay used, names in scope keep their symbol. */
  predicate Extends(a: Alloc, scope: set<string>, b: Alloc) {
    AllocOk(b) && a.used <= b.used && forall n :: n in scope && n in a.syms ==> n in b.syms && b.syms[n] == a.syms[n]
  }

  lemma {:induction false} FreeUpFromIs(used: set<int>, r: int)
    requires 9 <= r
    ensures FreeUpFrom(used, r).Ok? ==> r <= FreeUpFrom(used, r).value <= 15 && FreeUpFrom(used, r).value !in used
    decreases 16 - r
  {
    if r <= 15 && r in used {
      FreeUpFromIs(used, r + 1);
    }
  }

  lemma AddLocalIs(params: seq<Param>, a: Alloc, scope: set<string>, name: string)
    requires ShapeOk(params, a, scope) && name !in scope && AddLocal(a, name).Ok?
    ensures var (b, r) := AddLocal(a, name).value;
            && ShapeOk(params, b, scope + {name}) && Extends(a, scope, b)
            && 9 <= r <= 15 && r !in a.used && r in b.used && b.syms[name] == Sym(r, false)
  {
    hide AllocOk, ParamRegs;
    FreeUpFromIs(a.used, 9);
    var r := AddLocal(a, name).value.1;
    NewLocal(a, name, r);
    LocalIsNoParam(params, a.syms, name, r);
  }

  lemma NewLocal(a: Alloc, name: string, r: reg)
    requires AllocOk(a) && 9 <= r && r as int !in a.used
    ensures AllocOk(a.(used := a.used + {r as int}, syms := a.syms[name := Sym(r, false)]))
  {
  }

  lemma LocalIsNoParam(params: seq<Param>, syms: map<string, Sym>, name: string, r: reg)
    requires ParamRegs(params, syms) && 9 <= r
    ensures ParamRegs(params, syms[name := Sym(r, false)])
  {
  }

  /** A lowered expression leaves its value in r0, a register not in use before, or that of a variable it reads. */
  lemma {:induction false} ResultReg(a: Alloc, e: Expr)
    requires AllocOk(a) && Lower(a, e).Ok?
    ensures var r := Lower(a, e).value.r;
            r !in a.used || exists n :: n in Reads(e) && n in a.syms && a.syms[n].reg == r
  {
    hide AllocOk, Temp, MaybeFree, OnlyScratch;
    match e
    case Const(v) => TempIs(a);
    case Id(name) =>
    case Cast(_, inner) => ResultReg(a, inner);
    case Un(op, inner) =>
      LowerShape(a, inner);
      FinishOne(a, Lower(a, inner).value);
    case Bin(op, l, r) =>
      LowerShape(a, l);
      var x := Lower(a, l).value;
      if TryConst(r).Some? && ImmSub(op).Some? {
        FinishOne(a, x);
      } else {
        LowerShape(x.a, r);
        FinishTwo(a, x, Lower(x.a, r).value);
      }
    case Index(base, index) =>
      LowerAddrShape(a, base, index);
      TempIs(LowerAddr(a, base, index).value.a);
    case Call(fn, args) => CallResultReg(a, fn, args);
  }

  lemma CallResultReg(a: Alloc, fn: string, args: seq<Expr>)
    requires AllocOk(a) && LowerCall(a, fn, args).Ok?
    ensures LowerCall(a, fn, args).value.r !in a.used
  {
    hide AllocOk, Temp, MaybeFree, OnlyScratch;
    ZeroMine(a);
    ZeroFree(a);
    if fn != "tiara_wait" && fn != "tiara_set_result" {
      LowerShape(a, args[0]);
      var x := Lower(a, args[0]).value;
      if fn == "tiara_andi" {
        FinishOne(a, x);
      } else if fn != "tiara_memcpy" {
        LowerShape(x.a, args[1]);
        var y := Lower(x.a, args[1]).value;
        if fn == "tiara_caa" {
          FinishTwo(a, x, y);
        } else {
          LowerShape(y.a, args[2]);
          FinishThree(a, x, y, Lower(y.a, args[2]).value);
        }
      }
    }
  }

  lemma ZeroFree(a: Alloc)
    requires AllocOk(a)
    ensures 0 !in a.used
  {
  }

  lemma CondShape(a: Alloc, e: Expr)
    requires AllocOk(a) && LowerCondNegated(a, e).Ok?
    ensures LoweredFits(a, LowerCondNegated(a, e).value) && LowerCondNegated(a, e).value.r !in a.used
    ensures ExprOk(e) ==> OnlyScratch(LowerCondNegated(a, e).value.code, a.used)
  {
    hide AllocOk, Temp, MaybeFree;
    if e.Bin? && e.op.Equal? {
      LowerShape(a, e.l);
      var x := Lower(a, e.l).value;
      LowerShape(x.a, e.r);
      var y := Lower(x.a, e.r).value;
      FinishTwo(a, x, y);
      TempIs(y.a);
      var (a1, rd) := Temp(y.a).value;
      TempIs(a1);
      var (a2, tmp) := Temp(a1).value;
      FinishFlip(a, x, y, a1, rd, a2, tmp);
    } else {
      LowerShape(a, e);
      FinishOne(a, Lower(a, e).value);
    }
  }

  lemma FinishFlip(a: Alloc, x: Lowered, y: Lowered, a1: Alloc, rd: reg, a2: Alloc, tmp: reg)
    requires AllocOk(a) && LoweredFits(a, x) && LoweredFits(x.a, y) && Grows(y.a, a1) && Grows(a1, a2)
    requires 9 <= rd && rd !in y.a.used && rd in a1.used && rd != x.r && rd != y.r
    requires 9 <= tmp && tmp !in a1.used
    ensures var b := MaybeFree(MaybeFree(MaybeFree(a2, x.r), y.r), tmp);
            Grows(a, b) && Held(b, rd) && tmp !in a.used
    ensures OnlyScratch(x.code, a.used) && OnlyScratch(y.code, x.a.used) ==>
              OnlyScratch(x.code + y.code
                + [Ins(Alu3(EQ, rd, x.r, y.r)), Ins(AluImm(LI, tmp, 0, 1)), Ins(Alu3(XOR, rd, rd, tmp))], a.used)
  {
    hide MaybeFree, Mine;
    assert Grows(a, a2);
    assert Mine(a, y.r) by { MineBefore(a, x.a, y.r); }
    assert Mine(a, tmp) by { FreshMine(a, tmp); }
    MaybeFreeGrows(a, a2, x.r);
    MaybeFreeGrows(a, MaybeFree(a2, x.r), y.r);
    MaybeFreeGrows(a, MaybeFree(MaybeFree(a2, x.r), y.r), tmp);
    MaybeFreeHeld(a2, x.r, rd);
    MaybeFreeHeld(MaybeFree(a2, x.r), y.r, rd);
    MaybeFreeHeld(MaybeFree(MaybeFree(a2, x.r), y.r), tmp, rd);
  }

  lemma FreshMine(a: Alloc, r: int)
    requires r !in a.used
    ensures Mine(a, r)
  {
  }

  /** Growing keeps the shape. */
  lemma GrowsExtends(params: seq<Param>, a: Alloc, scope: set<string>, b: Alloc)
    requires ShapeOk(params, a, scope) && Grows(a, b)
    ensures ShapeOk(params, b, scope) && Extends(a, scope, b)
  {
  }

  lemma ExtendsTrans(a: Alloc, b: Alloc, c: Alloc, scope: set<string>, more: set<string>)
    requires Extends(a, scope, b) && Extends(b, more, c) && scope <= more
    ensures Extends(a, scope, c)
  {
  }

  // ----- statements -----

  lemma {:induction false} StmtShape(params: seq<Param>, a: Alloc, scope: set<string>, s: Stmt)
    requires ShapeOk(params, a, scope) && NamesOk(scope, s) && LowerStmt(a, s).Ok?
    ensures var b := LowerStmt(a, s).value.0;
            ShapeOk(params, b, ScopeAfter(scope, s)) && Extends(a, scope, b)
    decreases s, 1
  {
    hide ShapeOk, Extends, AllocOk, Lower, MaybeFree, AddLocal, LowerAddr, LowerCall;
    ShapeAlloc(params, a, scope);
    match s
    case Decl(name, _, init) =>
      AddLocalIs(params, a, scope, name);
      if init.Some? {
        var a1 := AddLocal(a, name).value.0;
        ExprFreedShape(params, a1, scope + {name}, init.value);
        ExtendsTrans(a, a1, LowerStmt(a, s).value.0, scope, scope + {name});
      }
    case Assign(op, lhs, rhs) =>
      AssignShape(params, a, scope, lhs, if op.Set? then rhs else Bin(FoldedOp(op), lhs, rhs));
    case For(ind, bound, body) => ForShape(params, a, scope, s);
    case If(cond, body) =>
      if cond.Const? && cond.v != 0 {
        BlockShape(params, a, scope, body);
      } else {
        CondShape(a, cond);
        var x := LowerCondNegated(a, cond).value;
        var a1 := Fresh(x.a, "if_skip").0;
        FreshFreed(params, a, scope, x, a1);
        var a2 := MaybeFree(a1, x.r);
        BlockShape(params, a2, scope, body);
        ExtendsTrans(a, a2, LowerBlock(a2, body).value.0, scope, scope);
      }
    case Return(value) =>
      ExtendsSelf(params, a, scope);
      if value.Some? { ExprFreedShape(params, a, scope, value.value); }
    case ExprCall(call) => CallShape(params, a, scope, call);
    case IncDec(target, delta) => ExtendsSelf(params, a, scope);
  }

  lemma ShapeAlloc(params: seq<Param>, a: Alloc, scope: set<string>)
    requires ShapeOk(params, a, scope)
    ensures AllocOk(a)
  {
  }

  lemma ExtendsSelf(params: seq<Param>, a: Alloc, scope: set<string>)
    requires ShapeOk(params, a, scope)
    ensures Extends(a, scope, a)
  {
  }

  /** Lower an expression and free its register. */
  lemma ExprFreedShape(params: seq<Param>, a: Alloc, scope: set<string>, e: Expr)
    requires ShapeOk(params, a, scope) && Lower(a, e).Ok?
    ensures var x := Lower(a, e).value;
            var b := MaybeFree(x.a, x.r);
            ShapeOk(params, b, scope) && Extends(a, scope, b) && Grows(a, b)
  {
    hide AllocOk, MaybeFree;
    LowerShape(a, e);
    var x := Lower(a, e).value;
    MaybeFreeGrows(a, x.a, x.r);
    GrowsExtends(params, a, scope, MaybeFree(x.a, x.r));
  }

  lemma AssignShape(params: seq<Param>, a: Alloc, scope: set<string>, lhs: Expr, rhs: Expr)
    requires ShapeOk(params, a, scope) && LowerAssign(a, lhs, rhs).Ok?
    ensures var b := LowerAssign(a, lhs, rhs).value.0; ShapeOk(params, b, scope) && Extends(a, scope, b)
  {
    hide ShapeOk, Extends, AllocOk, Lower, MaybeFree, LowerAddr;
    if lhs.Id? {
      ExprFreedShape(params, a, scope, rhs);
    } else {
      ShapeAlloc(params, a, scope);
      LowerAddrShape(a, lhs.base, lhs.index);
      var addr := LowerAddr(a, lhs.base, lhs.index).value;
      GrowsExtends(params, a, scope, addr.a);
      ExprFreedShape(params, addr.a, scope, rhs);
      ExtendsTrans(a, addr.a, LowerAssign(a, lhs, rhs).value.0, scope, scope);
    }
  }

  lemma FreshFreed(params: seq<Param>, a: Alloc, scope: set<string>, x: Lowered, a1: Alloc)
    requires ShapeOk(params, a, scope) && LoweredFits(a, x) && a1 == x.a.(labelId := a1.labelId)
    ensures ShapeOk(params, MaybeFree(a1, x.r), scope) && Extends(a, scope, MaybeFree(a1, x.r))
    ensures MaybeFree(a1, x.r).syms == a.syms && a.used <= MaybeFree(a1, x.r).used
  {
    MaybeFreeGrows(a, x.a, x.r);
    assert MaybeFree(a1, x.r) == MaybeFree(x.a, x.r).(labelId := a1.labelId);
  }

  lemma CallShape(params: seq<Param>, a: Alloc, scope: set<string>, call: Expr)
    requires ShapeOk(params, a, scope) && call.Call? && LowerCall(a, call.fn, call.args).Ok?
    ensures var b := LowerCall(a, call.fn, call.args).value.a; ShapeOk(params, b, scope) && Extends(a, scope, b)
  {
    hide ShapeOk, Extends, AllocOk, LowerCall;
    ShapeAlloc(params, a, scope);
    LowerCallShape(a, call.fn, call.args);
    GrowsExtends(params, a, scope, LowerCall(a, call.fn, call.args).value.a);
  }

  lemma {:induction false} ForShape(params: seq<Param>, a: Alloc, scope: set<string>, s: Stmt)
    requires s.For? && ShapeOk(params, a, scope) && NamesOk(scope, s) && LowerStmt(a, s).Ok?
    ensures var b := LowerStmt(a, s).value.0; ShapeOk(params, b, scope) && Extends(a, scope, b)
    decreases s, 0
  {
    hide ShapeOk, Extends, AllocOk, Lower, MaybeFree, AddLocal;
    var For(ind, bound, body) := s;
    AddLocalIs(params, a, scope, ind);
    var (a1, r) := AddLocal(a, ind).value;
    var scope1 := scope + {ind};
    ShapeAlloc(params, a1, scope1);
    LowerShape(a1, bound);
    ResultReg(a1, bound);
    var n := Lower(a1, bound).value;
    var a2 := Fresh(n.a, "for_end").0;
    FreshExtends(params, a1, scope1, n.a, a2);
    BlockShape(params, a2, scope1, body);
    var a3 := LowerBlock(a2, body).value.0;
    ExtendsTrans(a1, a2, a3, scope1, scope1);
    LoopClosed(params, a, scope, a1, ind, r, Reads(bound), n.r, a3);
  }

  lemma FreshExtends(params: seq<Param>, a: Alloc, scope: set<string>, b: Alloc, b': Alloc)
    requires ShapeOk(params, a, scope) && Grows(a, b) && b' == b.(labelId := b'.labelId)
    ensures ShapeOk(params, b', scope) && Extends(a, scope, b') && b'.syms == a.syms
  {
  }

  /** Freeing the bound and the induction variable at the end of a loop. */
  lemma LoopClosed(
    params: seq<Param>, a: Alloc, scope: set<string>, a1: Alloc, ind: string, r: reg,
    read: set<string>, n: reg, a3: Alloc)
    requires ShapeOk(params, a, scope) && Extends(a, scope, a1) && ind !in scope && ind in a1.syms
    requires a1.syms[ind].reg == r && r !in a.used && r >= 9
    requires ShapeOk(params, a3, scope + {ind}) && Extends(a1, scope + {ind}, a3)
    requires read <= scope + {ind} && (n !in a1.used || exists m :: m in read && m in a1.syms && a1.syms[m].reg == n)
    ensures var a4 := Free(MaybeFree(a3, n), r);
            var b := a4.(syms := a4.syms - {ind});
            ShapeOk(params, b, scope) && Extends(a, scope, b)
  {
    hide MaybeFree, Free, ParamRegs;
    var a4 := MaybeFree(a3, n);
    BoundFreed(a, a1, scope + {ind}, read, n, a3);
    assert a3.syms[ind].reg == r;
    IndFreed(a4, ind, r);
    var b := Free(a4, r).(syms := a4.syms - {ind});
    assert a.used <= b.used;
    assert ParamRegs(params, b.syms) by { FewerSyms(params, a3.syms, ind); }
  }

  /** The bound's register is a variable's, which stays, or was free before the loop. */
  lemma BoundFreed(a: Alloc, a1: Alloc, scope: set<string>, read: set<string>, n: reg, a3: Alloc)
    requires a.used <= a1.used && Extends(a1, scope, a3) && read <= scope
    requires n !in a1.used || exists m :: m in read && m in a1.syms && a1.syms[m].reg == n
    ensures AllocOk(MaybeFree(a3, n)) && a.used <= MaybeFree(a3, n).used
  {
    if n in a1.used {
      var m :| m in read && m in a1.syms && a1.syms[m].reg == n;
      assert a3.syms[m].reg == n;
    }
  }

  lemma IndFreed(a: Alloc, ind: string, r: reg)
    requires AllocOk(a) && ind in a.syms && a.syms[ind].reg == r && r >= 9
    ensures AllocOk(Free(a, r).(syms := a.syms - {ind})) && Free(a, r).used == a.used - {r as int}
  {
  }

  lemma FewerSyms(params: seq<Param>, syms: map<string, Sym>, name: string)
    requires ParamRegs(params, syms)
    ensures ParamRegs(params, syms - {name})
  {
  }

  lemma {:induction false} BlockShape(params: seq<Param>, a: Alloc, scope: set<string>, ss: seq<Stmt>)
    requires ShapeOk(params, a, scope) && BlockNamesOk(scope, ss) && LowerBlock(a, ss).Ok?
    ensures var b := LowerBlock(a, ss).value.0; ShapeOk(params, b, scope) && Extends(a, scope, b)
    decreases ss, 0
  {
    hide Extends, AllocOk, LowerStmt, NamesOk, ParamRegs;
    if ss == [] {
      ExtendsSelf(params, a, scope);
    } else {
      var a1 := LowerStmt(a, ss[0]).value.0;
      StmtShape(params, a, scope, ss[0]);
      BlockShape(params, a1, ScopeAfter(scope, ss[0]), ss[1..]);
      ExtendsTrans(a, a1, LowerBlock(a, ss).value.0, scope, ScopeAfter(scope, ss[0]));
    }
  }
}
