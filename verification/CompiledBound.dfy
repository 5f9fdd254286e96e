/**
 * Which compiled loops the verifier bounds soundly: if every `for` counts to a parameter that nothing writes, no count
 * register is ever written, so an accepted program ends within its static bound.
 */
module CompiledBound {
  import opened Prelude
  import opened Isa
  import opened Machine
  import opened Structured
  import opened Verifier
  import opened VerifierSound
  import opened StepBoundSound
  import opened Assembler
  import opened Ast
  import opened CodeTree
  import opened CodeWords
  import opened Lowering
  import opened Source
  import opened ExprCorrect
  import opened StmtRules
  import opened StmtCorrect
  import opened CompilerCorrect
  import opened CompiledShape

  // ----- the condition on the source -----

  /** The result slots set inside an expression. */
  function SlotsIn(e: Expr): set<int>
    decreases e
  {
    match e
    case Bin(_, l, r) => SlotsIn(l) + SlotsIn(r)
    case Un(_, inner) => SlotsIn(inner)
    case Index(_, index) => SlotsIn(index)
    case Call(fn, args) =>
      (if fn == "tiara_set_result" && |args| == 2 && TryConst(args[0]).Some? then {TryConst(args[0]).value} else {})
      + SlotsInAll(args)
    case Cast(_, inner) => SlotsIn(inner)
    case _ => {}
  }

  function SlotsInAll(args: seq<Expr>): set<int>
    decreases args
  {
    if args == [] then {} else SlotsIn(args[0]) + SlotsInAll(args[1..])
  }

  /** The argument registers a statement may write: those of parameters it assigns and of results it sets. */
  function SetBy(params: seq<Param>, s: Stmt): set<int>
    decreases s, 1
  {
    match s
    case Decl(_, _, init) => if init.Some? then SlotsIn(init.value) else {}
    case Assign(_, lhs, rhs) => (if lhs.Id? then {SlotOf(params, lhs.name)} else SlotsIn(lhs)) + SlotsIn(rhs)
    case For(_, bound, body) => SlotsIn(bound) + SetByAll(params, body)
    case If(cond, body) => SlotsIn(cond) + SetByAll(params, body)
    case Return(value) => if value.Some? then {1} + SlotsIn(value.value) else {}
    case ExprCall(call) => SlotsIn(call)
    case IncDec(target, _) => {SlotOf(params, target)}
  }

  function SetByAll(params: seq<Param>, ss: seq<Stmt>): set<int>
    decreases ss, 0
  {
    if ss == [] then {} else SetBy(params, ss[0]) + SetByAll(params, ss[1..])
  }

  /** Every `for` counts to a parameter whose register is one of `kept`. */
  predicate CountsTo(params: seq<Param>, kept: set<int>, s: Stmt)
    decreases s, 1
  {
    match s
    case For(_, bound, body) => bound.Id? && SlotOf(params, bound.name) in kept && AllCountTo(params, kept, body)
    case If(_, body) => AllCountTo(params, kept, body)
    case _ => true
  }

  predicate AllCountTo(params: seq<Param>, kept: set<int>, ss: seq<Stmt>)
    decreases ss, 0
  {
    ss == [] || (CountsTo(params, kept, ss[0]) && AllCountTo(params, kept, ss[1..]))
  }

  /** No name is declared twice, and every `for` counts to a parameter that nothing assigns and no result overwrites. */
  predicate LoopsCounted(fn: FuncDef) {
    && BlockNamesOk(ParamNames(fn.params), fn.body)
    && AllCountTo(fn.params, {1, 2, 3, 4, 5, 6, 7, 8} - SetByAll(fn.params, fn.body), fn.body)
  }

  // ----- what lowered code writes -----

  /** Scratch registers, r0 and the given argument registers are all it writes. */
  predicate WritesWithin(code: seq<Node>, slots: set<int>) {
    forall r :: r in Written(code) ==> r == 0 || r >= 9 || r in slots
  }

  /** The count registers of its loops. */
  function CountRegs(code: seq<Node>): set<int>
    decreases code
  {
    if code == [] then {} else CountRegsOne(code[0]) + CountRegs(code[1..])
  }

  function CountRegsOne(c: Node): set<int>
    decreases c
  {
    match c
    case Loop(r, _, body) => {r as int} + CountRegs(body)
    case Skip(_, _, body) => CountRegs(body)
    case _ => {}
  }

  lemma {:induction false} CountRegsAppend(a: seq<Node>, b: seq<Node>)
    ensures CountRegs(a + b) == CountRegs(a) + CountRegs(b)
    decreases |a|
  {
    hide CountRegsOne;
    if a == [] {
      assert a + b == b;
    } else {
      assert (a + b)[1..] == a[1..] + b;
      CountRegsAppend(a[1..], b);
    }
  }

  lemma {:induction false} LinearCounts(code: seq<Node>)
    requires Linear(code)
    ensures CountRegs(code) == {}
    decreases |code|
  {
    if code != [] {
      assert code[0] in code && forall c :: c in code[1..] ==> c in code;
      LinearCounts(code[1..]);
    }
  }

  lemma WithinJoin(a: seq<Node>, b: seq<Node>, more: set<int>, less: set<int>, slots: set<int>)
    requires WritesWithin(a, more) && WritesWithin(b, less) && more <= slots && less <= slots
    ensures WritesWithin(a + b, slots)
  {
    WrittenAppend(a, b);
  }

  lemma WithinIns(i: Instr, slots: set<int>)
    requires i.rd == 0 || i.rd >= 9 || i.rd as int in slots
    ensures WritesWithin([Ins(i)], slots)
  {
    WrittenIns(i);
  }

  lemma WithinMore(code: seq<Node>, less: set<int>, slots: set<int>)
    requires WritesWithin(code, less) && less <= slots
    ensures WritesWithin(code, slots)
  {
  }

  lemma WithinNone(slots: set<int>)
    ensures WritesWithin([], slots)
  {
  }

  lemma WithinBad(slots: set<int>)
    ensures WritesWithin([Bad], slots)
  {
    assert [Bad][1..] == [];
  }

  /** Code, then one more instruction. */
  lemma WithinThen(code: seq<Node>, i: Instr, more: set<int>, slots: set<int>)
    requires WritesWithin(code, more) && more <= slots && (i.rd == 0 || i.rd >= 9 || i.rd as int in slots)
    ensures WritesWithin(code + [Ins(i)], slots)
  {
    WithinIns(i, slots);
    WithinJoin(code, [Ins(i)], more, slots, slots);
  }

  lemma TempScratch(a: Alloc)
    requires Temp(a).Ok?
    ensures Temp(a).value.1 >= 9
  {
    FreeFromScratch(a.used, 15);
  }

  lemma {:induction false} FreeFromScratch(used: set<int>, r: int)
    requires r <= 15 && FreeFrom(used, r).Ok?
    ensures FreeFrom(used, r).value >= 9
    decreases r
  {
    if r >= 9 && r in used {
      FreeFromScratch(used, r - 1);
    }
  }

  lemma {:induction false} LowerWrites(a: Alloc, e: Expr)
    requires Lower(a, e).Ok?
    ensures WritesWithin(Lower(a, e).value.code, SlotsIn(e))
    decreases e, 1
  {
    hide Temp, MaybeFree, Free, WritesWithin;
    match e
    case Const(v) =>
      TempScratch(a);
      WithinIns(AluImm(LI, Temp(a).value.1, 0, v), {});
    case Id(_) => WithinNone({});
    case Bin(_, _, _) => LowerBinWrites(a, e);
    case Un(op, inner) =>
      LowerWrites(a, inner);
      var x := Lower(a, inner).value;
      TempScratch(x.a);
      var rd := Temp(x.a).value.1;
      var i := if op.Negate? then Alu3(SUB, rd, 0, x.r) else Alu3(EQ, rd, x.r, 0);
      WithinThen(x.code, i, SlotsIn(inner), SlotsIn(e));
    case Index(base, index) =>
      AddrWrites(a, base, index);
      var addr := LowerAddr(a, base, index).value;
      TempScratch(addr.a);
      WithinThen(addr.code, Instr(LOAD, Temp(addr.a).value.1, addr.base, 0, 0, addr.off, None), SlotsIn(index),
                 SlotsIn(e));
    case Call(fn, args) => CallWrites(a, fn, args);
    case Cast(_, inner) => LowerWrites(a, inner);
  }

  lemma {:induction false} LowerBinWrites(a: Alloc, e: Expr)
    requires e.Bin? && LowerBin(a, e).Ok?
    ensures WritesWithin(LowerBin(a, e).value.code, SlotsIn(e))
    decreases e, 0
  {
    hide Temp, MaybeFree, WritesWithin, Lower;
    LowerWrites(a, e.l);
    var x := Lower(a, e.l).value;
    if TryConst(e.r).Some? && ImmSub(e.op).Some? {
      TempScratch(x.a);
      WithinThen(x.code, AluImm(ImmSub(e.op).value, Temp(x.a).value.1, x.r, TryConst(e.r).value), SlotsIn(e.l),
                 SlotsIn(e));
    } else {
      LowerWrites(x.a, e.r);
      var y := Lower(x.a, e.r).value;
      TempScratch(y.a);
      WithinJoin(x.code, y.code, SlotsIn(e.l), SlotsIn(e.r), SlotsIn(e));
      WithinThen(x.code + y.code, Alu3(RegSub(e.op).value, Temp(y.a).value.1, x.r, y.r), SlotsIn(e), SlotsIn(e));
    }
  }

  lemma {:induction false} AddrWrites(a: Alloc, base: Expr, index: Expr)
    requires LowerAddr(a, base, index).Ok?
    ensures WritesWithin(LowerAddr(a, base, index).value.code, SlotsIn(index))
    decreases index, 2
  {
    hide Temp, MaybeFree, Free, WritesWithin, Lower;
    if TryConst(index).Some? {
      WithinNone(SlotsIn(index));
    } else {
      LowerWrites(a, index);
      var x := Lower(a, index).value;
      TempScratch(x.a);
      var (a1, scale) := Temp(x.a).value;
      TempScratch(a1);
      var sum := Temp(a1).value.1;
      var first, second := AluImm(SHLI, scale, x.r, 3), Alu3(ADD, sum, Lookup(a, base.name).value.reg, scale);
      WithinThen(x.code, first, SlotsIn(index), SlotsIn(index));
      WithinThen(x.code + [Ins(first)], second, SlotsIn(index), SlotsIn(index));
      assert x.code + [Ins(first)] + [Ins(second)] == x.code + [Ins(first), Ins(second)];
    }
  }

  lemma {:induction false} SlotsOfArg(args: seq<Expr>, i: nat)
    requires i < |args|
    ensures SlotsIn(args[i]) <= SlotsInAll(args)
  {
    if i > 0 {
      SlotsOfArg(args[1..], i - 1);
    }
  }

  lemma {:induction false} CallWrites(a: Alloc, fn: string, args: seq<Expr>)
    requires LowerCall(a, fn, args).Ok?
    ensures WritesWithin(LowerCall(a, fn, args).value.code, SlotsIn(Call(fn, args)))
    decreases args, 2
  {
    hide Temp, MaybeFree, WritesWithin, Lower;
    var slots := SlotsIn(Call(fn, args));
    if fn == "tiara_wait" {
      WithinIns(Instr(WAIT, 0, 0, 0, 0, RequireConst(args[0]).value, None), slots);
    } else if fn == "tiara_set_result" {
      SlotsOfArg(args, 1);
      LowerWrites(a, args[1]);
      var x := Lower(a, args[1]).value;
      WithinThen(x.code, AluImm(ADDI, RequireConst(args[0]).value, x.r, 0), SlotsIn(args[1]), slots);
    } else {
      SlotsOfArg(args, 0);
      LowerWrites(a, args[0]);
      var x := Lower(a, args[0]).value;
      if fn == "tiara_andi" {
        WithinMore(x.code, SlotsIn(args[0]), slots);
        AndiWrites(a, args, x, slots);
      } else {
        SlotsOfArg(args, 1);
        LowerWrites(x.a, args[1]);
        var y := Lower(x.a, args[1]).value;
        WithinJoin(x.code, y.code, SlotsIn(args[0]), SlotsIn(args[1]), slots);
        if fn == "tiara_memcpy" {
          MemcpyWrites(a, args, x, y, slots);
        } else if fn == "tiara_caa" {
          TempScratch(y.a);
          WithinThen(x.code + y.code, Instr(CAA, Temp(y.a).value.1, x.r, y.r, 0, 0, Some(NO_EXTRA)), slots, slots);
        } else {
          SlotsOfArg(args, 2);
          LowerWrites(y.a, args[2]);
          var z := Lower(y.a, args[2]).value;
          TempScratch(z.a);
          WithinJoin(x.code + y.code, z.code, slots, SlotsIn(args[2]), slots);
          var i := Instr(CAS, Temp(z.a).value.1, x.r, y.r, 0, 0, Some(NO_EXTRA.(rd := z.r)));
          WithinThen(x.code + y.code + z.code, i, slots, slots);
        }
      }
    }
  }

  lemma AndiWrites(a: Alloc, args: seq<Expr>, x: Lowered, slots: set<int>)
    requires LowerCall(a, "tiara_andi", args).Ok? && Lower(a, args[0]) == Ok(x) && WritesWithin(x.code, slots)
    ensures WritesWithin(LowerCall(a, "tiara_andi", args).value.code, slots)
  {
    hide Temp, MaybeFree, WritesWithin, Lower;
    TempScratch(x.a);
    var mask := RequireConst(args[1]).value;
    if mask < 0 {
      WithinBad(slots);
      WithinJoin(x.code, [Bad], slots, slots, slots);
    } else {
      WithinThen(x.code, AluImm(ANDI, Temp(x.a).value.1, x.r, mask), slots, slots);
    }
  }

  lemma MemcpyWrites(a: Alloc, args: seq<Expr>, x: Lowered, y: Lowered, slots: set<int>)
    requires LowerCall(a, "tiara_memcpy", args).Ok? && Lower(a, args[0]) == Ok(x) && Lower(x.a, args[1]) == Ok(y)
    requires WritesWithin(x.code + y.code, slots)
    ensures WritesWithin(LowerCall(a, "tiara_memcpy", args).value.code, slots)
  {
    hide Temp, MaybeFree, WritesWithin, Lower;
    var async := if RequireConst(args[3]).value != 0 then 1 else 0;
    WithinThen(x.code + y.code, Instr(MEMCPY, 0, x.r, y.r, async, RequireConst(args[2]).value, Some(NO_EXTRA)),
               slots, slots);
  }

  lemma CondWrites(a: Alloc, e: Expr)
    requires LowerCondNegated(a, e).Ok?
    ensures WritesWithin(LowerCondNegated(a, e).value.code, SlotsIn(e))
  {
    hide Temp, MaybeFree, WritesWithin, Lower;
    var slots := SlotsIn(e);
    if e.Bin? && e.op.Equal? {
      LowerWrites(a, e.l);
      var x := Lower(a, e.l).value;
      LowerWrites(x.a, e.r);
      var y := Lower(x.a, e.r).value;
      TempScratch(y.a);
      var (a1, rd) := Temp(y.a).value;
      TempScratch(a1);
      var tmp := Temp(a1).value.1;
      var (i, j, k) := (Alu3(EQ, rd, x.r, y.r), AluImm(LI, tmp, 0, 1), Alu3(XOR, rd, rd, tmp));
      WithinJoin(x.code, y.code, SlotsIn(e.l), SlotsIn(e.r), slots);
      WithinThen(x.code + y.code, i, slots, slots);
      WithinThen(x.code + y.code + [Ins(i)], j, slots, slots);
      WithinThen(x.code + y.code + [Ins(i)] + [Ins(j)], k, slots, slots);
      assert x.code + y.code + [Ins(i)] + [Ins(j)] + [Ins(k)] == x.code + y.code + [Ins(i), Ins(j), Ins(k)];
    } else {
      LowerWrites(a, e);
      var x := Lower(a, e).value;
      TempScratch(x.a);
      WithinThen(x.code, Alu3(EQ, Temp(x.a).value.1, x.r, 0), slots, slots);
    }
  }

  // ----- statements -----

  /** Parameters are in scope and in their argument registers. */
  predicate ArgsHeld(params: seq<Param>, a: Alloc, scope: set<string>) {
    forall n :: n in ParamNames(params) ==> n in scope && n in a.syms && a.syms[n].reg == SlotOf(params, n)
  }

  lemma HeldAfter(params: seq<Param>, a: Alloc, scope: set<string>, b: Alloc, more: set<string>)
    requires ArgsHeld(params, a, scope) && Extends(a, scope, b) && scope <= more
    ensures ArgsHeld(params, b, more)
  {
    hide AllocOk, SlotOf;
  }

  lemma {:induction false} SlotNamed(params: seq<Param>, name: string)
    ensures SlotOf(params, name) != 0 ==> name in ParamNames(params)
    decreases |params|
  {
    if params != [] {
      var n := |params| - 1;
      assert params[n] in params && forall p :: p in params[..n] ==> p in params;
      SlotNamed(params[..n], name);
    }
  }

  /** Code that writes no more than `slots` and counts only to `kept`. */
  predicate Tame(code: seq<Node>, slots: set<int>, kept: set<int>) {
    WritesWithin(code, slots) && CountRegs(code) <= kept
  }

  lemma LinearTame(code: seq<Node>, slots: set<int>, kept: set<int>)
    requires Linear(code) && WritesWithin(code, slots)
    ensures Tame(code, slots, kept)
  {
    LinearCounts(code);
  }

  lemma TameJoin(a: seq<Node>, b: seq<Node>, more: set<int>, less: set<int>, slots: set<int>, kept: set<int>)
    requires Tame(a, more, kept) && Tame(b, less, kept) && more <= slots && less <= slots
    ensures Tame(a + b, slots, kept)
  {
    hide WritesWithin;
    WithinJoin(a, b, more, less, slots);
    CountRegsAppend(a, b);
  }

  /** The register of a variable is scratch or the argument register the source says. */
  lemma VarReg(params: seq<Param>, a: Alloc, scope: set<string>, name: string)
    requires ShapeOk(params, a, scope) && name in a.syms
    ensures a.syms[name].reg >= 9 || a.syms[name].reg == SlotOf(params, name)
  {
  }

  lemma {:induction false} StmtTame(params: seq<Param>, a: Alloc, scope: set<string>, s: Stmt, kept: set<int>)
    requires ShapeOk(params, a, scope) && NamesOk(scope, s) && LowerStmt(a, s).Ok? && ArgsHeld(params, a, scope)
    requires CountsTo(params, kept, s) && 0 !in kept
    ensures Tame(LowerStmt(a, s).value.1, SetBy(params, s), kept)
    decreases s, 1
  {
    hide ShapeOk, Lower, MaybeFree, AddLocal, LowerAddr, LowerCall, LowerCondNegated, WritesWithin, Tame, ArgsHeld,
         Linear;
    var code := LowerStmt(a, s).value.1;
    match s
    case Decl(name, _, init) =>
      AddLocalIs(params, a, scope, name);
      if init.Some? {
        MoveWrites(AddLocal(a, name).value.0, init.value, AddLocal(a, name).value.1, SlotsIn(init.value));
      } else {
        WithinNone({});
      }
      StmtLinear(a, s);
      LinearTame(code, SetBy(params, s), kept);
    case Assign(op, lhs, rhs) =>
      AssignWrites(params, a, scope, op, lhs, rhs);
      StmtLinear(a, s);
      LinearTame(code, SetBy(params, s), kept);
    case For(_, _, _) => ForTame(params, a, scope, s, kept);
    case If(cond, body) =>
      if cond.Const? && cond.v != 0 {
        BlockTame(params, a, scope, body, kept);
        TameMore(code, SetByAll(params, body), SetBy(params, s), kept);
      } else {
        IfTame(params, a, scope, s, kept);
      }
    case Return(value) => ReturnTame(params, a, s, kept);
    case ExprCall(call) =>
      CallWrites(a, call.fn, call.args);
      StmtLinear(a, s);
      LinearTame(code, SetBy(params, s), kept);
    case IncDec(target, delta) =>
      VarReg(params, a, scope, target);
      WithinIns(AluImm(ADDI, a.syms[target].reg, a.syms[target].reg, delta), SetBy(params, s));
      StmtLinear(a, s);
      LinearTame(code, SetBy(params, s), kept);
  }

  lemma TameMore(code: seq<Node>, less: set<int>, slots: set<int>, kept: set<int>)
    requires Tame(code, less, kept) && less <= slots
    ensures Tame(code, slots, kept)
  {
  }

  lemma StmtLinear(a: Alloc, s: Stmt)
    requires LowerStmt(a, s).Ok? && (s.Decl? || s.Assign? || s.ExprCall? || s.IncDec?)
    ensures Linear(LowerStmt(a, s).value.1)
  {
    hide Lower, MaybeFree, AddLocal, LowerAddr, LowerCall;
    match s
    case Decl(name, _, init) => if init.Some? { LowerLinear(AddLocal(a, name).value.0, init.value); }
    case Assign(op, lhs, rhs) => AssignLinear(a, lhs, if op.Set? then rhs else Bin(FoldedOp(op), lhs, rhs));
    case ExprCall(call) => LowerCallLinear(a, call.fn, call.args);
    case IncDec(_, _) =>
  }

  /** An expression, and a move of its value. */
  lemma MoveWrites(a: Alloc, e: Expr, rd: reg, slots: set<int>)
    requires Lower(a, e).Ok? && SlotsIn(e) <= slots && (rd >= 9 || rd as int in slots)
    ensures WritesWithin(Lower(a, e).value.code + [Move(rd, Lower(a, e).value.r)], slots)
  {
    hide Lower, WritesWithin;
    LowerWrites(a, e);
    WithinThen(Lower(a, e).value.code, AluImm(ADDI, rd, Lower(a, e).value.r, 0), SlotsIn(e), slots);
  }

  lemma AssignWrites(params: seq<Param>, a: Alloc, scope: set<string>, op: AssignOp, lhs: Expr, rhs: Expr)
    requires ShapeOk(params, a, scope) && LowerStmt(a, Assign(op, lhs, rhs)).Ok?
    ensures WritesWithin(LowerStmt(a, Assign(op, lhs, rhs)).value.1, SetBy(params, Assign(op, lhs, rhs)))
  {
    hide ShapeOk, Lower, MaybeFree, LowerAddr, WritesWithin;
    var slots := SetBy(params, Assign(op, lhs, rhs));
    var value := if op.Set? then rhs else Bin(FoldedOp(op), lhs, rhs);
    if lhs.Id? {
      assert SlotsIn(value) == SlotsIn(rhs);
      VarReg(params, a, scope, lhs.name);
      MoveWrites(a, value, a.syms[lhs.name].reg, slots);
    } else {
      assert SlotsIn(value) <= slots;
      AddrWrites(a, lhs.base, lhs.index);
      var addr := LowerAddr(a, lhs.base, lhs.index).value;
      LowerWrites(addr.a, value);
      var x := Lower(addr.a, value).value;
      WithinJoin(addr.code, x.code, SlotsIn(lhs.index), SlotsIn(value), slots);
      WithinThen(addr.code + x.code, Instr(STORE, 0, addr.base, x.r, 0, addr.off, None), slots, slots);
    }
  }

  lemma ReturnTame(params: seq<Param>, a: Alloc, s: Stmt, kept: set<int>)
    requires s.Return? && LowerStmt(a, s).Ok?
    ensures Tame(LowerStmt(a, s).value.1, SetBy(params, s), kept)
  {
    hide Lower, MaybeFree, WritesWithin, Tame, Linear;
    if s.value.None? {
      RetTame(0, {}, kept);
    } else {
      var e := s.value.value;
      var x, slots := Lower(a, e).value, SetBy(params, s);
      LowerWrites(a, e);
      LowerLinear(a, e);
      LinearTame(x.code, SlotsIn(e), kept);
      RetTame(1, slots, kept);
      if x.r != 1 {
        WithinIns(AluImm(ADDI, 1, x.r, 0), slots);
        MoveLinear(1, x.r);
        LinearTame([Move(1, x.r)], slots, kept);
        TameJoin(x.code, [Move(1, x.r)], SlotsIn(e), slots, slots, kept);
        TameJoin(x.code + [Move(1, x.r)], [Ret(1)], slots, slots, slots, kept);
      } else {
        TameJoin(x.code, [Ret(1)], SlotsIn(e), slots, slots, kept);
        assert x.code + [] == x.code;
      }
    }
  }

  lemma MoveLinear(rd: reg, rs: reg)
    ensures Linear([Move(rd, rs)])
  {
  }

  lemma RetTame(r: reg, slots: set<int>, kept: set<int>)
    ensures Tame([Ret(r)], slots, kept)
  {
    assert [Ret(r)][1..] == [];
  }

  lemma {:induction false} IfTame(params: seq<Param>, a: Alloc, scope: set<string>, s: Stmt, kept: set<int>)
    requires s.If? && !(s.cond.Const? && s.cond.v != 0)
    requires ShapeOk(params, a, scope) && NamesOk(scope, s) && LowerStmt(a, s).Ok? && ArgsHeld(params, a, scope)
    requires CountsTo(params, kept, s) && 0 !in kept
    ensures Tame(LowerStmt(a, s).value.1, SetBy(params, s), kept)
    decreases s, 0
  {
    hide ShapeOk, Lower, MaybeFree, LowerCondNegated, WritesWithin, Tame, ArgsHeld, Linear, Extends, AllocOk;
    var If(cond, body) := s;
    ShapeAlloc(params, a, scope);
    CondShape(a, cond);
    CondWrites(a, cond);
    CondLinear(a, cond);
    var x := LowerCondNegated(a, cond).value;
    var (a1, skip) := Fresh(x.a, "if_skip");
    var a2 := MaybeFree(a1, x.r);
    FreshFreed(params, a, scope, x, a1);
    HeldAfter(params, a, scope, a2, scope);
    BlockTame(params, a2, scope, body, kept);
    var inner := LowerBlock(a2, body).value.1;
    SkipTame(x.r, skip, inner, SetByAll(params, body), kept);
    LinearTame(x.code, SlotsIn(cond), kept);
    TameJoin(x.code, [Skip(x.r, skip, inner)], SlotsIn(cond), SetByAll(params, body), SetBy(params, s), kept);
  }

  lemma SkipTame(r: reg, end: string, body: seq<Node>, slots: set<int>, kept: set<int>)
    requires Tame(body, slots, kept)
    ensures Tame([Skip(r, end, body)], slots, kept)
  {
    assert [Skip(r, end, body)][1..] == [];
  }

  lemma LoopTame(r: reg, end: string, body: seq<Node>, slots: set<int>, kept: set<int>)
    requires Tame(body, slots, kept) && r as int in kept
    ensures Tame([Loop(r, end, body)], slots, kept)
  {
    assert [Loop(r, end, body)][1..] == [];
  }

  lemma {:induction false} ForTame(params: seq<Param>, a: Alloc, scope: set<string>, s: Stmt, kept: set<int>)
    requires s.For? && ShapeOk(params, a, scope) && NamesOk(scope, s) && LowerStmt(a, s).Ok?
        && ArgsHeld(params, a, scope)
    requires CountsTo(params, kept, s) && 0 !in kept
    ensures Tame(LowerStmt(a, s).value.1, SetBy(params, s), kept)
    decreases s, 0
  {
    hide ShapeOk, MaybeFree, AddLocal, WritesWithin, Tame, ArgsHeld, Linear, Extends, AllocOk, Free;
    var For(ind, bound, body) := s;
    AddLocalIs(params, a, scope, ind);
    var (a1, r) := AddLocal(a, ind).value;
    var scope1 := scope + {ind};
    HeldAfter(params, a, scope, a1, scope1);
    SlotNamed(params, bound.name);
    ParamReg(params, a1, scope1, bound.name);
    var (a2, end) := Fresh(a1, "for_end");
    ShapeAlloc(params, a1, scope1);
    FreshKeeps(params, a1, scope1, a2);
    HeldAfter(params, a1, scope1, a2, scope1);
    BlockTame(params, a2, scope1, body, kept);
    var inner := LowerBlock(a2, body).value.1;
    var slots := SetByAll(params, body);
    var step := Ins(AluImm(ADDI, r, r, 1));
    WithinIns(AluImm(ADDI, r, r, 1), slots);
    MoveStepLinear(r);
    LinearTame([step], slots, kept);
    TameJoin(inner, [step], slots, slots, slots, kept);
    LoopTame(a1.syms[bound.name].reg, end, inner + [step], slots, kept);
    assert SlotsIn(bound) == {} && SetBy(params, s) == slots;
    assert [] + [Loop(a1.syms[bound.name].reg, end, inner + [step])]
      == [Loop(a1.syms[bound.name].reg, end, inner + [step])];
  }

  lemma MoveStepLinear(r: reg)
    ensures Linear([Ins(AluImm(ADDI, r, r, 1))])
  {
  }

  lemma FreshKeeps(params: seq<Param>, a: Alloc, scope: set<string>, b: Alloc)
    requires ShapeOk(params, a, scope) && b == a.(labelId := b.labelId)
    ensures ShapeOk(params, b, scope) && Extends(a, scope, b)
  {
  }

  lemma ParamReg(params: seq<Param>, a: Alloc, scope: set<string>, name: string)
    requires ArgsHeld(params, a, scope) && name in ParamNames(params)
    ensures name in a.syms && a.syms[name].reg == SlotOf(params, name)
  {
  }

  lemma {:induction false} BlockTame(params: seq<Param>, a: Alloc, scope: set<string>, ss: seq<Stmt>, kept: set<int>)
    requires ShapeOk(params, a, scope) && BlockNamesOk(scope, ss) && LowerBlock(a, ss).Ok? && ArgsHeld(params, a, scope)
    requires AllCountTo(params, kept, ss) && 0 !in kept
    ensures Tame(LowerBlock(a, ss).value.1, SetByAll(params, ss), kept)
    decreases ss, 0
  {
    hide ShapeOk, LowerStmt, NamesOk, Extends, ArgsHeld, Tame, CountsTo, SetBy;
    if ss == [] {
      NilTame(kept);
    } else {
      var (a1, first) := LowerStmt(a, ss[0]).value;
      var scope1 := ScopeAfter(scope, ss[0]);
      StmtTame(params, a, scope, ss[0], kept);
      StmtShape(params, a, scope, ss[0]);
      HeldAfter(params, a, scope, a1, scope1);
      BlockTame(params, a1, scope1, ss[1..], kept);
      TameJoin(first, LowerBlock(a1, ss[1..]).value.1, SetBy(params, ss[0]), SetByAll(params, ss[1..]),
               SetByAll(params, ss), kept);
    }
  }

  lemma NilTame(kept: set<int>)
    ensures Tame([], {}, kept)
  {
  }

  lemma ArgsStart(params: seq<Param>)
    requires AddArgs(params).Ok?
    ensures ArgsHeld(params, AddArgs(params).value, ParamNames(params))
  {
    ArgsShape(params);
  }

  /** A whole function counts only to registers it does not write. */
  lemma FunctionTame(fn: FuncDef)
    requires LowerFunction(fn).Ok? && LoopsCounted(fn)
    ensures var code := LowerFunction(fn).value; CountRegs(code) !! Written(code)
  {
    hide ShapeOk, LowerBlock, ArgsHeld, EndsWithRet, Flatten, BlockNamesOk, AllCountTo, SetByAll;
    var a := AddArgs(fn.params).value;
    var slots := SetByAll(fn.params, fn.body);
    var kept := {1, 2, 3, 4, 5, 6, 7, 8} - slots;
    ArgsShape(fn.params);
    ArgsStart(fn.params);
    BlockTame(fn.params, a, ParamNames(fn.params), fn.body, kept);
    var code := LowerBlock(a, fn.body).value.1;
    RetTame(0, {}, kept);
    TameJoin(code, [Ret(0)], slots, {}, slots, kept);
  }

  // ----- words -----

  lemma {:induction false} SweptListed(code: Code, pc: nat, q: nat) returns (k: nat)
    requires Swept(code, pc, q) && q < |code|
    ensures k < |SweepFrom(code, pc)| && SweepFrom(code, pc)[k] == (q, At(code, q))
    decreases |code| - pc
  {
    hide At;
    if pc == q {
      k := 0;
    } else {
      SweptFits(code, pc + Width(At(code, pc).op), q);
      k := SweptListed(code, pc + Width(At(code, pc).op), q);
      k := k + 1;
    }
  }

  /** The instruction at a swept place comes from a line. */
  lemma LineAt(lines: seq<Line>, q: nat) returns (line: Line)
    requires Assemble(lines).Ok? && q < |Assemble(lines).value.words| && Swept(Assemble(lines).value.words, 0, q)
    ensures line in lines && line.Op?
    ensures var h := At(Assemble(lines).value.words, q);
            h.op == line.instr.op && h.rd == line.instr.rd && h.rs1 == line.instr.rs1
  {
    hide SweepFrom, Emit, LayOut, EndToEnd, Patch, SweepExact, At, Swept;
    var prog, l := Assemble(lines).value, LayOut(lines).value;
    SweepIsExact(lines);
    LayOutEndToEnd(lines);
    EmitPlaces(l.pendings, l.labels, l.pc);
    var k := SweptListed(prog.words, 0, q);
    SweepShowsAt(prog, k);
    var p := l.pendings[k];
    PatchKeepsOp(p, l.labels);
    var j := PendingFromLine(lines, p);
    line := lines[j];
  }

  /** What a line writes or counts to, the tree does. */
  lemma {:induction false} LineInTree(cs: seq<Node>, line: Line)
    requires Wf(cs) && line in Flatten(cs) && line.Op?
    ensures line.instr.op.LOOP? ==> line.instr.rs1 as int in CountRegs(cs)
    ensures Straight(line.instr.op) ==> line.instr.rd as int in Written(cs)
    decreases cs
  {
    var c, rest := cs[0], cs[1..];
    assert c in cs && forall x :: x in rest ==> x in cs;
    if line in Flatten(rest) {
      LineInTree(rest, line);
    } else if (c.Loop? || c.Skip?) && line in Flatten(c.body) {
      LineInTree(c.body, line);
    }
  }

  lemma CompiledCountsUntouched(fn: FuncDef)
    requires Compile(fn).Ok? && Assemble(Compile(fn).value).Ok? && LoopsCounted(fn)
    ensures var words := Assemble(Compile(fn).value).value.words;
            WellNested(words, 0, |words|) && CountsUntouched(words)
  {
    hide Assemble, LowerFunction, Flatten, Wf, At, Swept, WellNested, Horizon, LoopsCounted, CountRegs, Written;
    var lines, cs := Compile(fn).value, LowerFunction(fn).value;
    var words := Assemble(lines).value.words;
    FunctionWf(fn);
    CompiledRealised(fn);
    FunctionTame(fn);
    forall q: nat | q < |words| && Swept(words, 0, q) && At(words, q).op.LOOP?
      ensures forall t :: !WrittenBelow(words, At(words, q).rs1, t)
    {
      var r := At(words, q).rs1;
      var line := LineAt(lines, q);
      LineInTree(cs, line);
      forall p: nat | p < |words| && Swept(words, 0, p) && WritesRd(At(words, p)) ensures At(words, p).rd != r {
        var other := LineAt(lines, p);
        LineInTree(cs, other);
      }
    }
  }

  /**
   * From source to bound: compiled and accepted, with its arguments in bounds, a function whose loops count to
   * untouched parameters ends within the verifier's static bound, at most maxDynamic steps.
   */
  lemma CompiledWithinBound(fn: FuncDef, man: Manifest, args: seq<int>, mem: Mem)
    requires Compile(fn).Ok? && Assemble(Compile(fn).value).Ok? && LoopsCounted(fn)
    requires Verify(Assemble(Compile(fn).value).value.words, man).ok
    requires ArgsInBounds(Reset(args, mem).d.regs, man.arguments)
    ensures EndsWithin(Assemble(Compile(fn).value).value.words, man, args, mem)
  {
    hide Assemble, Lowering.Compile, WellNested, CountsUntouched, Verify, EndsWithin, LoopsCounted, Reset, ArgsInBounds;
    CompiledCountsUntouched(fn);
    CompiledNotEmpty(fn);
    BoundHoldsForArgumentCounts(Assemble(Compile(fn).value).value.words, man, args, mem);
  }
}
