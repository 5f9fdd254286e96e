/** Expression lowering: the emitted code computes the value and disturbs no register that is in use. */
module ExprCorrect {
  import opened Prelude
  import opened Isa
  import opened Machine
  import opened Ast
  import opened CodeTree
  import opened Lowering
  import opened Source

  // ----- what the theorem is stated for -----

  /**
   * Constants fit a signed immediate, so do the byte offsets of constant indices; a constant mask is not
   * negative; results are set only by statements.
   */
  predicate ExprOk(e: Expr)
    decreases e
  {
    match e
    case Const(v) => SignedImm(v)
    case Id(_) => true
    case Bin(op, l, r) =>
      ExprOk(l) && ExprOk(r) && (op.BitAnd? && TryConst(r).Some? ==> TryConst(r).value >= 0)
    case Un(_, inner) => ExprOk(inner)
    case Index(_, index) => ExprOk(index) && (TryConst(index).Some? ==> SignedImm(TryConst(index).value * 8))
    case Call(fn, args) =>
      && fn != "tiara_set_result"
      && (forall x :: x in args ==> ExprOk(x))
      && (fn == "tiara_andi" && |args| == 2 && TryConst(args[1]).Some? ==> TryConst(args[1]).value >= 0)
    case Cast(_, inner) => ExprOk(inner)
  }

  // ----- the allocator's invariant -----

  /**
   * Every symbol has a register of its own, an argument register or a scratch register marked used; nothing else
   * but scratch registers is marked.
   */
  predicate AllocOk(a: Alloc) {
    && (forall r :: r in a.used ==> 9 <= r <= 15)
    && (forall n :: n in a.syms ==> 1 <= a.syms[n].reg && (a.syms[n].reg >= 9 ==> a.syms[n].reg in a.used))
    && (forall m, n :: m in a.syms && n in a.syms && a.syms[m].reg == a.syms[n].reg ==> m == n)
  }

  /** `r` is an argument register, r0, or marked used. */
  predicate Held(a: Alloc, r: int) { r < 9 || r in a.used }

  /** Symbols stay, used registers stay used. */
  predicate Grows(a: Alloc, b: Alloc) {
    AllocOk(b) && b.syms == a.syms && a.used <= b.used && b.labelId == a.labelId
  }

  /** A register that may be freed without taking one that was in use in `a`. */
  predicate Mine(a: Alloc, r: int) { IsSymReg(a.syms, r) || r !in a.used }

  /** Straight-line code that writes no argument register and none marked used. */
  predicate OnlyScratch(code: seq<Node>, used: set<int>) {
    forall c :: c in code ==> c.Ins? && Straight(c.i.op) && (c.i.rd == 0 || (9 <= c.i.rd && c.i.rd !in used))
  }

  lemma {:induction false} FreeFromIs(used: set<int>, r: int)
    requires r <= 15
    ensures FreeFrom(used, r).Ok? ==> 9 <= FreeFrom(used, r).value <= r && FreeFrom(used, r).value !in used
    decreases r
  {
    if 9 <= r && r in used {
      FreeFromIs(used, r - 1);
    }
  }

  lemma TempIs(a: Alloc)
    requires AllocOk(a) && Temp(a).Ok?
    ensures var (b, r) := Temp(a).value;
            Grows(a, b) && 9 <= r <= 15 && r !in a.used && r in b.used && Mine(a, r) && !IsSymReg(a.syms, r)
  {
    FreeFromIs(a.used, 15);
  }

  lemma MaybeFreeGrows(a: Alloc, b: Alloc, r: int)
    requires Grows(a, b) && Mine(a, r)
    ensures Grows(a, MaybeFree(b, r))
  {
  }

  lemma MineBefore(a: Alloc, b: Alloc, r: int)
    requires Grows(a, b) && Mine(b, r)
    ensures Mine(a, r)
  {
  }

  /** A register other than `r` stays held when `r` is freed. */
  lemma MaybeFreeHeld(a: Alloc, r: int, q: int)
    requires Held(a, q) && q != r
    ensures Held(MaybeFree(a, r), q)
  {
  }

  lemma ScratchAppend(x: seq<Node>, y: seq<Node>, used: set<int>, more: set<int>)
    requires OnlyScratch(x, used) && OnlyScratch(y, more) && used <= more
    ensures OnlyScratch(x + y, used)
  {
  }

  /** What the allocator is like after any expression: its result is held, nothing in use before was freed. */
  predicate LoweredFits(a: Alloc, l: Lowered) { Grows(a, l.a) && Held(l.a, l.r) && Mine(a, l.r) }

  /** What every expression of the subset satisfies once lowered. */
  predicate LoweredOk(a: Alloc, l: Lowered) { LoweredFits(a, l) && OnlyScratch(l.code, a.used) }

  lemma {:induction false} LowerShape(a: Alloc, e: Expr)
    requires AllocOk(a) && Lower(a, e).Ok?
    ensures LoweredFits(a, Lower(a, e).value)
    ensures ExprOk(e) ==> OnlyScratch(Lower(a, e).value.code, a.used)
    decreases e, 1
  {
    hide AllocOk, Temp, MaybeFree;
    match e
    case Const(v) => TempIs(a);
    case Id(name) => SymbolMine(a, name);
    case Bin(op, l, r) => LowerBinShape(a, e);
    case Un(op, inner) =>
      LowerShape(a, inner);
      FinishOne(a, Lower(a, inner).value);
    case Index(base, index) =>
      LowerAddrShape(a, base, index);
      TempIs(LowerAddr(a, base, index).value.a);
    case Call(fn, args) => LowerCallShape(a, fn, args);
    case Cast(_, inner) => LowerShape(a, inner);
  }

  lemma SymbolMine(a: Alloc, name: string)
    requires AllocOk(a) && name in a.syms
    ensures Held(a, a.syms[name].reg) && Mine(a, a.syms[name].reg) && Grows(a, a)
  {
  }

  /** Take a temporary for the result, then free the operand. */
  lemma FinishOne(a: Alloc, x: Lowered)
    requires AllocOk(a) && LoweredFits(a, x) && Temp(x.a).Ok?
    ensures var (b, rd) := Temp(x.a).value;
            && Grows(a, MaybeFree(b, x.r)) && Held(MaybeFree(b, x.r), rd) && Mine(a, rd)
            && 9 <= rd && rd !in a.used && rd !in x.a.used && rd != x.r
  {
    var (b, rd) := Temp(x.a).value;
    TempIs(x.a);
    assert Grows(a, b);
    MaybeFreeGrows(a, b, x.r);
    MaybeFreeHeld(b, x.r, rd);
  }

  /** Take a temporary for the result, then free both operands. */
  lemma FinishTwo(a: Alloc, x: Lowered, y: Lowered)
    requires AllocOk(a) && LoweredFits(a, x) && LoweredFits(x.a, y) && Temp(y.a).Ok?
    ensures var (b, rd) := Temp(y.a).value;
            var c := MaybeFree(MaybeFree(b, x.r), y.r);
            && Grows(a, c) && Held(c, rd) && Mine(a, rd) && Mine(a, y.r)
            && 9 <= rd && rd !in a.used && rd !in y.a.used && rd != x.r && rd != y.r
  {
    var (b, rd) := Temp(y.a).value;
    TempIs(y.a);
    assert Grows(a, y.a) && Grows(a, b);
    MineBefore(a, x.a, y.r);
    MaybeFreeGrows(a, b, x.r);
    MaybeFreeGrows(a, MaybeFree(b, x.r), y.r);
    MaybeFreeHeld(b, x.r, rd);
    MaybeFreeHeld(MaybeFree(b, x.r), y.r, rd);
  }

  lemma {:induction false} LowerBinShape(a: Alloc, e: Expr)
    requires AllocOk(a) && e.Bin? && LowerBin(a, e).Ok?
    ensures LoweredFits(a, LowerBin(a, e).value)
    ensures ExprOk(e) ==> OnlyScratch(LowerBin(a, e).value.code, a.used)
    decreases e, 0
  {
    hide AllocOk, Temp, MaybeFree;
    LowerShape(a, e.l);
    var x := Lower(a, e.l).value;
    if TryConst(e.r).Some? && ImmSub(e.op).Some? {
      FinishOne(a, x);
    } else {
      LowerShape(x.a, e.r);
      FinishTwo(a, x, Lower(x.a, e.r).value);
    }
  }

  lemma {:induction false} LowerAddrShape(a: Alloc, base: Expr, index: Expr)
    requires AllocOk(a) && LowerAddr(a, base, index).Ok?
    ensures var r := LowerAddr(a, base, index).value;
            && Grows(a, r.a) && Held(r.a, r.base)
            && (ExprOk(index) ==> OnlyScratch(r.code, a.used))
    decreases index, 2
  {
    hide AllocOk, Temp, MaybeFree;
    SymbolMine(a, base.name);
    if TryConst(index).None? {
      LowerShape(a, index);
      var x := Lower(a, index).value;
      TempIs(x.a);
      var (a1, scale) := Temp(x.a).value;
      TempIs(a1);
      var (a2, sum) := Temp(a1).value;
      assert Grows(a, a2);
      MaybeFreeGrows(a, a2, x.r);
      MaybeFreeHeld(a2, x.r, sum);
      FreeScale(a, MaybeFree(a2, x.r), scale);
    }
  }

  lemma FreeScale(a: Alloc, b: Alloc, r: int)
    requires Grows(a, b) && r !in a.used && !IsSymReg(a.syms, r)
    ensures Grows(a, Free(b, r))
    ensures forall q :: Held(b, q) && q != r ==> Held(Free(b, r), q)
  {
    hide Mine;
    assert forall n :: n in b.syms ==> b.syms[n].reg != r;
  }

  lemma {:induction false} LowerCallShape(a: Alloc, fn: string, args: seq<Expr>)
    requires AllocOk(a) && LowerCall(a, fn, args).Ok?
    ensures LoweredFits(a, LowerCall(a, fn, args).value)
    ensures ExprOk(Call(fn, args)) ==> OnlyScratch(LowerCall(a, fn, args).value.code, a.used)
    decreases args, 2
  {
    hide AllocOk, Temp, MaybeFree, ExprOk;
    ZeroMine(a);
    ArgsOk(fn, args);
    if fn == "tiara_set_result" {
      LowerShape(a, args[1]);
      SetResultScratch(args);
      var x := Lower(a, args[1]).value;
      MaybeFreeGrows(a, x.a, x.r);
    } else if fn == "tiara_cas" {
      LowerCasShape(a, args);
    } else if fn != "tiara_wait" {
      LowerShape(a, args[0]);
      var x := Lower(a, args[0]).value;
      if fn == "tiara_andi" {
        AndiMask(args);
        FinishOne(a, x);
      } else {
        LowerShape(x.a, args[1]);
        var y := Lower(x.a, args[1]).value;
        if fn == "tiara_caa" { FinishTwo(a, x, y); } else { FreeTwo(a, x, y); }
      }
    }
  }

  lemma SetResultScratch(args: seq<Expr>)
    ensures !ExprOk(Call("tiara_set_result", args))
  {
  }

  lemma AndiMask(args: seq<Expr>)
    ensures ExprOk(Call("tiara_andi", args)) && |args| == 2 && TryConst(args[1]).Some? ==> TryConst(args[1]).value >= 0
  {
  }

  lemma {:induction false} LowerCasShape(a: Alloc, args: seq<Expr>)
    requires AllocOk(a) && |args| == 3 && LowerCall(a, "tiara_cas", args).Ok?
    ensures LoweredFits(a, LowerCall(a, "tiara_cas", args).value)
    ensures ExprOk(Call("tiara_cas", args)) ==> OnlyScratch(LowerCall(a, "tiara_cas", args).value.code, a.used)
    decreases args, 1
  {
    hide AllocOk, Temp, MaybeFree, ExprOk;
    ArgsOk("tiara_cas", args);
    LowerShape(a, args[0]);
    var x := Lower(a, args[0]).value;
    LowerShape(x.a, args[1]);
    var y := Lower(x.a, args[1]).value;
    LowerShape(y.a, args[2]);
    FinishThree(a, x, y, Lower(y.a, args[2]).value);
  }

  lemma ArgsOk(fn: string, args: seq<Expr>)
    ensures ExprOk(Call(fn, args)) ==> forall i :: 0 <= i < |args| ==> ExprOk(args[i])
  {
  }

  /** Free both operands, there being no result. */
  lemma FreeTwo(a: Alloc, x: Lowered, y: Lowered)
    requires AllocOk(a) && LoweredFits(a, x) && LoweredFits(x.a, y)
    ensures Grows(a, MaybeFree(MaybeFree(y.a, x.r), y.r))
  {
    hide MaybeFree;
    MineBefore(a, x.a, y.r);
    MaybeFreeGrows(a, y.a, x.r);
    MaybeFreeGrows(a, MaybeFree(y.a, x.r), y.r);
  }

  lemma ZeroMine(a: Alloc)
    requires AllocOk(a)
    ensures Grows(a, a) && Mine(a, 0) && Held(a, 0)
  {
  }

  lemma FinishThree(a: Alloc, x: Lowered, y: Lowered, z: Lowered)
    requires AllocOk(a) && LoweredFits(a, x) && LoweredFits(x.a, y) && LoweredFits(y.a, z) && Temp(z.a).Ok?
    ensures var (b, rd) := Temp(z.a).value;
            var c := MaybeFree(MaybeFree(MaybeFree(b, x.r), y.r), z.r);
            && Grows(a, c) && Held(c, rd) && Mine(a, rd)
            && 9 <= rd && rd !in a.used && rd !in z.a.used && rd != x.r && rd != y.r && rd != z.r
  {
    hide MaybeFree;
    var (b, rd) := Temp(z.a).value;
    FinishTwo(x.a, y, z);
    TempIs(z.a);
    assert Grows(a, b);
    MineBefore(a, x.a, y.r);
    MineBefore(x.a, y.a, z.r);
    MineBefore(a, x.a, z.r);
    MaybeFreeGrows(a, b, x.r);
    MaybeFreeGrows(a, MaybeFree(b, x.r), y.r);
    MaybeFreeGrows(a, MaybeFree(MaybeFree(b, x.r), y.r), z.r);
    MaybeFreeHeld(b, x.r, rd);
    MaybeFreeHeld(MaybeFree(b, x.r), y.r, rd);
    MaybeFreeHeld(MaybeFree(MaybeFree(b, x.r), y.r), z.r, rd);
  }

  // ----- what emitted code does -----

  /** Registers that are in use, and the argument registers, are as before. */
  predicate Kept(d: Data, d': Data, used: set<int>) {
    forall r: reg :: r < 9 || r in used ==> d'.regs[r] == d.regs[r]
  }

  lemma InsEffect(i: Instr, d: Data)
    requires Straight(i.op)
    ensures var d' := Effect(Seen(i), ExtraRd(i), d);
            forall r: reg :: r == 0 || r != i.rd ==> d'.regs[r] == d.regs[r]
  {
    hide Alu, Memcpy, DrainAll, DrainTo, Issue, CopyCost, AccessCost, Load, EffectiveAddr, CopyLength, Mask64;
    var h := Seen(i);
    match h.op
    case CAS =>
    case MEMCPY =>
    case _ =>
  }

  lemma {:induction false} ScratchKeeps(code: seq<Node>, used: set<int>, d: Data)
    requires OnlyScratch(code, used)
    ensures !Exec(code, d).returned && Kept(d, Exec(code, d).d, used)
  {
    hide Effect;
    if code != [] {
      assert code[0] in code && forall c :: c in code[1..] ==> c in code;
      InsEffect(code[0].i, d);
      ScratchKeeps(code[1..], used, ExecOne(code[0], d).d);
    }
  }

  /** Code for a value, then one instruction. */
  lemma ExecThen(code: seq<Node>, i: Instr, used: set<int>, d: Data)
    requires OnlyScratch(code, used) && Straight(i.op)
    ensures Exec(code + [Ins(i)], d) == Ran(Effect(Seen(i), ExtraRd(i), Exec(code, d).d), false)
  {
    hide Effect;
    ScratchKeeps(code, used, d);
    ExecAppend(code, [Ins(i)], d);
  }

  lemma ExecTwo(x: seq<Node>, y: seq<Node>, used: set<int>, more: set<int>, d: Data)
    requires OnlyScratch(x, used) && OnlyScratch(y, more)
    ensures Exec(x + y, d) == Exec(y, Exec(x, d).d)
  {
    ScratchKeeps(x, used, d);
    ExecAppend(x, y, d);
  }

  // ----- arithmetic of single instructions -----

  lemma AluEffectIs(sub: reg, rd: reg, rs1: reg, rs2: reg, d: Data)
    ensures var d' := Effect(Seen(Alu3(sub, rd, rs1, rs2)), 0, d);
            d'.regs == SetReg(d.regs, rd, Alu(sub, d.regs[rs1], d.regs[rs2], 0)) && d'.mem == d.mem
  {
    hide Alu;
  }

  lemma AluImmEffectIs(sub: reg, rd: reg, rs1: reg, imm: int, d: Data)
    requires SignedImm(imm)
    ensures var d' := Effect(Seen(AluImm(sub, rd, rs1, imm)), 0, d);
            d'.regs == SetReg(d.regs, rd, Alu(sub, d.regs[rs1], d.regs[0], imm)) && d'.mem == d.mem
  {
    hide Alu;
  }

  lemma RegSubMeaning(op: BinOp, a: u64, b: u64)
    requires RegSub(op).Some?
    ensures BinValue(op, a, b) == Ok(Alu(RegSub(op).value, a, b, 0))
  {
    hide Bits, Pow2;
  }

  lemma ImmSubMeaning(op: BinOp, a: u64, b: u64, c: int)
    requires ImmSub(op).Some? && SignedImm(c) && (op.BitAnd? ==> c >= 0)
    ensures BinValue(op, a, Mask64(c)) == Ok(Alu(ImmSub(op).value, a, b, c))
  {
    hide Bits, Pow2;
    if op.ShiftL? || op.ShiftR? {
      MaskMod64(c);
    } else if op.BitAnd? {
      assert c % 0x100_0000_0000 == c && Mask64(c) == c;
    } else {
      MaskedSum(a, c);
    }
  }

  lemma MaskMod64(c: int)
    requires SignedImm(c)
    ensures Mask64(c) % 64 == c % 64
  {
    var q := if c < 0 then -1 else 0;
    DivModUnique(c, q, c - q * 0x1_0000_0000_0000_0000, 0x1_0000_0000_0000_0000);
  }

  lemma ConstIndexAddr(base: u64, c: int)
    ensures EffectiveAddr(base, c * 8) == Element(base, Mask64(c))
  {
    var q := c / 0x1_0000_0000_0000_0000;
    assert c == q * 0x1_0000_0000_0000_0000 + Mask64(c);
    assert base + c * 8 == (base + Mask64(c) * 8) + (q * 8) * 0x1_0000_0000_0000_0000;
  }

  lemma VarIndexAddr(base: u64, i: u64)
    ensures EffectiveAddr(Mask64(base + ShiftLeft(i, 3)), 0) == Element(base, i)
  {
    assert Pow2(3) == 8;
    MaskedSum(base, i * 8);
  }

  // ----- constants -----

  lemma {:induction false} ConstFits(e: Expr)
    requires ExprOk(e) && TryConst(e).Some?
    ensures -0x80_0000_0000 < TryConst(e).value < 0x80_0000_0000
  {
    match e
    case Const(_) =>
    case Un(_, inner) => ConstFits(inner);
    case Cast(_, inner) => ConstFits(inner);
  }

  lemma {:induction false} ConstMeaning(e: Expr, vars: Vars, mem: Mem)
    requires TryConst(e).Some?
    ensures Eval(e, vars, mem) == Ok(Val(Mask64(TryConst(e).value), mem))
  {
    match e
    case Const(_) =>
    case Un(_, inner) =>
      ConstMeaning(inner, vars, mem);
      MaskNegate(TryConst(inner).value);
    case Cast(_, inner) => ConstMeaning(inner, vars, mem);
  }

  lemma MaskNegate(c: int)
    ensures Mask64(0 - Mask64(c)) == Mask64(-c)
  {
  }

  // ----- correctness -----

  /** The variables in `names` that have a value have it in their register; r0 is zero. */
  predicate Holds(syms: map<string, Sym>, names: set<string>, vars: Vars, regs: Regs) {
    && regs[0] == 0
    && forall n :: n in names && n in vars && n in syms ==> regs[syms[n].reg] == vars[n]
  }

  /** Code `code` run from `d` leaves the value in `r`, and the memory, as the interpreter says. */
  predicate Computes(code: seq<Node>, r: reg, d: Data, val: Val) {
    var d' := Exec(code, d).d;
    d'.regs[r] == val.v && d'.mem == val.mem
  }

  lemma HoldsAfter(a: Alloc, names: set<string>, vars: Vars, d: Data, d': Data)
    requires AllocOk(a) && Holds(a.syms, names, vars, d.regs) && Kept(d, d', a.used)
    ensures Holds(a.syms, names, vars, d'.regs)
  {
  }

  /** Everything the correctness of an expression starts from. */
  predicate Ready(a: Alloc, names: set<string>, vars: Vars, d: Data) {
    AllocOk(a) && Holds(a.syms, names, vars, d.regs)
  }

  /** After an operand the next one can start, with the operand's value safe in its register. */
  lemma NextOperand(a: Alloc, x: Lowered, names: set<string>, vars: Vars, d: Data)
    requires Ready(a, names, vars, d) && LoweredOk(a, x)
    ensures Ready(x.a, names, vars, Exec(x.code, d).d) && !Exec(x.code, d).returned
  {
    ScratchKeeps(x.code, a.used, d);
    HoldsAfter(a, names, vars, d, Exec(x.code, d).d);
  }

  lemma OperandKept(x: Lowered, y: Lowered, d: Data)
    requires Held(x.a, x.r) && OnlyScratch(y.code, x.a.used)
    ensures Exec(y.code, d).d.regs[x.r] == d.regs[x.r]
  {
    ScratchKeeps(y.code, x.a.used, d);
  }

  /** Both operands in their registers, then one instruction. */
  lemma TwoOperands(a: Alloc, x: Lowered, y: Lowered, i: Instr, d: Data, xv: Val, yv: Val)
    requires LoweredOk(a, x) && LoweredOk(x.a, y) && Straight(i.op)
    requires Computes(x.code, x.r, d, xv) && Computes(y.code, y.r, Exec(x.code, d).d, yv)
    ensures var d2 := Exec(y.code, Exec(x.code, d).d).d;
            && d2.regs[x.r] == xv.v && d2.regs[y.r] == yv.v && d2.mem == yv.mem
            && Exec(x.code + y.code + [Ins(i)], d) == Ran(Effect(Seen(i), ExtraRd(i), d2), false)
  {
    hide Effect;
    OperandKept(x, y, Exec(x.code, d).d);
    ScratchAppend(x.code, y.code, a.used, x.a.used);
    ExecTwo(x.code, y.code, a.used, x.a.used, d);
    ExecThen(x.code + y.code, i, a.used, d);
  }

  /**
   * The main result for expressions: the returned register holds the value mod 2^64, the memory is the interpreter's.
   */
  lemma {:induction false} LowerCorrect(a: Alloc, e: Expr, names: set<string>, vars: Vars, d: Data)
    requires Ready(a, names, vars, d) && ExprOk(e) && Reads(e) <= names
    requires Lower(a, e).Ok? && Eval(e, vars, d.mem).Ok?
    ensures Computes(Lower(a, e).value.code, Lower(a, e).value.r, d, Eval(e, vars, d.mem).value)
    decreases e, 1
  {
    hide AllocOk, Temp, MaybeFree, Effect;
    match e
    case Const(v) =>
      TempIs(a);
      var r := Temp(a).value.1;
      AluImmEffectIs(LI, r, 0, v, d);
      ExecSingleIns(AluImm(LI, r, 0, v), d);
    case Id(name) =>
    case Bin(op, l, r) => LowerBinCorrect(a, e, names, vars, d);
    case Un(op, inner) => LowerUnCorrect(a, e, names, vars, d);
    case Index(base, index) => LowerIndexCorrect(a, base, index, names, vars, d);
    case Call(fn, args) => LowerCallCorrect(a, fn, args, names, vars, d);
    case Cast(_, inner) => LowerCorrect(a, inner, names, vars, d);
  }

  lemma ExecSingleIns(i: Instr, d: Data)
    ensures Exec([Ins(i)], d) == Ran(Effect(Seen(i), ExtraRd(i), d), false)
  {
    hide Effect;
  }

  lemma {:induction false} LowerUnCorrect(a: Alloc, e: Expr, names: set<string>, vars: Vars, d: Data)
    requires Ready(a, names, vars, d) && e.Un? && ExprOk(e) && Reads(e) <= names
    requires Lower(a, e).Ok? && Eval(e, vars, d.mem).Ok?
    ensures Computes(Lower(a, e).value.code, Lower(a, e).value.r, d, Eval(e, vars, d.mem).value)
    decreases e, 0
  {
    hide AllocOk, Temp, MaybeFree, Effect, ExprOk;
    assert ExprOk(e.e) by { UnOk(e); }
    LowerCorrect(a, e.e, names, vars, d);
    LowerShape(a, e.e);
    var x := Lower(a, e.e).value;
    FinishOne(a, x);
    NextOperand(a, x, names, vars, d);
    var rd := Temp(x.a).value.1;
    var (rs1, rs2, sub) := if e.uop.Negate? then (0, x.r, SUB) else (x.r, 0, EQ);
    var i := Alu3(sub, rd, rs1, rs2);
    ExecThen(x.code, i, a.used, d);
    AluEffectIs(sub, rd, rs1, rs2, Exec(x.code, d).d);
  }

  lemma UnOk(e: Expr)
    requires ExprOk(e) && e.Un?
    ensures ExprOk(e.e)
  {
  }

  lemma {:induction false} LowerBinCorrect(a: Alloc, e: Expr, names: set<string>, vars: Vars, d: Data)
    requires Ready(a, names, vars, d) && e.Bin? && ExprOk(e) && Reads(e) <= names
    requires LowerBin(a, e).Ok? && Eval(e, vars, d.mem).Ok?
    ensures Computes(LowerBin(a, e).value.code, LowerBin(a, e).value.r, d, Eval(e, vars, d.mem).value)
    decreases e, 0
  {
    hide AllocOk, Temp, MaybeFree, Effect, Alu, BinValue;
    LowerCorrect(a, e.l, names, vars, d);
    LowerShape(a, e.l);
    var x := Lower(a, e.l).value;
    var xv := Eval(e.l, vars, d.mem).value;
    var d1 := Exec(x.code, d).d;
    NextOperand(a, x, names, vars, d);
    if TryConst(e.r).Some? && ImmSub(e.op).Some? {
      var c := TryConst(e.r).value;
      FinishOne(a, x);
      var rd := Temp(x.a).value.1;
      ConstFits(e.r);
      ConstMeaning(e.r, vars, d1.mem);
      ExecThen(x.code, AluImm(ImmSub(e.op).value, rd, x.r, c), a.used, d);
      AluImmEffectIs(ImmSub(e.op).value, rd, x.r, c, d1);
      ImmSubMeaning(e.op, xv.v, d1.regs[0], c);
    } else {
      LowerCorrect(x.a, e.r, names, vars, d1);
      LowerShape(x.a, e.r);
      var y := Lower(x.a, e.r).value;
      var yv := Eval(e.r, vars, d1.mem).value;
      FinishTwo(a, x, y);
      var rd := Temp(y.a).value.1;
      TwoOperands(a, x, y, Alu3(RegSub(e.op).value, rd, x.r, y.r), d, xv, yv);
      AluEffectIs(RegSub(e.op).value, rd, x.r, y.r, Exec(y.code, d1).d);
      RegSubMeaning(e.op, xv.v, yv.v);
    }
  }

  /** Address code leaves base register and offset that add up to the element's address. */
  lemma {:induction false} LowerAddrCorrect(
    a: Alloc, base: Expr, index: Expr, names: set<string>, vars: Vars, d: Data)
    requires Ready(a, names, vars, d) && ExprOk(Index(base, index)) && base.Id? && base.name in vars
        && base.name in names
    requires Reads(index) <= names && LowerAddr(a, base, index).Ok? && Eval(index, vars, d.mem).Ok?
    ensures var r, i := LowerAddr(a, base, index).value, Eval(index, vars, d.mem).value;
            var d' := Exec(r.code, d).d;
            && EffectiveAddr(d'.regs[r.base], r.off) == Element(vars[base.name], i.v) && d'.mem == i.mem
            && SignedImm(r.off)
    decreases index, 2
  {
    hide AllocOk, Temp, MaybeFree, Effect, EffectiveAddr, Element, ShiftLeft;
    var s := a.syms[base.name];
    if TryConst(index).Some? {
      ConstMeaning(index, vars, d.mem);
      ConstIndexAddr(d.regs[s.reg], TryConst(index).value);
    } else {
      LowerCorrect(a, index, names, vars, d);
      LowerShape(a, index);
      VarAddrCorrect(a, base.name, index, names, vars, d);
    }
  }

  /** The address code of an index that is not constant, its value known. */
  lemma VarAddrCorrect(a: Alloc, name: string, index: Expr, names: set<string>, vars: Vars, d: Data)
    requires Ready(a, names, vars, d) && name in vars && name in names && TryConst(index).None?
    requires LowerAddr(a, Id(name), index).Ok? && LoweredOk(a, Lower(a, index).value)
    ensures var r, x := LowerAddr(a, Id(name), index).value, Lower(a, index).value;
            var d1, d' := Exec(x.code, d).d, Exec(r.code, d).d;
            && EffectiveAddr(d'.regs[r.base], r.off) == Element(vars[name], d1.regs[x.r]) && d'.mem == d1.mem
              && r.off == 0
  {
    hide AllocOk, Temp, MaybeFree, Effect, EffectiveAddr, Element, ShiftLeft, Lower, Exec, LoweredFits;
    var x := Lower(a, index).value;
    NextOperand(a, x, names, vars, d);
    LoweredGrows(a, x);
    TempIs(x.a);
    var (a1, scale) := Temp(x.a).value;
    TempIs(a1);
    var sum := Temp(a1).value.1;
    ScaledIndex(x.code, a.used, d, x.r, a.syms[name].reg, scale, sum);
    BaseKept(a, x, name, scale);
    VarIndexAddr(vars[name], Exec(x.code, d).d.regs[x.r]);
  }

  lemma LoweredGrows(a: Alloc, x: Lowered)
    requires LoweredFits(a, x)
    ensures Grows(a, x.a) && AllocOk(x.a)
  {
  }

  lemma BaseKept(a: Alloc, x: Lowered, name: string, r: int)
    requires AllocOk(a) && Grows(a, x.a) && name in a.syms && r !in x.a.used && r >= 9
    ensures a.syms[name].reg != r
  {
  }

  /** SHLI and ADD form base + 8 * index. */
  lemma ScaledIndex(code: seq<Node>, used: set<int>, d: Data, idx: reg, base: reg, scale: reg, sum: reg)
    requires OnlyScratch(code, used) && scale != 0 && sum != 0
    ensures var d1 := Exec(code, d).d;
            var d' := Exec(code + [Ins(AluImm(SHLI, scale, idx, 3)), Ins(Alu3(ADD, sum, base, scale))], d).d;
            && (base != scale ==> d'.regs[sum] == Mask64(d1.regs[base] + ShiftLeft(d1.regs[idx], 3)))
              && d'.mem == d1.mem
  {
    hide Effect, ShiftLeft, ShiftRight, Bitwise, Mask64, Exec;
    var d1 := Exec(code, d).d;
    var first, second := AluImm(SHLI, scale, idx, 3), Alu3(ADD, sum, base, scale);
    var d2 := Effect(Seen(first), 0, d1);
    AluImmEffectIs(SHLI, scale, idx, 3, d1);
    AluEffectIs(ADD, sum, base, scale, d2);
    ScratchKeeps(code, used, d);
    ExecAppend(code, [Ins(first), Ins(second)], d);
    ExecPair(first, second, d1);
  }

  lemma ExecPair(i: Instr, j: Instr, d: Data)
    ensures Exec([Ins(i), Ins(j)], d)
         == Ran(Effect(Seen(j), ExtraRd(j), Effect(Seen(i), ExtraRd(i), d)), false)
  {
    hide Effect;
    ExecAppend([Ins(i)], [Ins(j)], d);
    ExecSingleIns(i, d);
    ExecSingleIns(j, Effect(Seen(i), ExtraRd(i), d));
    assert [Ins(i)] + [Ins(j)] == [Ins(i), Ins(j)];
  }

  lemma LoadEffectIs(r: reg, base: reg, off: int, d: Data)
    requires SignedImm(off)
    ensures var d' := Effect(Seen(Instr(LOAD, r, base, 0, 0, off, None)), 0, d);
            && d'.regs == SetReg(d.regs, r, Load(d.mem, EffectiveAddr(d.regs[base], off))) && d'.mem == d.mem
  {
  }

  lemma {:induction false} LowerIndexCorrect(a: Alloc, base: Expr, index: Expr, names: set<string>, vars: Vars, d: Data)
    requires var e := Index(base, index);
             && Ready(a, names, vars, d) && ExprOk(e) && Reads(e) <= names
             && Lower(a, e).Ok? && Eval(e, vars, d.mem).Ok?
    ensures var e := Index(base, index);
            Computes(Lower(a, e).value.code, Lower(a, e).value.r, d, Eval(e, vars, d.mem).value)
    decreases index, 3
  {
    hide AllocOk, Temp, MaybeFree, Effect, Element, EffectiveAddr, LowerAddr;
    LowerAddrCorrect(a, base, index, names, vars, d);
    LowerAddrShape(a, base, index);
    var addr := LowerAddr(a, base, index).value;
    TempIs(addr.a);
    var r := Temp(addr.a).value.1;
    ExecThen(addr.code, Instr(LOAD, r, addr.base, 0, 0, addr.off, None), a.used, d);
    LoadEffectIs(r, addr.base, addr.off, Exec(addr.code, d).d);
  }

  // ----- builtins -----

  lemma {:induction false} LowerCallCorrect(
    a: Alloc, fn: string, args: seq<Expr>, names: set<string>, vars: Vars, d: Data)
    requires Ready(a, names, vars, d) && ExprOk(Call(fn, args)) && ReadsAll(args) <= names
    requires LowerCall(a, fn, args).Ok? && EvalCall(fn, args, vars, d.mem).Ok?
    ensures Computes(LowerCall(a, fn, args).value.code, LowerCall(a, fn, args).value.r, d,
                     EvalCall(fn, args, vars, d.mem).value)
    decreases args, 2
  {
    hide AllocOk, Temp, MaybeFree, Effect, Bitwise, Memcpy, ExprOk, Lower, Eval;
    if fn == "tiara_wait" {
      var n := RequireConst(args[0]).value;
      ArgOk(fn, args, 0);
      ConstFits(args[0]);
      WaitEffectIs(n, d);
      ExecSingleIns(Instr(WAIT, 0, 0, 0, 0, n, None), d);
    } else {
      ArgOk(fn, args, 0);
      ReadsArg(args, 0);
      LowerCorrect(a, args[0], names, vars, d);
      LowerShape(a, args[0]);
      var x := Lower(a, args[0]).value;
      NextOperand(a, x, names, vars, d);
      if fn == "tiara_andi" {
        AndiCorrect(a, args, x, vars, d);
      } else {
        var d1 := Exec(x.code, d).d;
        ArgOk(fn, args, 1);
        ReadsArg(args, 1);
        LowerCorrect(x.a, args[1], names, vars, d1);
        LowerShape(x.a, args[1]);
        var y := Lower(x.a, args[1]).value;
        NextOperand(x.a, y, names, vars, d1);
        if fn == "tiara_caa" {
          CaaCorrect(a, args, x, y, vars, d);
        } else if fn == "tiara_memcpy" {
          ArgOk(fn, args, 2);
          MemcpyCorrect(a, args, x, y, vars, d);
        } else {
          var d2 := Exec(y.code, d1).d;
          ArgOk(fn, args, 2);
          ReadsArg(args, 2);
          LowerCorrect(y.a, args[2], names, vars, d2);
          LowerShape(y.a, args[2]);
          CasCorrect(a, args, x, y, Lower(y.a, args[2]).value, vars, d);
        }
      }
    }
  }

  lemma ArgOk(fn: string, args: seq<Expr>, i: nat)
    requires ExprOk(Call(fn, args)) && i < |args|
    ensures ExprOk(args[i])
    ensures fn == "tiara_andi" && |args| == 2 && TryConst(args[1]).Some? ==> TryConst(args[1]).value >= 0
  {
    assert args[i] in args;
  }

  lemma WaitEffectIs(n: int, d: Data)
    ensures var d' := Effect(Seen(Instr(WAIT, 0, 0, 0, 0, n, None)), 0, d); d'.regs == d.regs && d'.mem == d.mem
  {
  }

  lemma AndiCorrect(a: Alloc, args: seq<Expr>, x: Lowered, vars: Vars, d: Data)
    requires AllocOk(a) && |args| == 2 && ExprOk(Call("tiara_andi", args))
    requires LowerCall(a, "tiara_andi", args).Ok? && EvalCall("tiara_andi", args, vars, d.mem).Ok?
    requires Lower(a, args[0]) == Ok(x) && LoweredOk(a, x)
    requires Computes(x.code, x.r, d, Eval(args[0], vars, d.mem).value)
    ensures Computes(LowerCall(a, "tiara_andi", args).value.code, LowerCall(a, "tiara_andi", args).value.r, d,
                     EvalCall("tiara_andi", args, vars, d.mem).value)
  {
    hide AllocOk, Temp, MaybeFree, Effect, Alu, BinValue, ExprOk, Lower, Eval;
    var mask := TryConst(args[1]).value;
    var d1 := Exec(x.code, d).d;
    ArgOk("tiara_andi", args, 1);
    ConstFits(args[1]);
    ConstMeaning(args[1], vars, d1.mem);
    FinishOne(a, x);
    var rd := Temp(x.a).value.1;
    ExecThen(x.code, AluImm(ANDI, rd, x.r, mask), a.used, d);
    AluImmEffectIs(ANDI, rd, x.r, mask, d1);
    ImmSubMeaning(BitAnd, d1.regs[x.r], d1.regs[0], mask);
    assert BinValue(BitAnd, d1.regs[x.r], Mask64(mask)) == Ok(Bitwise(BAND, d1.regs[x.r], Mask64(mask))) by {
      AndMeaning(d1.regs[x.r], Mask64(mask));
    }
  }

  lemma AndMeaning(a: u64, b: u64)
    ensures BinValue(BitAnd, a, b) == Ok(Bitwise(BAND, a, b))
  {
  }

  lemma CaaCorrect(a: Alloc, args: seq<Expr>, x: Lowered, y: Lowered, vars: Vars, d: Data)
    requires AllocOk(a) && |args| == 2
    requires LowerCall(a, "tiara_caa", args).Ok? && EvalCall("tiara_caa", args, vars, d.mem).Ok?
    requires Lower(a, args[0]) == Ok(x) && LoweredOk(a, x) && Lower(x.a, args[1]) == Ok(y) && LoweredOk(x.a, y)
    requires Computes(x.code, x.r, d, Eval(args[0], vars, d.mem).value)
    requires var d1 := Exec(x.code, d).d; Computes(y.code, y.r, d1, Eval(args[1], vars, d1.mem).value)
    ensures Computes(LowerCall(a, "tiara_caa", args).value.code, LowerCall(a, "tiara_caa", args).value.r, d,
                     EvalCall("tiara_caa", args, vars, d.mem).value)
  {
    hide AllocOk, Temp, MaybeFree, Effect, Lower, Eval, LoweredFits, Exec;
    FinishTwo(a, x, y);
    var rd := Temp(y.a).value.1;
    var i := Instr(CAA, rd, x.r, y.r, 0, 0, Some(NO_EXTRA));
    var d1 := Exec(x.code, d).d;
    TwoOperands(a, x, y, i, d, Eval(args[0], vars, d.mem).value, Eval(args[1], vars, d1.mem).value);
    CaaEffectIs(i, Exec(y.code, d1).d);
  }

  lemma CaaEffectIs(i: Instr, d: Data)
    requires i.op.CAA? && i.rd != 0
    ensures var d' := Effect(Seen(i), ExtraRd(i), d);
            var cur := Load(d.mem, d.regs[i.rs1]);
            d'.regs[i.rd] == cur && d'.mem == d.mem[d.regs[i.rs1] := Mask64(cur as int + d.regs[i.rs2] as int)]
  {
  }

  lemma MemcpyCorrect(a: Alloc, args: seq<Expr>, x: Lowered, y: Lowered, vars: Vars, d: Data)
    requires AllocOk(a) && |args| == 4 && ExprOk(args[2]) && d.regs[0] == 0
    requires LowerCall(a, "tiara_memcpy", args).Ok? && EvalCall("tiara_memcpy", args, vars, d.mem).Ok?
    requires Lower(a, args[0]) == Ok(x) && LoweredOk(a, x) && Lower(x.a, args[1]) == Ok(y) && LoweredOk(x.a, y)
    requires Computes(x.code, x.r, d, Eval(args[0], vars, d.mem).value)
    requires var d1 := Exec(x.code, d).d; Computes(y.code, y.r, d1, Eval(args[1], vars, d1.mem).value)
    ensures Computes(LowerCall(a, "tiara_memcpy", args).value.code, LowerCall(a, "tiara_memcpy", args).value.r, d,
                     EvalCall("tiara_memcpy", args, vars, d.mem).value)
  {
    hide AllocOk, Temp, MaybeFree, Effect, Lower, Eval, Exec, Memcpy, ExprOk;
    var length, async := TryConst(args[2]).value, TryConst(args[3]).value;
    ConstFits(args[2]);
    var i := Instr(MEMCPY, 0, x.r, y.r, if async != 0 then 1 else 0, length, Some(NO_EXTRA));
    var d1 := Exec(x.code, d).d;
    var d2 := Exec(y.code, d1).d;
    TwoOperands(a, x, y, i, d, Eval(args[0], vars, d.mem).value, Eval(args[1], vars, d1.mem).value);
    MemcpyEffectIs(i, d2);
    ScratchKeeps(x.code, a.used, d);
    ScratchKeeps(y.code, x.a.used, d1);
  }

  lemma MemcpyEffectIs(i: Instr, d: Data)
    requires i.op.MEMCPY? && i.rd == 0 && (i.sub == 0 || i.sub == 1) && SignedImm(i.imm)
    ensures var d' := Effect(Seen(i), ExtraRd(i), d);
            d'.regs == d.regs && d'.mem == Memcpy(d.mem, d.regs[i.rs1], d.regs[i.rs2], i.imm)
  {
    hide Memcpy, Issue, CopyCost;
  }

  lemma CasCorrect(a: Alloc, args: seq<Expr>, x: Lowered, y: Lowered, z: Lowered, vars: Vars, d: Data)
    requires AllocOk(a) && |args| == 3
    requires LowerCall(a, "tiara_cas", args).Ok? && EvalCall("tiara_cas", args, vars, d.mem).Ok?
    requires Lower(a, args[0]) == Ok(x) && LoweredOk(a, x) && Lower(x.a, args[1]) == Ok(y) && LoweredOk(x.a, y)
    requires Lower(y.a, args[2]) == Ok(z) && LoweredOk(y.a, z)
    requires Computes(x.code, x.r, d, Eval(args[0], vars, d.mem).value)
    requires var d1 := Exec(x.code, d).d;
             && Computes(y.code, y.r, d1, Eval(args[1], vars, d1.mem).value)
             && var d2 := Exec(y.code, d1).d; Computes(z.code, z.r, d2, Eval(args[2], vars, d2.mem).value)
    ensures Computes(LowerCall(a, "tiara_cas", args).value.code, LowerCall(a, "tiara_cas", args).value.r, d,
                     EvalCall("tiara_cas", args, vars, d.mem).value)
  {
    hide AllocOk, Temp, MaybeFree, Effect, Lower, Eval, Exec;
    FinishThree(a, x, y, z);
    var rd := Temp(z.a).value.1;
    var i := Instr(CAS, rd, x.r, y.r, 0, 0, Some(NO_EXTRA.(rd := z.r)));
    ThreeOperands(a, x, y, z, i, d, Eval(args[0], vars, d.mem).value);
    var d3 := Exec(z.code, Exec(y.code, Exec(x.code, d).d).d).d;
    CasEffectIs(i, d3);
  }

  lemma ThreeOperands(a: Alloc, x: Lowered, y: Lowered, z: Lowered, i: Instr, d: Data, xv: Val)
    requires LoweredOk(a, x) && LoweredOk(x.a, y) && LoweredOk(y.a, z) && Straight(i.op)
    requires Computes(x.code, x.r, d, xv)
    ensures var d1 := Exec(x.code, d).d;
            var d2 := Exec(y.code, d1).d;
            var d3 := Exec(z.code, d2).d;
            && d3.regs[x.r] == xv.v && d3.regs[y.r] == d2.regs[y.r]
            && Exec(x.code + y.code + z.code + [Ins(i)], d) == Ran(Effect(Seen(i), ExtraRd(i), d3), false)
  {
    hide Effect, Exec, AllocOk;
    var d1 := Exec(x.code, d).d;
    var d2 := Exec(y.code, d1).d;
    OperandKept(x, y, d1);
    OperandKept(y, z, d2);
    assert Held(y.a, x.r);
    OperandKept(x.(a := y.a), z, d2);
    ScratchAppend(x.code, y.code, a.used, x.a.used);
    ScratchAppend(x.code + y.code, z.code, a.used, y.a.used);
    ExecTwo(x.code, y.code, a.used, x.a.used, d);
    ExecTwo(x.code + y.code, z.code, a.used, y.a.used, d);
    ExecThen(x.code + y.code + z.code, i, a.used, d);
  }

  lemma CasEffectIs(i: Instr, d: Data)
    requires i.op.CAS? && i.rd != 0
    ensures var d' := Effect(Seen(i), ExtraRd(i), d);
            var cur := Load(d.mem, d.regs[i.rs1]);
            && d'.regs[i.rd] == cur
            && d'.mem == (if cur == d.regs[i.rs2] then d.mem[d.regs[i.rs1] := d.regs[ExtraRd(i)]] else d.mem)
  {
  }

  /**
   * Lowering disturbs no argument register, no variable and no temporary in use, whether or not it computes a value.
   */
  lemma LowerKeeps(a: Alloc, e: Expr, d: Data)
    requires AllocOk(a) && ExprOk(e) && Lower(a, e).Ok?
    ensures var l := Lower(a, e).value;
            && !Exec(l.code, d).returned && Kept(d, Exec(l.code, d).d, a.used)
            && AllocOk(l.a) && l.a.syms == a.syms && a.used <= l.a.used
  {
    LowerShape(a, e);
    ScratchKeeps(Lower(a, e).value.code, a.used, d);
  }
}
