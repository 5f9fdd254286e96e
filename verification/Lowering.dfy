/** Lowering: the compiler's register allocation and code emission as functions on values. */
module Lowering {
  import opened Prelude
  import opened Isa
  import opened Assembler
  import opened Ast
  import opened CodeTree

  // ----- symbols and scratch registers -----

  datatype Sym = Sym(reg: reg, isPtr: bool)

  const SCRATCH_MIN: reg := 9
  const SCRATCH_MAX: reg := 15

  /** Symbol table, scratch registers in use, and the label counter. */
  datatype Alloc = Alloc(syms: map<string, Sym>, used: set<int>, labelId: nat)

  /** The highest free scratch register from `r` down. */
  function FreeFrom(used: set<int>, r: int): Result<reg>
    requires r <= 15
    decreases r
  {
    if r < SCRATCH_MIN then Err else if r !in used then Ok(r) else FreeFrom(used, r - 1)
  }

  /** The lowest free scratch register from `r` up. */
  function FreeUpFrom(used: set<int>, r: int): Result<reg>
    requires 9 <= r
    decreases 16 - r
  {
    if r > SCRATCH_MAX then Err else if r !in used then Ok(r) else FreeUpFrom(used, r + 1)
  }

  /** A temporary: the highest free register. */
  function Temp(a: Alloc): (t: Result<(Alloc, reg)>)
    ensures t.Ok? ==> t.value.0.syms == a.syms && t.value.0.labelId == a.labelId
  {
    var r :- FreeFrom(a.used, SCRATCH_MAX);
    Ok((a.(used := a.used + {r as int}), r))
  }

  /** A local: the lowest free register, bound to `name`. */
  function AddLocal(a: Alloc, name: string): Result<(Alloc, reg)> {
    var r :- FreeUpFrom(a.used, SCRATCH_MIN);
    Ok((a.(used := a.used + {r as int}, syms := a.syms[name := Sym(r, false)]), r))
  }

  function Free(a: Alloc, r: int): (b: Alloc)
    ensures b.syms == a.syms && b.labelId == a.labelId
  {
    if SCRATCH_MIN <= r <= SCRATCH_MAX then a.(used := a.used - {r}) else a
  }

  predicate IsSymReg(syms: map<string, Sym>, r: int) {
    exists name :: name in syms && syms[name].reg == r
  }

  /** Free a register unless a symbol lives in it. */
  function MaybeFree(a: Alloc, r: int): (b: Alloc)
    ensures b.syms == a.syms && b.labelId == a.labelId
  {
    if IsSymReg(a.syms, r) then a else Free(a, r)
  }

  function Lookup(a: Alloc, name: string): Result<Sym> {
    if name in a.syms then Ok(a.syms[name]) else Err
  }

  // ----- instructions -----

  function Alu3(sub: reg, rd: reg, rs1: reg, rs2: reg): Instr { Instr(COMPUTE, rd, rs1, rs2, sub, 0, None) }

  function AluImm(sub: reg, rd: reg, rs1: reg, imm: int): Instr { Instr(COMPUTE, rd, rs1, 0, sub, imm, None) }

  function Move(rd: reg, rs: reg): Node { Ins(AluImm(ADDI, rd, rs, 0)) }

  const NO_EXTRA := Extra(0, 0, 0, 0, 0)

  // ----- expressions -----

  /** Code that leaves a value in register `r`. */
  datatype Lowered = Lowered(a: Alloc, code: seq<Node>, r: reg)

  function ImmSub(op: BinOp): Option<reg> {
    match op
    case Plus => Some(ADDI)
    case BitAnd => Some(ANDI)
    case ShiftL => Some(SHLI)
    case ShiftR => Some(SHRI)
    case _ => None
  }

  function RegSub(op: BinOp): Option<reg> {
    match op
    case Plus => Some(ADD)
    case Minus => Some(SUB)
    case Times => Some(MUL)
    case BitAnd => Some(AND)
    case BitOr => Some(OR)
    case BitXor => Some(XOR)
    case ShiftL => Some(SHL)
    case ShiftR => Some(SHR)
    case Equal => Some(EQ)
    case Less => Some(LT)
    case GreaterEqual => Some(GE)
    case _ => None
  }

  function Lower(a: Alloc, e: Expr): Result<Lowered>
    decreases e, 1
  {
    match e
    case Const(v) =>
      var (a1, r) :- Temp(a);
      Ok(Lowered(a1, [Ins(AluImm(LI, r, 0, v))], r))
    case Id(name) =>
      var s :- Lookup(a, name);
      Ok(Lowered(a, [], s.reg))
    case Bin(_, _, _) => LowerBin(a, e)
    case Un(op, inner) =>
      if op.Complement? then Err
      else
        var x :- Lower(a, inner);
        var (a1, rd) :- Temp(x.a);
        var i := if op.Negate? then Alu3(SUB, rd, 0, x.r) else Alu3(EQ, rd, x.r, 0);
        Ok(Lowered(MaybeFree(a1, x.r), x.code + [Ins(i)], rd))
    case Index(base, index) =>
      var addr :- LowerAddr(a, base, index);
      var (a1, r) :- Temp(addr.a);
      Ok(Lowered(a1, addr.code + [Ins(Instr(LOAD, r, addr.base, 0, 0, addr.off, None))], r))
    case Call(fn, args) => LowerCall(a, fn, args)
    case Cast(_, inner) => Lower(a, inner)
  }

  function LowerBin(a: Alloc, e: Expr): Result<Lowered>
    requires e.Bin?
    decreases e, 0
  {
    var Bin(op, l, r) := e;
    if TryConst(r).Some? && ImmSub(op).Some? then
      var x :- Lower(a, l);
      var (a1, rd) :- Temp(x.a);
      Ok(Lowered(MaybeFree(a1, x.r), x.code + [Ins(AluImm(ImmSub(op).value, rd, x.r, TryConst(r).value))], rd))
    else if RegSub(op).None? then Err
    else
      var x :- Lower(a, l);
      var y :- Lower(x.a, r);
      var (a1, rd) :- Temp(y.a);
      Ok(Lowered(MaybeFree(MaybeFree(a1, x.r), y.r),
                 x.code + y.code + [Ins(Alu3(RegSub(op).value, rd, x.r, y.r))], rd))
  }

  /** An address as base register and constant offset. */
  datatype Addr = Addr(a: Alloc, code: seq<Node>, base: reg, off: int)

  function LowerAddr(a: Alloc, base: Expr, index: Expr): Result<Addr>
    decreases index, 2
  {
    if !base.Id? then Err
    else
      var s :- Lookup(a, base.name);
      if !s.isPtr then Err
      else match TryConst(index)
        case Some(c) => Ok(Addr(a, [], s.reg, c * 8))
        case None =>
          var x :- Lower(a, index);
          var (a1, scale) :- Temp(x.a);
          var (a2, sum) :- Temp(a1);
          Ok(Addr(Free(MaybeFree(a2, x.r), scale),
                  x.code + [Ins(AluImm(SHLI, scale, x.r, 3)), Ins(Alu3(ADD, sum, s.reg, scale))], sum, 0))
  }

  function LowerCall(a: Alloc, fn: string, args: seq<Expr>): Result<Lowered>
    decreases args, 2
  {
    if fn == "tiara_andi" then
      if |args| != 2 then Err
      else
        var x :- Lower(a, args[0]);
        var mask :- RequireConst(args[1]);
        var (a1, rd) :- Temp(x.a);
        // The mask is printed in hexadecimal, which the assembler reads only for non-negative numbers.
        var i := if mask < 0 then Bad else Ins(AluImm(ANDI, rd, x.r, mask));
        Ok(Lowered(MaybeFree(a1, x.r), x.code + [i], rd))
    else if fn == "tiara_memcpy" then
      if |args| != 4 then Err
      else
        var d :- Lower(a, args[0]);
        var s :- Lower(d.a, args[1]);
        var length :- RequireConst(args[2]);
        var async :- RequireConst(args[3]);
        var i := Instr(MEMCPY, 0, d.r, s.r, if async != 0 then 1 else 0, length, Some(NO_EXTRA));
        Ok(Lowered(MaybeFree(MaybeFree(s.a, d.r), s.r), d.code + s.code + [Ins(i)], 0))
    else if fn == "tiara_cas" then
      if |args| != 3 then Err
      else
        var x :- Lower(a, args[0]);
        var e :- Lower(x.a, args[1]);
        var n :- Lower(e.a, args[2]);
        var (a1, rd) :- Temp(n.a);
        var i := Instr(CAS, rd, x.r, e.r, 0, 0, Some(NO_EXTRA.(rd := n.r)));
        Ok(Lowered(MaybeFree(MaybeFree(MaybeFree(a1, x.r), e.r), n.r), x.code + e.code + n.code + [Ins(i)], rd))
    else if fn == "tiara_caa" then
      if |args| != 2 then Err
      else
        var x :- Lower(a, args[0]);
        var y :- Lower(x.a, args[1]);
        var (a1, rd) :- Temp(y.a);
        var i := Instr(CAA, rd, x.r, y.r, 0, 0, Some(NO_EXTRA));
        Ok(Lowered(MaybeFree(MaybeFree(a1, x.r), y.r), x.code + y.code + [Ins(i)], rd))
    else if fn == "tiara_wait" then
      if |args| != 1 then Err
      else
        var n :- RequireConst(args[0]);
        Ok(Lowered(a, [Ins(Instr(WAIT, 0, 0, 0, 0, n, None))], 0))
    else if fn == "tiara_set_result" then
      if |args| != 2 then Err
      else
        var slot :- RequireConst(args[0]);
        if !(1 <= slot <= 4) then Err
        else
          var x :- Lower(a, args[1]);
          Ok(Lowered(MaybeFree(x.a, x.r), x.code + [Move(slot, x.r)], 0))
    else Err
  }

  /** Code that leaves non-zero in register `r` exactly when the condition fails. */
  function LowerCondNegated(a: Alloc, e: Expr): Result<Lowered> {
    if e.Bin? && e.op.Equal? then
      var x :- Lower(a, e.l);
      var y :- Lower(x.a, e.r);
      var (a1, rd) :- Temp(y.a);
      var (a2, tmp) :- Temp(a1);
      Ok(Lowered(MaybeFree(MaybeFree(MaybeFree(a2, x.r), y.r), tmp),
                 x.code + y.code + [Ins(Alu3(EQ, rd, x.r, y.r)), Ins(AluImm(LI, tmp, 0, 1)),
                                    Ins(Alu3(XOR, rd, rd, tmp))],
                 rd))
    else
      var x :- Lower(a, e);
      var (a1, rd) :- Temp(x.a);
      Ok(Lowered(MaybeFree(a1, x.r), x.code + [Ins(Alu3(EQ, rd, x.r, 0))], rd))
  }

  // ----- statements -----

  /** The operator a compound assignment folds to: the first character of its token. */
  function FoldedOp(op: AssignOp): BinOp
    requires !op.Set?
  {
    match op
    case PlusSet => Plus
    case MinusSet => Minus
    case TimesSet => Times
    case AndSet => BitAnd
    case OrSet => BitOr
    case XorSet => BitXor
    case ShlSet => Less
    case ShrSet => Greater
  }

  function Decimal(n: nat): string {
    var digit := ['0' + (n % 10) as char];
    if n < 10 then digit else Decimal(n / 10) + digit
  }

  function LabelName(prefix: string, n: nat): string { prefix + "_" + Decimal(n) }

  function Fresh(a: Alloc, prefix: string): (Alloc, string) {
    (a.(labelId := a.labelId + 1), LabelName(prefix, a.labelId + 1))
  }

  function LowerAssign(a: Alloc, lhs: Expr, rhs: Expr): Result<(Alloc, seq<Node>)> {
    if lhs.Id? then
      var s :- Lookup(a, lhs.name);
      var x :- Lower(a, rhs);
      Ok((MaybeFree(x.a, x.r), x.code + [Move(s.reg, x.r)]))
    else if lhs.Index? then
      var addr :- LowerAddr(a, lhs.base, lhs.index);
      var x :- Lower(addr.a, rhs);
      Ok((MaybeFree(x.a, x.r), addr.code + x.code + [Ins(Instr(STORE, 0, addr.base, x.r, 0, addr.off, None))]))
    else Err
  }

  function LowerStmt(a: Alloc, s: Stmt): Result<(Alloc, seq<Node>)>
    decreases s, 1
  {
    match s
    case Decl(name, _, init) =>
      var (a1, r) :- AddLocal(a, name);
      if init.None? then Ok((a1, []))
      else
        var x :- Lower(a1, init.value);
        Ok((MaybeFree(x.a, x.r), x.code + [Move(r, x.r)]))
    case Assign(op, lhs, rhs) =>
      LowerAssign(a, lhs, if op.Set? then rhs else Bin(FoldedOp(op), lhs, rhs))
    case For(ind, bound, body) =>
      var (a1, r) :- AddLocal(a, ind);
      var n :- Lower(a1, bound);
      var (a2, end) := Fresh(n.a, "for_end");
      var (a3, code) :- LowerBlock(a2, body);
      var a4 := Free(MaybeFree(a3, n.r), r);
      Ok((a4.(syms := a4.syms - {ind}), n.code + [Loop(n.r, end, code + [Ins(AluImm(ADDI, r, r, 1))])]))
    case If(cond, body) =>
      if cond.Const? && cond.v != 0 then LowerBlock(a, body)
      else
        var c :- LowerCondNegated(a, cond);
        var (a1, skip) := Fresh(c.a, "if_skip");
        var (a2, code) :- LowerBlock(MaybeFree(a1, c.r), body);
        Ok((a2, c.code + [Skip(c.r, skip, code)]))
    case Return(value) =>
      if value.None? then Ok((a, [Ret(0)]))
      else
        var x :- Lower(a, value.value);
        Ok((MaybeFree(x.a, x.r), x.code + (if x.r != 1 then [Move(1, x.r)] else []) + [Ret(1)]))
    case ExprCall(call) =>
      if !call.Call? then Err
      else
        var x :- LowerCall(a, call.fn, call.args);
        Ok((x.a, x.code))
    case IncDec(target, delta) =>
      var s :- Lookup(a, target);
      Ok((a, [Ins(AluImm(ADDI, s.reg, s.reg, delta))]))
  }

  function LowerBlock(a: Alloc, ss: seq<Stmt>): Result<(Alloc, seq<Node>)>
    decreases ss, 0
  {
    if ss == [] then Ok((a, []))
    else
      var (a1, first) :- LowerStmt(a, ss[0]);
      var (a2, rest) :- LowerBlock(a1, ss[1..]);
      Ok((a2, first + rest))
  }

  // ----- functions -----

  /** Parameters go to r1..r8 in order; a later parameter of the same name wins. */
  function AddArgs(params: seq<Param>): Result<Alloc> {
    if params == [] then Ok(Alloc(map[], {}, 0))
    else
      var n := |params| - 1;
      var a :- AddArgs(params[..n]);
      if n >= 8 then Err else Ok(a.(syms := a.syms[params[n].name := Sym(n + 1, params[n].IsPtr())]))
  }

  /** The tree of a whole function: its body, and a RET r0 unless the last line emitted is a RET. */
  function LowerFunction(fn: FuncDef): Result<seq<Node>> {
    var a :- AddArgs(fn.params);
    var (_, code) :- LowerBlock(a, fn.body);
    Ok(if EndsWithRet(Flatten(code)) then code else code + [Ret(0)])
  }

  predicate EndsWithRet(lines: seq<Line>) {
    lines != [] && lines[|lines| - 1].Op? && lines[|lines| - 1].instr.op.RET?
  }

  function Compile(fn: FuncDef): Result<seq<Line>> {
    var code :- LowerFunction(fn);
    Ok(Flatten(code))
  }
}
