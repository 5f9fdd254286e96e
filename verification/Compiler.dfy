/**
 * The compiler as written: a symbol table whose scratch flags are flipped in place and a compiler that appends
 * lines, every method tied to the lowering function it computes.
 */
module Compiler {
  import opened Prelude
  import opened Isa
  import opened Assembler
  import opened Ast
  import opened CodeTree
  import opened Lowering

  class SymTable {
    var symbols: map<string, Sym>
    var nextArg: nat
    const scratchUsed: array<bool>

    ghost predicate Valid()
      reads this, scratchUsed
    {
      scratchUsed.Length == 16
    }

    ghost function Used(): set<int>
      reads scratchUsed
    {
      set r: int | 0 <= r < scratchUsed.Length && scratchUsed[r]
    }

    constructor ()
      ensures Valid() && symbols == map[] && nextArg == 1 && Used() == {} && fresh(scratchUsed)
    {
      symbols, nextArg := map[], 1;
      scratchUsed := new bool[16](_ => false);
    }

    /** The next argument register, r1 to r8. */
    method AddArg(name: string, isPtr: bool) returns (s: Result<Sym>)
      requires Valid() && nextArg >= 1
      modifies this
      ensures Valid() && s.Ok? == (old(nextArg) <= 8)
      ensures s.Ok? ==>
                && s.value == Sym(old(nextArg), isPtr) && nextArg == old(nextArg) + 1
                && symbols == old(symbols)[name := s.value]
    {
      if nextArg > 8 { return Err; }
      s := Ok(Sym(nextArg, isPtr));
      symbols := symbols[name := s.value];
      nextArg := nextArg + 1;
    }

    /** The lowest free scratch register, bound to `name`. */
    method AddLocal(name: string) returns (r: Result<reg>)
      requires Valid()
      modifies `symbols, scratchUsed
      ensures Valid() && r == FreeUpFrom(old(Used()), SCRATCH_MIN)
      ensures r.Ok? ==> Used() == old(Used()) + {r.value as int} && symbols == old(symbols)[name := Sym(r.value, false)]
    {
      for i := SCRATCH_MIN to SCRATCH_MAX + 1
        invariant Used() == old(Used()) && symbols == old(symbols)
        invariant FreeUpFrom(Used(), SCRATCH_MIN) == FreeUpFrom(Used(), i)
      {
        if !scratchUsed[i] {
          scratchUsed[i] := true;
          symbols := symbols[name := Sym(i, false)];
          assert Used() == old(Used()) + {i as int};
          return Ok(i);
        }
      }
      r := Err;
    }

    /** The highest free scratch register. */
    method Temp() returns (r: Result<reg>)
      requires Valid()
      modifies scratchUsed
      ensures Valid() && r == FreeFrom(old(Used()), SCRATCH_MAX)
      ensures r.Ok? ==> Used() == old(Used()) + {r.value as int}
    {
      var i: int := SCRATCH_MAX;
      while i >= SCRATCH_MIN
        invariant SCRATCH_MIN - 1 <= i <= SCRATCH_MAX && Used() == old(Used())
        invariant FreeFrom(Used(), SCRATCH_MAX) == FreeFrom(Used(), i)
      {
        if !scratchUsed[i] {
          scratchUsed[i] := true;
          assert Used() == old(Used()) + {i};
          return Ok(i);
        }
        i := i - 1;
      }
      r := Err;
    }

    method Free(r: reg)
      requires Valid()
      modifies scratchUsed
      ensures Valid() && Used() == if SCRATCH_MIN <= r <= SCRATCH_MAX then old(Used()) - {r as int} else old(Used())
    {
      if SCRATCH_MIN <= r <= SCRATCH_MAX { scratchUsed[r] := false; }
    }

    method Get(name: string) returns (s: Result<Sym>)
      requires Valid()
      ensures s == if name in symbols then Ok(symbols[name]) else Err
    {
      s := if name in symbols then Ok(symbols[name]) else Err;
    }
  }

  // ----- what a method has emitted, against the lowering function -----

  /** The outcome of lowering an expression: register, table and lines as the function says, or an error. */
  predicate LoweredTo(before: seq<Line>, spec: Result<Lowered>, r: Result<reg>, a: Alloc, after: seq<Line>) {
    match spec
    case Err => r.Err?
    case Ok(l) => r == Ok(l.r) && a == l.a && after == before + Flatten(l.code)
  }

  predicate AddrLoweredTo(before: seq<Line>, spec: Result<Addr>, r: Result<(reg, int)>, a: Alloc, after: seq<Line>) {
    match spec
    case Err => r.Err?
    case Ok(l) => r == Ok((l.base, l.off)) && a == l.a && after == before + Flatten(l.code)
  }

  predicate CodeLoweredTo(before: seq<Line>, spec: Result<(Alloc, seq<Node>)>, ok: bool, a: Alloc, after: seq<Line>) {
    match spec
    case Err => !ok
    case Ok((b, code)) => ok && a == b && after == before + Flatten(code)
  }

  lemma Push(before: seq<Line>, code: seq<Node>, i: Instr)
    ensures before + Flatten(code) + [Line.Op(i, None)] == before + Flatten(code + [Ins(i)])
  {
    hide Flatten;
    FlattenAppend(code, [Ins(i)]);
    FlattenIns(i);
  }

  lemma Join(before: seq<Line>, x: seq<Node>, y: seq<Node>)
    ensures before + Flatten(x) + Flatten(y) == before + Flatten(x + y)
  {
    hide Flatten;
    FlattenAppend(x, y);
  }

  lemma NoCode(before: seq<Line>)
    ensures before + Flatten([]) == before
  {
  }

  class Compiler {
    const sym: SymTable
    var lines: seq<Line>
    var labelId: nat

    ghost predicate Valid()
      reads this, sym, sym.scratchUsed
    {
      sym.Valid()
    }

    ghost function View(): Alloc
      reads this, sym, sym.scratchUsed
    {
      Alloc(sym.symbols, sym.Used(), labelId)
    }

    constructor ()
      ensures Valid() && View() == Alloc(map[], {}, 0) && sym.nextArg == 1 && lines == []
      ensures fresh(sym) && fresh(sym.scratchUsed)
    {
      sym := new SymTable();
      lines, labelId := [], 0;
    }

    method MaybeFreeTemp(r: reg)
      requires Valid()
      modifies sym.scratchUsed
      ensures Valid() && View() == MaybeFree(old(View()), r)
    {
      if exists name :: name in sym.symbols && sym.symbols[name].reg == r { return; }
      sym.Free(r);
    }

    method NewLabel(prefix: string) returns (name: string)
      requires Valid()
      modifies `labelId
      ensures Valid() && (View(), name) == Fresh(old(View()), prefix)
    {
      labelId := labelId + 1;
      name := LabelName(prefix, labelId);
    }

    // ----- expressions -----

    method LowerExpr(e: Expr) returns (r: Result<reg>)
      requires Valid()
      modifies `lines, `labelId, sym`symbols, sym.scratchUsed
      ensures Valid() && LoweredTo(old(lines), Lower(old(View()), e), r, View(), lines)
      decreases e, 1
    {
      hide Flatten;
      match e {
        case Const(v) =>
          r := sym.Temp();
          if r.Err? { return; }
          FlattenIns(AluImm(LI, r.value, 0, v));
          lines := lines + [Line.Op(AluImm(LI, r.value, 0, v), None)];
        case Id(name) =>
          var s := sym.Get(name);
          if s.Err? { return Err; }
          NoCode(lines);
          r := Ok(s.value.reg);
        case Bin(_, _, _) => r := LowerBinop(e);
        case Un(_, _) => r := LowerUnop(e);
        case Index(base, index) =>
          var addr := AddrComponents(base, index);
          if addr.Err? { return Err; }
          r := sym.Temp();
          if r.Err? { return; }
          var i := Instr(LOAD, r.value, addr.value.0, 0, 0, addr.value.1, None);
          Push(old(lines), LowerAddr(old(View()), base, index).value.code, i);
          lines := lines + [Line.Op(i, None)];
        case Call(fn, args) => r := LowerCallExpr(fn, args);
        case Cast(_, inner) => r := LowerExpr(inner);
      }
    }

    method LowerBinop(e: Expr) returns (r: Result<reg>)
      requires Valid() && e.Bin?
      modifies `lines, `labelId, sym`symbols, sym.scratchUsed
      ensures Valid() && LoweredTo(old(lines), LowerBin(old(View()), e), r, View(), lines)
      decreases e, 0
    {
      hide Flatten;
      ghost var a := View();
      if TryConst(e.r).Some? && ImmSub(e.op).Some? {
        var ra := LowerExpr(e.l);
        if ra.Err? { return Err; }
        r := sym.Temp();
        if r.Err? { return; }
        var i := AluImm(ImmSub(e.op).value, r.value, ra.value, TryConst(e.r).value);
        Push(old(lines), Lower(a, e.l).value.code, i);
        lines := lines + [Line.Op(i, None)];
        MaybeFreeTemp(ra.value);
        return;
      }
      if RegSub(e.op).None? { return Err; }
      var ra := LowerExpr(e.l);
      if ra.Err? { return Err; }
      ghost var x := Lower(a, e.l).value;
      var rb := LowerExpr(e.r);
      if rb.Err? { return Err; }
      ghost var y := Lower(x.a, e.r).value;
      r := sym.Temp();
      if r.Err? { return; }
      var i := Alu3(RegSub(e.op).value, r.value, ra.value, rb.value);
      Join(old(lines), x.code, y.code);
      Push(old(lines), x.code + y.code, i);
      lines := lines + [Line.Op(i, None)];
      MaybeFreeTemp(ra.value);
      MaybeFreeTemp(rb.value);
    }

    method LowerUnop(e: Expr) returns (r: Result<reg>)
      requires Valid() && e.Un?
      modifies `lines, `labelId, sym`symbols, sym.scratchUsed
      ensures Valid() && LoweredTo(old(lines), Lower(old(View()), e), r, View(), lines)
      decreases e, 0
    {
      hide Flatten;
      ghost var a := View();
      if e.uop.Complement? { return Err; }
      var x := LowerExpr(e.e);
      if x.Err? { return Err; }
      r := sym.Temp();
      if r.Err? { return; }
      var i := if e.uop.Negate? then Alu3(SUB, r.value, 0, x.value) else Alu3(EQ, r.value, x.value, 0);
      Push(old(lines), Lower(a, e.e).value.code, i);
      lines := lines + [Line.Op(i, None)];
      MaybeFreeTemp(x.value);
    }

    /** Base register and constant offset of an element's address. */
    method AddrComponents(base: Expr, index: Expr) returns (r: Result<(reg, int)>)
      requires Valid()
      modifies `lines, `labelId, sym`symbols, sym.scratchUsed
      ensures Valid() && AddrLoweredTo(old(lines), LowerAddr(old(View()), base, index), r, View(), lines)
      decreases index, 2
    {
      hide Flatten, Lower, TryConst, FreeFrom;
      ghost var a := View();
      if !base.Id? { return Err; }
      var s := sym.Get(base.name);
      if s.Err? || !s.value.isPtr { return Err; }
      if TryConst(index).Some? {
        NoCode(lines);
        return Ok((s.value.reg, TryConst(index).value * 8));
      }
      var x := LowerExpr(index);
      if x.Err? { return Err; }
      ghost var code := Lower(a, index).value.code;
      var scale := sym.Temp();
      if scale.Err? { return Err; }
      var first := AluImm(SHLI, scale.value, x.value, 3);
      Push(old(lines), code, first);
      lines := lines + [Line.Op(first, None)];
      var sum := sym.Temp();
      if sum.Err? { return Err; }
      var second := Alu3(ADD, sum.value, s.value.reg, scale.value);
      Push(old(lines), code + [Ins(first)], second);
      assert code + [Ins(first)] + [Ins(second)] == code + [Ins(first), Ins(second)];
      lines := lines + [Line.Op(second, None)];
      MaybeFreeTemp(x.value);
      sym.Free(scale.value);
      r := Ok((sum.value, 0));
    }

    method LowerCallExpr(fn: string, args: seq<Expr>) returns (r: Result<reg>)
      requires Valid()
      modifies `lines, `labelId, sym`symbols, sym.scratchUsed
      ensures Valid() && LoweredTo(old(lines), LowerCall(old(View()), fn, args), r, View(), lines)
      decreases args, 2
    {
      if fn == "tiara_andi" {
        r := LowerAndi(args);
      } else if fn == "tiara_memcpy" {
        r := LowerMemcpy(args);
      } else if fn == "tiara_cas" {
        r := LowerCas(args);
      } else if fn == "tiara_caa" {
        r := LowerCaa(args);
      } else if fn == "tiara_wait" {
        r := LowerWait(args);
      } else if fn == "tiara_set_result" {
        r := LowerSetResult(args);
      } else {
        r := Err;
      }
    }

    method LowerAndi(args: seq<Expr>) returns (r: Result<reg>)
      requires Valid()
      modifies `lines, `labelId, sym`symbols, sym.scratchUsed
      ensures Valid() && LoweredTo(old(lines), LowerCall(old(View()), "tiara_andi", args), r, View(), lines)
      decreases args, 1
    {
      hide Flatten;
      ghost var a := View();
      if |args| != 2 { return Err; }
      var x := LowerExpr(args[0]);
      if x.Err? { return Err; }
      ghost var code := Lower(a, args[0]).value.code;
      var mask := RequireConst(args[1]);
      if mask.Err? { return Err; }
      r := sym.Temp();
      if r.Err? { return; }
      var i := AluImm(ANDI, r.value, x.value, mask.value);
      Push(old(lines), code, i);
      Join(old(lines), code, [Bad]);
      BadLine();
      lines := lines + [if mask.value < 0 then Malformed else Line.Op(i, None)];
      MaybeFreeTemp(x.value);
    }

    method LowerMemcpy(args: seq<Expr>) returns (r: Result<reg>)
      requires Valid()
      modifies `lines, `labelId, sym`symbols, sym.scratchUsed
      ensures Valid() && LoweredTo(old(lines), LowerCall(old(View()), "tiara_memcpy", args), r, View(), lines)
      decreases args, 1
    {
      hide Flatten;
      ghost var a := View();
      if |args| != 4 { return Err; }
      var d := LowerExpr(args[0]);
      if d.Err? { return Err; }
      ghost var x := Lower(a, args[0]).value;
      var s := LowerExpr(args[1]);
      if s.Err? { return Err; }
      ghost var y := Lower(x.a, args[1]).value;
      var length := RequireConst(args[2]);
      if length.Err? { return Err; }
      var async := RequireConst(args[3]);
      if async.Err? { return Err; }
      var i := Instr(MEMCPY, 0, d.value, s.value, if async.value != 0 then 1 else 0, length.value, Some(NO_EXTRA));
      Join(old(lines), x.code, y.code);
      Push(old(lines), x.code + y.code, i);
      lines := lines + [Line.Op(i, None)];
      MaybeFreeTemp(d.value);
      MaybeFreeTemp(s.value);
      r := Ok(0);
    }

    method LowerCas(args: seq<Expr>) returns (r: Result<reg>)
      requires Valid()
      modifies `lines, `labelId, sym`symbols, sym.scratchUsed
      ensures Valid() && LoweredTo(old(lines), LowerCall(old(View()), "tiara_cas", args), r, View(), lines)
      decreases args, 1
    {
      hide Flatten;
      ghost var a := View();
      if |args| != 3 { return Err; }
      var ra := LowerExpr(args[0]);
      if ra.Err? { return Err; }
      ghost var x := Lower(a, args[0]).value;
      var re := LowerExpr(args[1]);
      if re.Err? { return Err; }
      ghost var y := Lower(x.a, args[1]).value;
      var rn := LowerExpr(args[2]);
      if rn.Err? { return Err; }
      ghost var z := Lower(y.a, args[2]).value;
      r := sym.Temp();
      if r.Err? { return; }
      var i := Instr(CAS, r.value, ra.value, re.value, 0, 0, Some(NO_EXTRA.(rd := rn.value)));
      Join(old(lines), x.code, y.code);
      Join(old(lines), x.code + y.code, z.code);
      Push(old(lines), x.code + y.code + z.code, i);
      lines := lines + [Line.Op(i, None)];
      MaybeFreeTemp(ra.value);
      MaybeFreeTemp(re.value);
      MaybeFreeTemp(rn.value);
    }

    method LowerCaa(args: seq<Expr>) returns (r: Result<reg>)
      requires Valid()
      modifies `lines, `labelId, sym`symbols, sym.scratchUsed
      ensures Valid() && LoweredTo(old(lines), LowerCall(old(View()), "tiara_caa", args), r, View(), lines)
      decreases args, 1
    {
      hide Flatten;
      ghost var a := View();
      if |args| != 2 { return Err; }
      var ra := LowerExpr(args[0]);
      if ra.Err? { return Err; }
      ghost var x := Lower(a, args[0]).value;
      var rb := LowerExpr(args[1]);
      if rb.Err? { return Err; }
      ghost var y := Lower(x.a, args[1]).value;
      r := sym.Temp();
      if r.Err? { return; }
      var i := Instr(CAA, r.value, ra.value, rb.value, 0, 0, Some(NO_EXTRA));
      Join(old(lines), x.code, y.code);
      Push(old(lines), x.code + y.code, i);
      lines := lines + [Line.Op(i, None)];
      MaybeFreeTemp(ra.value);
      MaybeFreeTemp(rb.value);
    }

    method LowerWait(args: seq<Expr>) returns (r: Result<reg>)
      requires Valid()
      modifies `lines
      ensures Valid() && LoweredTo(old(lines), LowerCall(old(View()), "tiara_wait", args), r, View(), lines)
    {
      hide Flatten;
      if |args| != 1 { return Err; }
      var n := RequireConst(args[0]);
      if n.Err? { return Err; }
      var i := Instr(WAIT, 0, 0, 0, 0, n.value, None);
      FlattenIns(i);
      lines := lines + [Line.Op(i, None)];
      r := Ok(0);
    }

    method LowerSetResult(args: seq<Expr>) returns (r: Result<reg>)
      requires Valid()
      modifies `lines, `labelId, sym`symbols, sym.scratchUsed
      ensures Valid() && LoweredTo(old(lines), LowerCall(old(View()), "tiara_set_result", args), r, View(), lines)
      decreases args, 1
    {
      hide Flatten;
      ghost var a := View();
      if |args| != 2 { return Err; }
      var slot := RequireConst(args[0]);
      if slot.Err? || !(1 <= slot.value <= 4) { return Err; }
      var x := LowerExpr(args[1]);
      if x.Err? { return Err; }
      var i := AluImm(ADDI, slot.value, x.value, 0);
      Push(old(lines), Lower(a, args[1]).value.code, i);
      lines := lines + [Line.Op(i, None)];
      MaybeFreeTemp(x.value);
      r := Ok(0);
    }
  
    method LowerCondition(e: Expr) returns (r: Result<reg>)
      requires Valid()
      modifies `lines, `labelId, sym`symbols, sym.scratchUsed
      ensures Valid() && LoweredTo(old(lines), LowerCondNegated(old(View()), e), r, View(), lines)
    {
      hide Flatten, Lower;
      ghost var a := View();
      if e.Bin? && e.op.Equal? {
        var ra := LowerExpr(e.l);
        if ra.Err? { return Err; }
        ghost var x := Lower(a, e.l).value;
        var rb := LowerExpr(e.r);
        if rb.Err? { return Err; }
        ghost var y := Lower(x.a, e.r).value;
        r := sym.Temp();
        if r.Err? { return; }
        var rd := r.value;
        Join(old(lines), x.code, y.code);
        Push(old(lines), x.code + y.code, Alu3(EQ, rd, ra.value, rb.value));
        lines := lines + [Line.Op(Alu3(EQ, rd, ra.value, rb.value), None)];
        var tmp := sym.Temp();
        if tmp.Err? { return Err; }
        ghost var code := x.code + y.code + [Ins(Alu3(EQ, rd, ra.value, rb.value))];
        Push(old(lines), code, AluImm(LI, tmp.value, 0, 1));
        lines := lines + [Line.Op(AluImm(LI, tmp.value, 0, 1), None)];
        Push(old(lines), code + [Ins(AluImm(LI, tmp.value, 0, 1))], Alu3(XOR, rd, rd, tmp.value));
        lines := lines + [Line.Op(Alu3(XOR, rd, rd, tmp.value), None)];
        assert code + [Ins(AluImm(LI, tmp.value, 0, 1))] + [Ins(Alu3(XOR, rd, rd, tmp.value))]
            == x.code + y.code + [Ins(Alu3(EQ, rd, ra.value, rb.value)), Ins(AluImm(LI, tmp.value, 0, 1)),
                                  Ins(Alu3(XOR, rd, rd, tmp.value))];
        MaybeFreeTemp(ra.value);
        MaybeFreeTemp(rb.value);
        MaybeFreeTemp(tmp.value);
      } else {
        var x := LowerExpr(e);
        if x.Err? { return Err; }
        r := sym.Temp();
        if r.Err? { return; }
        var i := Alu3(EQ, r.value, x.value, 0);
        Push(old(lines), Lower(a, e).value.code, i);
        lines := lines + [Line.Op(i, None)];
        MaybeFreeTemp(x.value);
      }
    }

    // ----- statements -----

    method LowerDecl(name: string, ty: CType, init: Option<Expr>) returns (ok: bool)
      requires Valid()
      modifies `lines, `labelId, sym`symbols, sym.scratchUsed
      ensures Valid() && CodeLoweredTo(old(lines), LowerStmt(old(View()), Decl(name, ty, init)), ok, View(), lines)
    {
      hide Flatten, Lower;
      var r := sym.AddLocal(name);
      if r.Err? { return false; }
      ghost var a1 := View();
      NoCode(lines);
      if init.Some? {
        var x := LowerExpr(init.value);
        if x.Err? { return false; }
        var i := AluImm(ADDI, r.value, x.value, 0);
        Push(old(lines), Lower(a1, init.value).value.code, i);
        lines := lines + [Line.Op(i, None)];
        MaybeFreeTemp(x.value);
      }
      ok := true;
    }

    method LowerAssignment(op: AssignOp, lhs: Expr, rhs: Expr) returns (ok: bool)
      requires Valid()
      modifies `lines, `labelId, sym`symbols, sym.scratchUsed
      ensures Valid() && CodeLoweredTo(old(lines), LowerStmt(old(View()), Assign(op, lhs, rhs)), ok, View(), lines)
      decreases if op.Set? then 0 else 1
    {
      hide Flatten, Lower;
      ghost var a := View();
      if !op.Set? {
        ok := LowerAssignment(Set, lhs, Bin(FoldedOp(op), lhs, rhs));
        return;
      }
      if lhs.Id? {
        var s := sym.Get(lhs.name);
        if s.Err? { return false; }
        var x := LowerExpr(rhs);
        if x.Err? { return false; }
        var i := AluImm(ADDI, s.value.reg, x.value, 0);
        Push(old(lines), Lower(a, rhs).value.code, i);
        lines := lines + [Line.Op(i, None)];
        MaybeFreeTemp(x.value);
        return true;
      }
      if lhs.Index? {
        var addr := AddrComponents(lhs.base, lhs.index);
        if addr.Err? { return false; }
        ghost var at := LowerAddr(a, lhs.base, lhs.index).value;
        var x := LowerExpr(rhs);
        if x.Err? { return false; }
        var i := Instr(STORE, 0, addr.value.0, x.value, 0, addr.value.1, None);
        Join(old(lines), at.code, Lower(at.a, rhs).value.code);
        Push(old(lines), at.code + Lower(at.a, rhs).value.code, i);
        lines := lines + [Line.Op(i, None)];
        MaybeFreeTemp(x.value);
        return true;
      }
      ok := false;
    }

    method LowerReturn(value: Option<Expr>) returns (ok: bool)
      requires Valid()
      modifies `lines, `labelId, sym`symbols, sym.scratchUsed
      ensures Valid() && CodeLoweredTo(old(lines), LowerStmt(old(View()), Return(value)), ok, View(), lines)
    {
      hide Flatten, Lower;
      ghost var a := View();
      if value.None? {
        FlattenRet(0);
        lines := lines + [Line.Op(Plain(RET, 0), None)];
        return true;
      }
      var x := LowerExpr(value.value);
      if x.Err? { return false; }
      ghost var code := Lower(a, value.value).value.code;
      assert code + [] == code;
      if x.value != 1 {
        Push(old(lines), code, AluImm(ADDI, 1, x.value, 0));
        lines := lines + [Line.Op(AluImm(ADDI, 1, x.value, 0), None)];
        code := code + [Move(1, x.value)];
      }
      FlattenRet(1);
      Join(old(lines), code, [Ret(1)]);
      lines := lines + [Line.Op(Plain(RET, 1), None)];
      MaybeFreeTemp(x.value);
      ok := true;
    }

    method LowerFor(ind: string, bound: Expr, body: seq<Stmt>) returns (ok: bool)
      requires Valid()
      modifies `lines, `labelId, sym`symbols, sym.scratchUsed
      ensures Valid() && CodeLoweredTo(old(lines), LowerStmt(old(View()), For(ind, bound, body)), ok, View(), lines)
      decreases body, 1
    {
      hide Flatten, Lower, LowerBlock;
      var r := sym.AddLocal(ind);
      if r.Err? { return false; }
      ghost var a1 := View();
      var n := LowerExpr(bound);
      if n.Err? { return false; }
      ghost var count := Lower(a1, bound).value.code;
      var end := NewLabel("for_end");
      ghost var a2 := View();
      ghost var before := lines;
      lines := lines + [Line.Op(Plain(LOOP, n.value), Some(end))];
      ok := LowerStatements(body);
      if !ok { return; }
      var step := AluImm(ADDI, r.value, r.value, 1);
      ghost var inner := LowerBlock(a2, body).value.1;
      Push(before + [Line.Op(Plain(LOOP, n.value), Some(end))], inner, step);
      lines := lines + [Line.Op(step, None)];
      lines := lines + [Label(end)];
      LoopLines(before, n.value, end, inner + [Ins(step)]);
      Join(old(lines), count, [Loop(n.value, end, inner + [Ins(step)])]);
      CloseLoop(n.value, ind, r.value);
    }

    /** The end of a `for`: its bound's register, its variable's, and its name. */
    method CloseLoop(bound: reg, ind: string, r: reg)
      requires Valid()
      modifies sym`symbols, sym.scratchUsed
      ensures var freed := Free(MaybeFree(old(View()), bound), r);
              Valid() && View() == freed.(syms := freed.syms - {ind})
    {
      MaybeFreeTemp(bound);
      sym.Free(r);
      sym.symbols := sym.symbols - {ind};
    }

    method LowerIf(cond: Expr, body: seq<Stmt>) returns (ok: bool)
      requires Valid()
      modifies `lines, `labelId, sym`symbols, sym.scratchUsed
      ensures Valid() && CodeLoweredTo(old(lines), LowerStmt(old(View()), If(cond, body)), ok, View(), lines)
      decreases body, 1
    {
      hide Flatten, Lower, LowerBlock, LowerCondNegated;
      ghost var a := View();
      if cond.Const? && cond.v != 0 {
        ok := LowerStatements(body);
        return;
      }
      var c := LowerCondition(cond);
      if c.Err? { return false; }
      var skip := NewLabel("if_skip");
      ghost var before := lines;
      lines := lines + [Line.Op(Plain(JUMP, c.value), Some(skip))];
      MaybeFreeTemp(c.value);
      ghost var a2 := View();
      ok := LowerStatements(body);
      if !ok { return; }
      ghost var inner := LowerBlock(a2, body).value.1;
      lines := lines + [Label(skip)];
      SkipLines(before, c.value, skip, inner);
      Join(old(lines), LowerCondNegated(a, cond).value.code, [Skip(c.value, skip, inner)]);
    }

    method LowerStatement(s: Stmt) returns (ok: bool)
      requires Valid()
      modifies `lines, `labelId, sym`symbols, sym.scratchUsed
      ensures Valid() && CodeLoweredTo(old(lines), LowerStmt(old(View()), s), ok, View(), lines)
      decreases s, 2
    {
      hide Flatten, LowerCall;
      match s {
        case Decl(name, ty, init) => ok := LowerDecl(name, ty, init);
        case Assign(op, lhs, rhs) => ok := LowerAssignment(op, lhs, rhs);
        case For(ind, bound, body) => ok := LowerFor(ind, bound, body);
        case If(cond, body) => ok := LowerIf(cond, body);
        case Return(value) => ok := LowerReturn(value);
        case ExprCall(call) =>
          if !call.Call? { return false; }
          var r := LowerCallExpr(call.fn, call.args);
          ok := r.Ok?;
        case IncDec(target, delta) =>
          var t := sym.Get(target);
          if t.Err? { return false; }
          var i := AluImm(ADDI, t.value.reg, t.value.reg, delta);
          FlattenIns(i);
          lines := lines + [Line.Op(i, None)];
          ok := true;
      }
    }

    method LowerStatements(ss: seq<Stmt>) returns (ok: bool)
      requires Valid()
      modifies `lines, `labelId, sym`symbols, sym.scratchUsed
      ensures Valid() && CodeLoweredTo(old(lines), LowerBlock(old(View()), ss), ok, View(), lines)
      decreases ss, 0
    {
      hide Flatten, LowerStmt;
      ghost var code: seq<Node> := [];
      NoCode(lines);
      ghost var spec := LowerBlock(View(), ss);
      assert ss[0..] == ss;
      ContinueFresh(spec);
      for i := 0 to |ss|
        invariant Valid() && lines == old(lines) + Flatten(code)
        invariant spec == Continue(code, LowerBlock(View(), ss[i..]))
      {
        ghost var a1 := View();
        assert ss[i..][1..] == ss[i + 1..];
        ok := LowerStatement(ss[i]);
        if !ok { return; }
        ghost var first := LowerStmt(a1, ss[i]).value.1;
        Join(old(lines), code, first);
        ContinueAgain(code, first, LowerBlock(View(), ss[i + 1..]));
        code := code + first;
      }
      assert code + [] == code;
      ok := true;
    }

    // ----- functions -----

    method CompileFunction(fn: FuncDef) returns (r: Result<seq<Line>>)
      requires Valid() && View() == Alloc(map[], {}, 0) && sym.nextArg == 1 && lines == []
      modifies this, sym, sym.scratchUsed
      ensures r == Compile(fn)
    {
      hide Flatten, LowerBlock;
      for i := 0 to |fn.params|
        invariant Valid() && sym.nextArg == i + 1 && lines == [] && AddArgs(fn.params[..i]) == Ok(View())
      {
        assert fn.params[..i + 1][..i] == fn.params[..i];
        var s := sym.AddArg(fn.params[i].name, fn.params[i].IsPtr());
        if s.Err? { ArgsFail(fn.params, i + 1); return Err; }
      }
      assert fn.params[..|fn.params|] == fn.params;
      ghost var a := View();
      var ok := LowerStatements(fn.body);
      if !ok { return Err; }
      ghost var code := LowerBlock(a, fn.body).value.1;
      assert lines == Flatten(code);
      FlattenRet(0);
      FlattenAppend(code, [Ret(0)]);
      if !EndsWithRet(lines) {
        lines := lines + [Line.Op(Plain(RET, 0), None)];
      }
      r := Ok(lines);
    }
  }

  /** The rest of a block after `code`. */
  function Continue(code: seq<Node>, rest: Result<(Alloc, seq<Node>)>): Result<(Alloc, seq<Node>)> {
    match rest
    case Err => Err
    case Ok((b, more)) => Ok((b, code + more))
  }

  lemma ContinueFresh(rest: Result<(Alloc, seq<Node>)>)
    ensures Continue([], rest) == rest
  {
    if rest.Ok? {
      assert [] + rest.value.1 == rest.value.1;
    }
  }

  lemma ContinueAgain(code: seq<Node>, first: seq<Node>, rest: Result<(Alloc, seq<Node>)>)
    ensures Continue(code, Continue(first, rest)) == Continue(code + first, rest)
  {
    if rest.Ok? {
      assert code + (first + rest.value.1) == code + first + rest.value.1;
    }
  }

  lemma LoopLines(before: seq<Line>, r: reg, end: string, body: seq<Node>)
    ensures before + [Line.Op(Plain(LOOP, r), Some(end))] + Flatten(body) + [Label(end)]
        == before + Flatten([Loop(r, end, body)])
  {
    assert [Loop(r, end, body)][1..] == [];
  }

  lemma SkipLines(before: seq<Line>, r: reg, end: string, body: seq<Node>)
    ensures before + [Line.Op(Plain(JUMP, r), Some(end))] + Flatten(body) + [Label(end)]
        == before + Flatten([Skip(r, end, body)])
  {
    assert [Skip(r, end, body)][1..] == [];
  }

  lemma {:induction false} ArgsFail(params: seq<Param>, i: nat)
    requires i <= |params| && AddArgs(params[..i]).Err?
    ensures AddArgs(params).Err?
    decreases |params| - i
  {
    if i < |params| {
      assert params[..i + 1][..i] == params[..i];
      ArgsFail(params, i + 1);
    } else {
      assert params[..i] == params;
    }
  }

  lemma BadLine()
    ensures Flatten([Bad]) == [Malformed]
  {
    assert [Bad][1..] == [];
  }
}
