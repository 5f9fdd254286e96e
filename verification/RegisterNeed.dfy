/**
 * Which expressions the compiler accepts: those of the supported operators, whose need for registers, counted on the
 * tree, is met by the scratch registers still free.
 */
module RegisterNeed {
  import opened Prelude
  import opened Isa
  import opened Ast
  import opened Lowering
  import opened ExprCorrect

  // ----- what is supported -----

  /** The names bound, and whether each is a pointer parameter. */
  type Names = map<string, bool>

  /** A literal, negated or cast at will. */
  predicate Constant(e: Expr) {
    match e
    case Const(_) => true
    case Un(Negate, inner) => Constant(inner)
    case Cast(_, inner) => Constant(inner)
    case _ => false
  }

  function ConstantValue(e: Expr): int
    requires Constant(e)
  {
    match e
    case Const(v) => v
    case Un(_, inner) => -ConstantValue(inner)
    case Cast(_, inner) => ConstantValue(inner)
  }

  /** The operators with an instruction that takes two registers. */
  predicate Operator(op: BinOp) {
    op in {Plus, Minus, Times, BitAnd, BitOr, BitXor, ShiftL, ShiftR, Equal, Less, GreaterEqual}
  }

  /** Those with one that takes a constant instead of the right operand. */
  predicate TakesConstant(op: BinOp) { op in {Plus, BitAnd, ShiftL, ShiftR} }

  predicate Supported(names: Names, e: Expr)
    decreases e
  {
    match e
    case Const(_) => true
    case Id(name) => name in names
    case Bin(op, l, r) => Operator(op) && Supported(names, l) && Supported(names, r)
    case Un(op, inner) => op in {Negate, LogicalNot} && Supported(names, inner)
    case Index(base, index) => base.Id? && base.name in names && names[base.name] && Supported(names, index)
    case Call(fn, args) => CallSupported(names, fn, args)
    case Cast(_, inner) => Supported(names, inner)
  }

  predicate CallSupported(names: Names, fn: string, args: seq<Expr>)
    decreases args
  {
    match fn
    case "tiara_andi" => |args| == 2 && Supported(names, args[0]) && Constant(args[1])
    case "tiara_memcpy" =>
      |args| == 4 && Supported(names, args[0]) && Supported(names, args[1]) && Constant(args[2]) && Constant(args[3])
    case "tiara_cas" =>
      |args| == 3 && Supported(names, args[0]) && Supported(names, args[1]) && Supported(names, args[2])
    case "tiara_caa" => |args| == 2 && Supported(names, args[0]) && Supported(names, args[1])
    case "tiara_wait" => |args| == 1 && Constant(args[0])
    case "tiara_set_result" =>
      |args| == 2 && Constant(args[0]) && 1 <= ConstantValue(args[0]) <= 4 && Supported(names, args[1])
    case _ => false
  }

  // ----- how many registers it takes -----

  /** The value is in a register of its own, to be given back. */
  predicate Temporary(e: Expr) {
    match e
    case Id(_) => false
    case Cast(_, inner) => Temporary(inner)
    case Call(fn, _) => fn in {"tiara_andi", "tiara_cas", "tiara_caa"}
    case _ => true
  }

  /** Registers never given back: one for each element whose index is computed. */
  function Lost(e: Expr): nat
    decreases e
  {
    match e
    case Bin(op, l, r) => Lost(l) + if TakesConstant(op) && Constant(r) then 0 else Lost(r)
    case Un(_, inner) => Lost(inner)
    case Index(_, index) => if Constant(index) then 0 else Lost(index) + 1
    case Call(fn, args) => CallLost(fn, args)
    case Cast(_, inner) => Lost(inner)
    case _ => 0
  }

  function CallLost(fn: string, args: seq<Expr>): nat
    decreases args
  {
    if fn == "tiara_set_result" && |args| == 2 then Lost(args[1])
    else if fn == "tiara_andi" && |args| == 2 then Lost(args[0])
    else if fn == "tiara_memcpy" && |args| == 4 then Lost(args[0]) + Lost(args[1])
    else if fn == "tiara_cas" && |args| == 3 then Lost(args[0]) + Lost(args[1]) + Lost(args[2])
    else if fn == "tiara_caa" && |args| == 2 then Lost(args[0]) + Lost(args[1])
    else 0
  }

  /** Registers in use once the value is there. */
  function Left(e: Expr): nat { Lost(e) + if Temporary(e) then 1 else 0 }

  /** Registers in use at once, at most. */
  function Need(e: Expr): nat
    decreases e
  {
    match e
    case Const(_) => 1
    case Id(_) => 0
    case Bin(op, l, r) =>
      if TakesConstant(op) && Constant(r) then OneNeed(l, Need(l)) else TwoNeed(l, Need(l), r, Need(r))
    case Un(_, inner) => OneNeed(inner, Need(inner))
    case Index(_, index) => if Constant(index) then 1 else Max(Need(index), Left(index) + 2)
    case Call(fn, args) => CallNeed(fn, args)
    case Cast(_, inner) => Need(inner)
  }

  /** An operand and then a register for the result; two operands and then one for the result. */
  function OneNeed(x: Expr, need: nat): nat { Max(need, Left(x) + 1) }

  function TwoNeed(x: Expr, xNeed: nat, y: Expr, yNeed: nat): nat {
    Max(Max(xNeed, Left(x) + yNeed), Left(x) + Left(y) + 1)
  }

  function CallNeed(fn: string, args: seq<Expr>): nat
    decreases args
  {
    if fn == "tiara_set_result" && |args| == 2 then Need(args[1])
    else if fn == "tiara_andi" && |args| == 2 then OneNeed(args[0], Need(args[0]))
    else if fn == "tiara_memcpy" && |args| == 4 then Max(Need(args[0]), Left(args[0]) + Need(args[1]))
    else if fn == "tiara_cas" && |args| == 3 then
      var two := Left(args[0]) + Left(args[1]);
      Max(Max(Need(args[0]), Left(args[0]) + Need(args[1])), Max(two + Need(args[2]), two + Left(args[2]) + 1))
    else if fn == "tiara_caa" && |args| == 2 then TwoNeed(args[0], Need(args[0]), args[1], Need(args[1]))
    else 0
  }

  /** Whatever is left in use was needed. */
  lemma {:induction false} LeftNeeded(names: Names, e: Expr)
    requires Supported(names, e)
    ensures Left(e) <= Need(e)
    decreases e
  {
    match e
    case Bin(_, l, r) =>
      LeftNeeded(names, l);
      LeftNeeded(names, r);
    case Un(_, inner) => LeftNeeded(names, inner);
    case Index(_, index) => LeftNeeded(names, index);
    case Call(fn, args) => CallLeftNeeded(names, fn, args);
    case Cast(_, inner) => LeftNeeded(names, inner);
    case _ =>
  }

  lemma {:induction false} CallLeftNeeded(names: Names, fn: string, args: seq<Expr>)
    requires CallSupported(names, fn, args)
    ensures CallLost(fn, args) + (if fn in {"tiara_andi", "tiara_cas", "tiara_caa"} then 1 else 0) <= CallNeed(fn, args)
    decreases args
  {
    hide Need, Lost, Temporary;
    forall i | 0 <= i < |args| && Supported(names, args[i]) ensures Left(args[i]) <= Need(args[i]) {
      LeftNeeded(names, args[i]);
    }
  }

  // ----- counting registers -----

  function NamesOf(syms: map<string, Sym>): Names { map name | name in syms :: syms[name].isPtr }

  lemma ConstantIs(e: Expr)
    ensures TryConst(e) == if Constant(e) then Some(ConstantValue(e)) else None
  {
  }

  lemma ConstantSupported(names: Names, e: Expr)
    requires Constant(e)
    ensures Supported(names, e)
  {
  }

  lemma OperatorIs(op: BinOp)
    ensures RegSub(op).Some? <==> Operator(op)
    ensures ImmSub(op).Some? <==> TakesConstant(op)
  {
  }

  lemma AtMostSeven(a: Alloc)
    requires AllocOk(a)
    ensures |a.used| <= 7
    ensures |a.used| < 7 <==> exists r :: 9 <= r <= 15 && r !in a.used
  {
    var scratch: set<int> := {9, 10, 11, 12, 13, 14, 15};
    assert |scratch| == 7;
    forall r | r in a.used ensures r in scratch { assert 9 <= r <= 15; }
    SubsetSize(a.used, scratch);
    if r :| 9 <= r <= 15 && r !in a.used {
      SubsetSize(a.used, scratch - {r});
    } else {
      forall r | r in scratch ensures r in a.used { assert 9 <= r <= 15; }
      assert a.used == scratch;
    }
  }

  lemma {:induction false} FreeFromFinds(used: set<int>, r: int)
    requires r <= 15
    ensures FreeFrom(used, r).Ok? <==> exists q :: 9 <= q <= r && q !in used
    decreases r
  {
    if r >= 9 && r in used {
      FreeFromFinds(used, r - 1);
    }
  }

  /** There is a temporary while fewer than seven registers are in use. */
  lemma TempCounts(a: Alloc)
    requires AllocOk(a)
    ensures Temp(a).Ok? <==> |a.used| < 7
    ensures Temp(a).Ok? ==> |Temp(a).value.0.used| == |a.used| + 1
  {
    AtMostSeven(a);
    FreeFromFinds(a.used, 15);
    if Temp(a).Ok? { TempIs(a); }
  }

  /** Freed when it is a scratch register in use in which no symbol lives. */
  predicate Goes(a: Alloc, r: int) { 9 <= r && !IsSymReg(a.syms, r) }

  lemma FreeCounts(a: Alloc, r: reg)
    requires Goes(a, r) ==> r in a.used
    ensures |MaybeFree(a, r).used| == |a.used| - if Goes(a, r) then 1 else 0
  {
    hide IsSymReg;
  }

  // ----- expressions -----

  /** The name an expression reads as it is. */
  function NameRead(e: Expr): Option<string> {
    match e
    case Id(name) => Some(name)
    case Cast(_, inner) => NameRead(inner)
    case _ => None
  }

  /** The registers of a lowered expression, as counted on its tree. */
  predicate Counted(a: Alloc, e: Expr, l: Lowered) {
    && |l.a.used| == |a.used| + Left(e)
    && (Temporary(e) <==> Goes(a, l.r))
    && (!Temporary(e) && l.r != 0 ==> NameRead(e).Some? && NameRead(e).value in a.syms
                                        && a.syms[NameRead(e).value].reg == l.r)
  }

  lemma {:induction false} LowerIff(a: Alloc, e: Expr)
    requires AllocOk(a)
    ensures Lower(a, e).Ok? <==> Supported(NamesOf(a.syms), e) && |a.used| + Need(e) <= 7
    ensures Lower(a, e).Ok? ==> Counted(a, e, Lower(a, e).value)
    decreases e, 1
  {
    hide AllocOk, Temp, MaybeFree, IsSymReg;
    AtMostSevenUsed(a);
    match e
    case Const(_) => TempCounts(a); if Temp(a).Ok? { TempIs(a); }
    case Id(name) => if name in a.syms { SymbolStays(a, name); }
    case Bin(_, _, _) => BinIff(a, e);
    case Un(op, inner) =>
      LowerIff(a, inner);
      if Lower(a, inner).Ok? { OneCounts(a, inner); }
    case Index(base, index) => IndexIff(a, base, index);
    case Call(fn, args) => CallIff(a, fn, args);
    case Cast(_, inner) => LowerIff(a, inner);
  }

  lemma AtMostSevenUsed(a: Alloc)
    requires AllocOk(a)
    ensures |a.used| <= 7
  {
    AtMostSeven(a);
  }

  lemma SymbolStays(a: Alloc, name: string)
    requires AllocOk(a) && name in a.syms
    ensures !Goes(a, a.syms[name].reg)
  {
  }

  /** Once an operand is there: a result needs one more register, and the operand's own then goes. */
  lemma OneCounts(a: Alloc, x: Expr)
    requires AllocOk(a) && Lower(a, x).Ok? && Counted(a, x, Lower(a, x).value)
    ensures var l := Lower(a, x).value;
            && (Temp(l.a).Ok? <==> |a.used| + Left(x) + 1 <= 7)
            && (Temp(l.a).Ok? ==>
                  var (b, rd) := Temp(l.a).value;
                  |MaybeFree(b, l.r).used| == |a.used| + Lost(x) + 1 && Goes(a, rd))
  {
    hide AllocOk, Temp, MaybeFree, IsSymReg, Need, Lost;
    LowerShape(a, x);
    var l := Lower(a, x).value;
    TempCounts(l.a);
    if Temp(l.a).Ok? {
      TempIs(l.a);
      var (b, rd) := Temp(l.a).value;
      FreeCounts(b, l.r);
    }
  }

  /** Giving back a register that another one may not be. */
  lemma FreeBoth(b: Alloc, r: reg, q: reg)
    requires (Goes(b, r) ==> r in b.used) && (Goes(b, q) ==> q in b.used) && (Goes(b, r) && Goes(b, q) ==> r != q)
    ensures |MaybeFree(MaybeFree(b, r), q).used|
         == |b.used| - (if Goes(b, r) then 1 else 0) - (if Goes(b, q) then 1 else 0)
  {
    hide IsSymReg;
  }

  /** Two operands one after the other keep apart. */
  lemma Operands(a: Alloc, x: Lowered, y: Lowered)
    requires AllocOk(a) && LoweredFits(a, x) && LoweredFits(x.a, y)
    ensures AllocOk(y.a) && y.a.syms == a.syms && x.a.syms == a.syms
    ensures Goes(a, x.r) ==> x.r in y.a.used
    ensures Goes(a, y.r) ==> y.r in y.a.used
    ensures Goes(a, x.r) && Goes(a, y.r) ==> x.r != y.r
  {
    hide AllocOk, IsSymReg;
  }

  lemma TwoCounts(a: Alloc, e: Expr, f: Expr, x: Lowered, y: Lowered)
    requires AllocOk(a) && LoweredFits(a, x) && LoweredFits(x.a, y) && Counted(a, e, x) && Counted(x.a, f, y)
    ensures |MaybeFree(MaybeFree(y.a, x.r), y.r).used| == |a.used| + Lost(e) + Lost(f)
    ensures Temp(y.a).Ok? <==> |a.used| + Left(e) + Left(f) + 1 <= 7
    ensures Temp(y.a).Ok? ==>
              var (b, rd) := Temp(y.a).value;
              |MaybeFree(MaybeFree(b, x.r), y.r).used| == |a.used| + Lost(e) + Lost(f) + 1 && Goes(a, rd)
  {
    hide AllocOk, Temp, MaybeFree, IsSymReg, Need, Lost, Temporary, NameRead;
    Operands(a, x, y);
    TempCounts(y.a);
    FreeBoth(y.a, x.r, y.r);
    if Temp(y.a).Ok? {
      TempIs(y.a);
      FreeBoth(Temp(y.a).value.0, x.r, y.r);
    }
  }

  lemma {:induction false} BinIff(a: Alloc, e: Expr)
    requires AllocOk(a) && e.Bin?
    ensures LowerBin(a, e).Ok? <==> Supported(NamesOf(a.syms), e) && |a.used| + Need(e) <= 7
    ensures LowerBin(a, e).Ok? ==> Counted(a, e, LowerBin(a, e).value)
    decreases e, 0
  {
    hide AllocOk, Temp, MaybeFree, IsSymReg, RegSub, ImmSub, Operator, TakesConstant, TryConst, Constant;
    OperatorIs(e.op);
    ConstantIs(e.r);
    LowerIff(a, e.l);
    if TakesConstant(e.op) && Constant(e.r) {
      ConstantSupported(NamesOf(a.syms), e.r);
      assert Operator(e.op) by { ConstantOperators(e.op); }
      if Lower(a, e.l).Ok? { OneCounts(a, e.l); }
    } else if Lower(a, e.l).Ok? {
      var x := Lower(a, e.l).value;
      LowerShape(a, e.l);
      LowerIff(x.a, e.r);
      if Lower(x.a, e.r).Ok? {
        LowerShape(x.a, e.r);
        TwoCounts(a, e.l, e.r, x, Lower(x.a, e.r).value);
      }
    }
  }

  lemma ConstantOperators(op: BinOp)
    ensures TakesConstant(op) ==> Operator(op)
  {
  }

  /** An address: the register of the sum stays in use. */
  lemma {:induction false} AddrIff(a: Alloc, base: Expr, index: Expr)
    requires AllocOk(a)
    ensures LowerAddr(a, base, index).Ok? <==>
              && base.Id? && base.name in a.syms && a.syms[base.name].isPtr && Supported(NamesOf(a.syms), index)
              && (Constant(index) || |a.used| + Max(Need(index), Left(index) + 2) <= 7)
    ensures LowerAddr(a, base, index).Ok? ==>
              |LowerAddr(a, base, index).value.a.used| == |a.used| + if Constant(index) then 0 else Lost(index) + 1
    decreases index, 2
  {
    hide AllocOk, Temp, MaybeFree, Free, IsSymReg, TryConst, Constant;
    ConstantIs(index);
    if Constant(index) {
      ConstantSupported(NamesOf(a.syms), index);
    } else {
      LowerIff(a, index);
      if Lower(a, index).Ok? {
        LowerShape(a, index);
        AddrCounts(a, index, Lower(a, index).value);
      }
    }
  }

  lemma AddrCounts(a: Alloc, index: Expr, x: Lowered)
    requires AllocOk(a) && LoweredFits(a, x) && Counted(a, index, x)
    ensures Temp(x.a).Ok? && Temp(Temp(x.a).value.0).Ok? <==> |a.used| + Left(index) + 2 <= 7
    ensures Temp(x.a).Ok? && Temp(Temp(x.a).value.0).Ok? ==>
              var (a1, scale) := Temp(x.a).value;
              var a2 := Temp(a1).value.0;
              |Free(MaybeFree(a2, x.r), scale).used| == |a.used| + Lost(index) + 1
  {
    hide AllocOk, Temp, MaybeFree, IsSymReg, Need, Lost, Temporary, NameRead;
    TempCounts(x.a);
    if Temp(x.a).Ok? {
      TempIs(x.a);
      var (a1, scale) := Temp(x.a).value;
      TempCounts(a1);
      if Temp(a1).Ok? {
        TempIs(a1);
        var (a2, sum) := Temp(a1).value;
        FreeCounts(a2, x.r);
        assert scale != x.r && scale in MaybeFree(a2, x.r).used by { MaybeFreeHeld(a2, x.r, scale); }
      }
    }
  }

  lemma {:induction false} IndexIff(a: Alloc, base: Expr, index: Expr)
    requires AllocOk(a)
    ensures var (e, l) := (Index(base, index), Lower(a, Index(base, index)));
            && (l.Ok? <==> Supported(NamesOf(a.syms), e) && |a.used| + Need(e) <= 7)
            && (l.Ok? ==> Counted(a, e, l.value))
    decreases index, 3
  {
    hide AllocOk, Temp, MaybeFree, IsSymReg, LowerAddr;
    AddrIff(a, base, index);
    AtMostSevenUsed(a);
    if LowerAddr(a, base, index).Ok? {
      LowerAddrShape(a, base, index);
      var b := LowerAddr(a, base, index).value.a;
      TempCounts(b);
      if Temp(b).Ok? { TempIs(b); }
    }
  }

  /** What a call leaves in use, builtin by builtin. */
  lemma CallLeft(fn: string, args: seq<Expr>)
    ensures Lost(Call(fn, args)) == CallLost(fn, args)
    ensures Temporary(Call(fn, args)) <==> fn == "tiara_andi" || fn == "tiara_cas" || fn == "tiara_caa"
    ensures NameRead(Call(fn, args)) == None
  {
  }

  lemma {:induction false} CallIff(a: Alloc, fn: string, args: seq<Expr>)
    requires AllocOk(a)
    ensures LowerCall(a, fn, args).Ok? <==>
              CallSupported(NamesOf(a.syms), fn, args) && |a.used| + CallNeed(fn, args) <= 7
    ensures LowerCall(a, fn, args).Ok? ==> Counted(a, Call(fn, args), LowerCall(a, fn, args).value)
    decreases args, 2
  {
    hide AllocOk, Temp, MaybeFree, IsSymReg, TryConst, Constant, Lower;
    AtMostSevenUsed(a);
    assert !Goes(a, 0);
    CallLeft(fn, args);
    if fn == "tiara_andi" && |args| == 2 {
      ConstantIs(args[1]);
      LowerIff(a, args[0]);
      if Lower(a, args[0]).Ok? { OneCounts(a, args[0]); }
    } else if fn == "tiara_set_result" && |args| == 2 {
      ConstantIs(args[0]);
      LowerIff(a, args[1]);
      if Lower(a, args[1]).Ok? {
        LowerShape(a, args[1]);
        FreeCounts(Lower(a, args[1]).value.a, Lower(a, args[1]).value.r);
      }
    } else if fn == "tiara_wait" && |args| == 1 {
      ConstantIs(args[0]);
    } else if fn == "tiara_memcpy" && |args| == 4 {
      CopyIff(a, args);
    } else if fn == "tiara_caa" && |args| == 2 {
      AddIff(a, args);
    } else if fn == "tiara_cas" && |args| == 3 {
      SwapIff(a, args);
    }
  }

  lemma {:induction false} CopyIff(a: Alloc, args: seq<Expr>)
    requires AllocOk(a) && |args| == 4
    ensures var (l, fn) := (LowerCall(a, "tiara_memcpy", args), "tiara_memcpy");
            && (l.Ok? <==> CallSupported(NamesOf(a.syms), fn, args) && |a.used| + CallNeed(fn, args) <= 7)
            && (l.Ok? ==> Counted(a, Call(fn, args), l.value))
    decreases args, 1
  {
    hide AllocOk, Temp, MaybeFree, IsSymReg, TryConst, Constant, Lower;
    CallLeft("tiara_memcpy", args);
    ConstantIs(args[2]);
    ConstantIs(args[3]);
    LowerIff(a, args[0]);
    if Lower(a, args[0]).Ok? {
      var x := Lower(a, args[0]).value;
      LowerShape(a, args[0]);
      LowerIff(x.a, args[1]);
      if Lower(x.a, args[1]).Ok? {
        LowerShape(x.a, args[1]);
        TwoCounts(a, args[0], args[1], x, Lower(x.a, args[1]).value);
      }
    }
  }

  lemma {:induction false} AddIff(a: Alloc, args: seq<Expr>)
    requires AllocOk(a) && |args| == 2
    ensures var (l, fn) := (LowerCall(a, "tiara_caa", args), "tiara_caa");
            && (l.Ok? <==> CallSupported(NamesOf(a.syms), fn, args) && |a.used| + CallNeed(fn, args) <= 7)
            && (l.Ok? ==> Counted(a, Call(fn, args), l.value))
    decreases args, 1
  {
    hide AllocOk, Temp, MaybeFree, IsSymReg, TryConst, Constant, Lower;
    CallLeft("tiara_caa", args);
    LowerIff(a, args[0]);
    if Lower(a, args[0]).Ok? {
      var x := Lower(a, args[0]).value;
      LowerShape(a, args[0]);
      LowerIff(x.a, args[1]);
      if Lower(x.a, args[1]).Ok? {
        LowerShape(x.a, args[1]);
        TwoCounts(a, args[0], args[1], x, Lower(x.a, args[1]).value);
      }
    }
  }

  lemma {:induction false} SwapIff(a: Alloc, args: seq<Expr>)
    requires AllocOk(a) && |args| == 3
    ensures var (l, fn) := (LowerCall(a, "tiara_cas", args), "tiara_cas");
            && (l.Ok? <==> CallSupported(NamesOf(a.syms), fn, args) && |a.used| + CallNeed(fn, args) <= 7)
            && (l.Ok? ==> Counted(a, Call(fn, args), l.value))
    decreases args, 1
  {
    hide AllocOk, Temp, MaybeFree, IsSymReg, TryConst, Constant, Lower;
    CallLeft("tiara_cas", args);
    LowerIff(a, args[0]);
    if Lower(a, args[0]).Ok? {
      var x := Lower(a, args[0]).value;
      LowerShape(a, args[0]);
      LowerIff(x.a, args[1]);
      if Lower(x.a, args[1]).Ok? {
        var y := Lower(x.a, args[1]).value;
        LowerShape(x.a, args[1]);
        LowerIff(y.a, args[2]);
        if Lower(y.a, args[2]).Ok? {
          LowerShape(y.a, args[2]);
          ThreeCounts(a, args, x, y, Lower(y.a, args[2]).value);
        }
      }
    }
  }

  lemma ThreeCounts(a: Alloc, args: seq<Expr>, x: Lowered, y: Lowered, z: Lowered)
    requires AllocOk(a) && |args| == 3 && LoweredFits(a, x) && LoweredFits(x.a, y) && LoweredFits(y.a, z)
    requires Counted(a, args[0], x) && Counted(x.a, args[1], y) && Counted(y.a, args[2], z)
    ensures Temp(z.a).Ok? <==> |a.used| + Left(args[0]) + Left(args[1]) + Left(args[2]) + 1 <= 7
    ensures Temp(z.a).Ok? ==>
              var (b, rd) := Temp(z.a).value;
              && |MaybeFree(MaybeFree(MaybeFree(b, x.r), y.r), z.r).used|
              == |a.used| + Lost(args[0]) + Lost(args[1]) + Lost(args[2]) + 1
              && Goes(a, rd)
  {
    hide AllocOk, Temp, MaybeFree, IsSymReg, Need, Lost, Temporary, NameRead;
    Operands(a, x, y);
    Operands(x.a, y, z);
    TempCounts(z.a);
    if Temp(z.a).Ok? {
      TempIs(z.a);
      var b := Temp(z.a).value.0;
      FreeThree(b, x.r, y.r, z.r);
    }
  }

  lemma FreeThree(b: Alloc, r: reg, q: reg, p: reg)
    requires (Goes(b, r) ==> r in b.used) && (Goes(b, q) ==> q in b.used) && (Goes(b, p) ==> p in b.used)
    requires (Goes(b, r) && Goes(b, q) ==> r != q) && (Goes(b, r) && Goes(b, p) ==> r != p)
    requires Goes(b, q) && Goes(b, p) ==> q != p
    ensures |MaybeFree(MaybeFree(MaybeFree(b, r), q), p).used|
         == |b.used| - (if Goes(b, r) then 1 else 0) - (if Goes(b, q) then 1 else 0) - (if Goes(b, p) then 1 else 0)
  {
    hide MaybeFree, IsSymReg;
    FreeBoth(b, r, q);
    if Goes(b, p) {
      StaysUsed(b, r, p);
      StaysUsed(MaybeFree(b, r), q, p);
    }
    FreeCounts(MaybeFree(MaybeFree(b, r), q), p);
  }

  lemma StaysUsed(b: Alloc, r: int, p: int)
    requires p in b.used && p != r
    ensures p in MaybeFree(b, r).used
  {
    hide IsSymReg;
  }
}
