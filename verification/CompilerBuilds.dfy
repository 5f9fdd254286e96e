/**
 * From the source alone: a condition on a function under which it compiles, assembles and, run, does what the source
 * means.
 */
module CompilerBuilds {
  import opened Prelude
  import opened Isa
  import opened Machine
  import opened Assembler
  import opened Ast
  import opened Conversions
  import opened CodeTree
  import opened CodeWords
  import opened Lowering
  import opened Source
  import opened ExprCorrect
  import opened StmtRules
  import opened CompilerCorrect
  import opened CompiledAssembles
  import opened RegisterNeed
  import opened CompilerAccepts

  // ----- how long the code is, and that it can be encoded -----

  predicate Fits(cs: seq<Node>) {
    forall c :: c in cs ==>
      match c
      case Ins(i) => EncodableImm(i.imm)
      case Bad => false
      case Loop(_, _, body) => Fits(body)
      case Skip(_, _, body) => Fits(body)
      case Ret(_) => true
  }

  function Words(cs: seq<Node>): nat
    decreases cs, 0
  {
    if cs == [] then 0 else WordsOne(cs[0]) + Words(cs[1..])
  }

  function WordsOne(c: Node): nat
    decreases c, 0
  {
    match c
    case Ins(i) => Width(i.op)
    case Bad => 0
    case Loop(_, _, body) => 1 + Words(body)
    case Skip(_, _, body) => 1 + Words(body)
    case Ret(_) => 1
  }

  lemma {:induction false} FlatSize(cs: seq<Node>)
    ensures Size(Flatten(cs)) == Words(cs)
    decreases cs, 1
  {
    hide FlattenOne, WordsOne, Size;
    if cs == [] {
      assert Flatten(cs) == [];
      NothingSize();
    } else {
      OneSize(cs[0]);
      FlatSize(cs[1..]);
      SizeAppend(FlattenOne(cs[0]), Flatten(cs[1..]));
    }
  }

  lemma NothingSize()
    ensures Size([]) == 0
  {
  }

  lemma {:induction false} OneSize(c: Node)
    ensures Size(FlattenOne(c)) == WordsOne(c)
    decreases c, 0
  {
    hide Flatten, Words, Size;
    match c
    case Ins(i) => SizeOne(Line.Op(i, None));
    case Bad => SizeOne(Malformed);
    case Loop(r, l, body) => FlatSize(body); BracketSize(Line.Op(Plain(LOOP, r), Some(l)), Flatten(body), l);
    case Skip(r, l, body) => FlatSize(body); BracketSize(Line.Op(Plain(JUMP, r), Some(l)), Flatten(body), l);
    case Ret(r) => SizeOne(Line.Op(Plain(RET, r), None));
  }

  lemma BracketSize(head: Line, body: seq<Line>, l: string)
    requires head.Op? && Width(head.instr.op) == 1
    ensures Size([head] + body + [Label(l)]) == 1 + Size(body)
  {
    hide Size;
    SizeAppend([head] + body, [Label(l)]);
    SizeAppend([head], body);
    SizeOne(head);
    SizeOne(Label(l));
  }

  lemma {:induction false} FlatFits(cs: seq<Node>, line: Line)
    requires Fits(cs) && line in Flatten(cs)
    ensures LineFits(line)
    decreases cs
  {
    var c, rest := cs[0], cs[1..];
    assert c in cs && forall x :: x in rest ==> x in cs;
    if line in Flatten(rest) {
      FlatFits(rest, line);
    } else if (c.Loop? || c.Skip?) && line in Flatten(c.body) {
      FlatFits(c.body, line);
    }
  }

  /** Encodable, and of at most `n` words. */
  predicate Short(cs: seq<Node>, n: nat) { Fits(cs) && Words(cs) <= n }

  lemma {:induction false} WordsAppend(x: seq<Node>, y: seq<Node>)
    ensures Words(x + y) == Words(x) + Words(y)
    decreases |x|
  {
    hide WordsOne;
    if x == [] {
      assert x + y == y;
    } else {
      assert (x + y)[1..] == x[1..] + y;
      WordsAppend(x[1..], y);
    }
  }

  lemma ShortAppend(x: seq<Node>, y: seq<Node>, m: nat, n: nat)
    requires Short(x, m) && Short(y, n)
    ensures Short(x + y, m + n)
  {
    hide Words;
    WordsAppend(x, y);
  }

  lemma ShortIns(i: Instr)
    requires EncodableImm(i.imm)
    ensures Short([Ins(i)], Width(i.op))
  {
    assert [Ins(i)][1..] == [];
  }

  /** Code, then one instruction. */
  lemma ShortThen(x: seq<Node>, m: nat, i: Instr, n: nat)
    requires Short(x, m) && EncodableImm(i.imm) && m + Width(i.op) <= n
    ensures Short(x + [Ins(i)], n)
  {
    hide Short;
    ShortIns(i);
    ShortAppend(x, [Ins(i)], m, Width(i.op));
    ShortMore(x + [Ins(i)], m + Width(i.op), n);
  }

  lemma ShortMore(x: seq<Node>, m: nat, n: nat)
    requires Short(x, m) && m <= n
    ensures Short(x, n)
  {
  }

  lemma ShortNone()
    ensures Short([], 0)
  {
  }

  // ----- the length of what is lowered -----

  /** At most as many words as an expression lowers to. */
  function Length(e: Expr): nat
    decreases e
  {
    match e
    case Const(_) => 1
    case Id(_) => 0
    case Bin(_, l, r) => Length(l) + Length(r) + 1
    case Un(_, inner) => Length(inner) + 1
    case Index(_, index) => Length(index) + 3
    case Call(_, args) => LengthAll(args) + 2
    case Cast(_, inner) => Length(inner)
  }

  function LengthAll(args: seq<Expr>): nat
    decreases args
  {
    if args == [] then 0 else Length(args[0]) + LengthAll(args[1..])
  }

  lemma {:induction false} LowerShort(a: Alloc, e: Expr)
    requires ExprOk(e) && Lower(a, e).Ok?
    ensures Short(Lower(a, e).value.code, Length(e))
    decreases e, 1
  {
    hide Temp, MaybeFree, LowerBin, LowerAddr, LowerCall, Short;
    match e
    case Const(v) => ShortIns(AluImm(LI, Temp(a).value.1, 0, v));
    case Id(_) => ShortNone();
    case Bin(_, _, _) => BinShort(a, e);
    case Un(op, inner) =>
      LowerShort(a, inner);
      var x := Lower(a, inner).value;
      var rd := Temp(x.a).value.1;
      ShortThen(x.code, Length(inner), if op.Negate? then Alu3(SUB, rd, 0, x.r) else Alu3(EQ, rd, x.r, 0), Length(e));
    case Index(base, index) =>
      AddrShort(a, base, index);
      var addr := LowerAddr(a, base, index).value;
      var i := Instr(LOAD, Temp(addr.a).value.1, addr.base, 0, 0, addr.off, None);
      ShortThen(addr.code, Length(index) + 2, i, Length(e));
    case Call(fn, args) => CallShort(a, fn, args);
    case Cast(_, inner) => LowerShort(a, inner);
  }

  lemma {:induction false} BinShort(a: Alloc, e: Expr)
    requires e.Bin? && ExprOk(e) && LowerBin(a, e).Ok?
    ensures Short(LowerBin(a, e).value.code, Length(e))
    decreases e, 0
  {
    hide Temp, MaybeFree, Short, RegSub, ImmSub, Lower, TryConst;
    LowerShort(a, e.l);
    var x := Lower(a, e.l).value;
    if TryConst(e.r).Some? && ImmSub(e.op).Some? {
      ConstFits(e.r);
      var i := AluImm(ImmSub(e.op).value, Temp(x.a).value.1, x.r, TryConst(e.r).value);
      ShortThen(x.code, Length(e.l), i, Length(e));
    } else {
      LowerShort(x.a, e.r);
      var y := Lower(x.a, e.r).value;
      ShortAppend(x.code, y.code, Length(e.l), Length(e.r));
      var i := Alu3(RegSub(e.op).value, Temp(y.a).value.1, x.r, y.r);
      ShortThen(x.code + y.code, Length(e.l) + Length(e.r), i, Length(e));
    }
  }

  lemma {:induction false} AddrShort(a: Alloc, base: Expr, index: Expr)
    requires ExprOk(Index(base, index)) && LowerAddr(a, base, index).Ok?
    ensures Short(LowerAddr(a, base, index).value.code, Length(index) + 2)
    ensures EncodableImm(LowerAddr(a, base, index).value.off)
    decreases index, 2
  {
    hide Temp, MaybeFree, Free, Short, Lower;
    if TryConst(index).Some? {
      ShortNone();
      ShortMore([], 0, Length(index) + 2);
    } else {
      LowerShort(a, index);
      var x := Lower(a, index).value;
      var (a1, scale) := Temp(x.a).value;
      var (sum, s) := (Temp(a1).value.1, a.syms[base.name]);
      var i, j := AluImm(SHLI, scale, x.r, 3), Alu3(ADD, sum, s.reg, scale);
      ShortThen(x.code, Length(index), i, Length(index) + 1);
      ShortThen(x.code + [Ins(i)], Length(index) + 1, j, Length(index) + 2);
      assert x.code + [Ins(i)] + [Ins(j)] == x.code + [Ins(i), Ins(j)];
    }
  }

  lemma ArgsLength(args: seq<Expr>)
    ensures |args| == 1 ==> LengthAll(args) == Length(args[0])
    ensures |args| == 2 ==> LengthAll(args) == Length(args[0]) + Length(args[1])
    ensures |args| == 3 ==> LengthAll(args) == Length(args[0]) + Length(args[1]) + Length(args[2])
    ensures |args| == 4 ==> LengthAll(args) >= Length(args[0]) + Length(args[1])
  {
    hide Length;
    if |args| > 0 { assert LengthAll(args) == Length(args[0]) + LengthAll(args[1..]); }
    if |args| > 1 {
      assert args[1..][1..] == args[2..];
      assert LengthAll(args[1..]) == Length(args[1]) + LengthAll(args[2..]);
    }
    if |args| > 2 {
      assert args[2..][1..] == args[3..];
      assert LengthAll(args[2..]) == Length(args[2]) + LengthAll(args[3..]);
    }
  }

  lemma {:induction false} CallShort(a: Alloc, fn: string, args: seq<Expr>)
    requires ExprOk(Call(fn, args)) && LowerCall(a, fn, args).Ok?
    ensures Short(LowerCall(a, fn, args).value.code, LengthAll(args) + 2)
    decreases args, 2
  {
    hide Temp, MaybeFree, Short, Lower, TryConst, Length, LengthAll;
    ArgsLength(args);
    ArgsOk(fn, args);
    var n := LengthAll(args) + 2;
    if fn == "tiara_wait" {
      ConstFits(args[0]);
      ShortIns(Instr(WAIT, 0, 0, 0, 0, TryConst(args[0]).value, None));
      ShortMore(LowerCall(a, fn, args).value.code, 1, n);
    } else {
      LowerShort(a, args[0]);
      var x := Lower(a, args[0]).value;
      if fn == "tiara_andi" {
        ConstFits(args[1]);
        AndiMask(args);
        ShortThen(x.code, Length(args[0]), AluImm(ANDI, Temp(x.a).value.1, x.r, TryConst(args[1]).value), n);
      } else {
        LowerShort(x.a, args[1]);
        var y := Lower(x.a, args[1]).value;
        ShortAppend(x.code, y.code, Length(args[0]), Length(args[1]));
        TwoShort(a, fn, args, x, y);
      }
    }
  }

  lemma {:induction false} TwoShort(a: Alloc, fn: string, args: seq<Expr>, x: Lowered, y: Lowered)
    requires ExprOk(Call(fn, args)) && LowerCall(a, fn, args).Ok? && fn in {"tiara_memcpy", "tiara_caa", "tiara_cas"}
    requires Lower(a, args[0]) == Ok(x) && Lower(x.a, args[1]) == Ok(y)
    requires Short(x.code + y.code, Length(args[0]) + Length(args[1]))
    ensures Short(LowerCall(a, fn, args).value.code, LengthAll(args) + 2)
    decreases args, 1
  {
    hide Temp, MaybeFree, Short, Lower, TryConst, Length, LengthAll;
    ArgsLength(args);
    ArgsOk(fn, args);
    var (m, n) := (Length(args[0]) + Length(args[1]), LengthAll(args) + 2);
    if fn == "tiara_memcpy" {
      ConstFits(args[2]);
      var sub: reg := if TryConst(args[3]).value != 0 then 1 else 0;
      ShortThen(x.code + y.code, m, Instr(MEMCPY, 0, x.r, y.r, sub, TryConst(args[2]).value, Some(NO_EXTRA)), n);
    } else if fn == "tiara_caa" {
      ShortThen(x.code + y.code, m, Instr(CAA, Temp(y.a).value.1, x.r, y.r, 0, 0, Some(NO_EXTRA)), n);
    } else {
      LowerShort(y.a, args[2]);
      var z := Lower(y.a, args[2]).value;
      ShortAppend(x.code + y.code, z.code, m, Length(args[2]));
      var i := Instr(CAS, Temp(z.a).value.1, x.r, y.r, 0, 0, Some(NO_EXTRA.(rd := z.r)));
      ShortThen(x.code + y.code + z.code, m + Length(args[2]), i, n);
    }
  }

  function StmtLength(s: Stmt): nat
    decreases s, 1
  {
    match s
    case Decl(_, _, init) => if init.Some? then Length(init.value) + 1 else 0
    case Assign(op, lhs, rhs) => (if lhs.Index? then Length(lhs) else 0) + Length(Stored(op, lhs, rhs)) + 1
    case For(_, bound, body) => Length(bound) + BlockLength(body) + 2
    case If(cond, body) => Length(cond) + BlockLength(body) + 4
    case Return(value) => if value.Some? then Length(value.value) + 2 else 1
    case ExprCall(call) => Length(call)
    case IncDec(_, _) => 1
  }

  function BlockLength(ss: seq<Stmt>): nat
    decreases ss, 0
  {
    if ss == [] then 0 else StmtLength(ss[0]) + BlockLength(ss[1..])
  }

  lemma ShortLoop(x: seq<Node>, m: nat, r: reg, end: string, body: seq<Node>, n: nat)
    requires Short(x, m) && Short(body, n)
    ensures Short(x + [Loop(r, end, body)], m + n + 1) && Short(x + [Skip(r, end, body)], m + n + 1)
  {
    WordsAppend(x, [Loop(r, end, body)]);
    WordsAppend(x, [Skip(r, end, body)]);
    assert [Loop(r, end, body)][1..] == [] && [Skip(r, end, body)][1..] == [];
  }

  lemma CondShort(a: Alloc, e: Expr)
    requires ExprOk(e) && LowerCondNegated(a, e).Ok?
    ensures Short(LowerCondNegated(a, e).value.code, Length(e) + 3)
  {
    hide Temp, MaybeFree, Short, Lower;
    if e.Bin? && e.op.Equal? {
      LowerShort(a, e.l);
      var x := Lower(a, e.l).value;
      LowerShort(x.a, e.r);
      var y := Lower(x.a, e.r).value;
      var (a1, rd) := Temp(y.a).value;
      var tmp := Temp(a1).value.1;
      var (i, j, k) := (Alu3(EQ, rd, x.r, y.r), AluImm(LI, tmp, 0, 1), Alu3(XOR, rd, rd, tmp));
      var (xy, m) := (x.code + y.code, Length(e.l) + Length(e.r));
      ShortAppend(x.code, y.code, Length(e.l), Length(e.r));
      ShortThen(xy, m, i, m + 1);
      ShortThen(xy + [Ins(i)], m + 1, j, m + 2);
      ShortThen(xy + [Ins(i)] + [Ins(j)], m + 2, k, Length(e) + 3);
      assert xy + [Ins(i)] + [Ins(j)] + [Ins(k)] == xy + [Ins(i), Ins(j), Ins(k)];
    } else {
      LowerShort(a, e);
      var x := Lower(a, e).value;
      ShortThen(x.code, Length(e), Alu3(EQ, Temp(x.a).value.1, x.r, 0), Length(e) + 3);
    }
  }

  lemma AssignShort(a: Alloc, c: Ctx, s: Stmt)
    requires s.Assign? && StmtOk(a, c, s) && LowerStmt(a, s).Ok?
    ensures Short(LowerStmt(a, s).value.1, StmtLength(s))
  {
    hide Temp, MaybeFree, Short, Lower, LowerAddr, Reads, NamesOk, ExprOk, Stored;
    var value := Stored(s.aop, s.lhs, s.rhs);
    StoredIs(a, s);
    assert ExprOk(value) by { StoredOk(a, c, s); }
    if s.lhs.Id? {
      LowerShort(a, value);
      var x := Lower(a, value).value;
      ShortThen(x.code, Length(value), AluImm(ADDI, a.syms[s.lhs.name].reg, x.r, 0), StmtLength(s));
    } else {
      AddrShort(a, s.lhs.base, s.lhs.index);
      var addr := LowerAddr(a, s.lhs.base, s.lhs.index).value;
      LowerShort(addr.a, value);
      var x := Lower(addr.a, value).value;
      ShortAppend(addr.code, x.code, Length(s.lhs.index) + 2, Length(value));
      ShortThen(addr.code + x.code, Length(s.lhs.index) + 2 + Length(value),
                Instr(STORE, 0, addr.base, x.r, 0, addr.off, None), StmtLength(s));
    }
  }

  lemma StoredOk(a: Alloc, c: Ctx, s: Stmt)
    requires s.Assign? && StmtOk(a, c, s)
    ensures ExprOk(Stored(s.aop, s.lhs, s.rhs)) && (s.lhs.Index? ==> ExprOk(s.lhs))
  {
    hide ExprOk, NamesOk;
  }

  lemma SimpleShort(a: Alloc, c: Ctx, s: Stmt)
    requires (s.Decl? || s.Return? || s.ExprCall? || s.IncDec?) && StmtOk(a, c, s) && LowerStmt(a, s).Ok?
    ensures Short(LowerStmt(a, s).value.1, StmtLength(s))
  {
    hide Temp, MaybeFree, AddLocal, Short, Lower, LowerCall, Reads, NamesOk, ExprOk;
    match s
    case Decl(name, _, init) =>
      ShortNone();
      if init.Some? {
        var (a1, r) := AddLocal(a, name).value;
        LowerShort(a1, init.value);
        var x := Lower(a1, init.value).value;
        ShortThen(x.code, Length(init.value), AluImm(ADDI, r, x.r, 0), StmtLength(s));
      }
    case Return(value) => ReturnShort(a, s);
    case ExprCall(call) => CallStmtShort(a, c, s);
    case IncDec(target, delta) =>
      ShortIns(AluImm(ADDI, a.syms[target].reg, a.syms[target].reg, delta));
  }

  lemma ShortRet(r: reg)
    ensures Short([Ret(r)], 1)
  {
    assert [Ret(r)][1..] == [];
  }

  lemma ReturnShort(a: Alloc, s: Stmt)
    requires s.Return? && (s.value.Some? ==> ExprOk(s.value.value)) && LowerStmt(a, s).Ok?
    ensures Short(LowerStmt(a, s).value.1, StmtLength(s))
  {
    hide Short, Lower, MaybeFree, ExprOk;
    if s.value.None? {
      ShortRet(0);
    } else {
      var (e, x) := (s.value.value, Lower(a, s.value.value).value);
      LowerShort(a, e);
      ShortRet(1);
      ShortThen(x.code, Length(e), AluImm(ADDI, 1, x.r, 0), Length(e) + 1);
      ShortMore(x.code, Length(e), Length(e) + 1);
      assert x.code + [] == x.code;
      ShortAppend(x.code + (if x.r != 1 then [Move(1, x.r)] else []), [Ret(1)], Length(e) + 1, 1);
    }
  }

  lemma CallStmtShort(a: Alloc, c: Ctx, s: Stmt)
    requires s.ExprCall? && StmtOk(a, c, s) && LowerStmt(a, s).Ok?
    ensures Short(LowerStmt(a, s).value.1, StmtLength(s))
  {
    hide Short, Lower, MaybeFree, Reads, NamesOk;
    var (fn, args) := (s.call.fn, s.call.args);
    if fn == "tiara_set_result" {
      var x := Lower(a, args[1]).value;
      LowerShort(a, args[1]);
      ArgsLength(args);
      ShortThen(x.code, Length(args[1]), AluImm(ADDI, TryConst(args[0]).value, x.r, 0), LengthAll(args) + 2);
    } else {
      CallShort(a, fn, args);
    }
  }

  lemma {:induction false} StmtShort(a: Alloc, c: Ctx, s: Stmt)
    requires StmtOk(a, c, s) && LowerStmt(a, s).Ok?
    ensures Short(LowerStmt(a, s).value.1, StmtLength(s))
    decreases s, 1
  {
    hide Short, LowerStmt, StmtOk;
    match s
    case Assign(_, _, _) => AssignShort(a, c, s);
    case For(_, _, _) => ForShort(a, c, s);
    case If(_, _) => IfShort(a, c, s);
    case _ => SimpleShort(a, c, s);
  }

  lemma {:induction false} ForShort(a: Alloc, c: Ctx, s: Stmt)
    requires s.For? && StmtOk(a, c, s) && LowerStmt(a, s).Ok?
    ensures Short(LowerStmt(a, s).value.1, StmtLength(s))
    decreases s, 0
  {
    hide Short, Lower, LowerBlock, MaybeFree, Free, AddLocal, NamesOk, ExprOk, Reads, BlockOk, BlockLength, LabelName;
    var (a1, r) := AddLocal(a, s.ind).value;
    var n := Lower(a1, s.bound).value;
    var (a2, end) := Fresh(n.a, "for_end");
    var body := LowerBlock(a2, s.body).value.1;
    LowerShort(a1, s.bound);
    BlockShort(a2, LoopCtx(c, s.ind, r), s.body);
    ShortThen(body, BlockLength(s.body), AluImm(ADDI, r, r, 1), BlockLength(s.body) + 1);
    ShortLoop(n.code, Length(s.bound), n.r, end, body + [Ins(AluImm(ADDI, r, r, 1))], BlockLength(s.body) + 1);
  }

  lemma {:induction false} IfShort(a: Alloc, c: Ctx, s: Stmt)
    requires s.If? && StmtOk(a, c, s) && LowerStmt(a, s).Ok?
    ensures Short(LowerStmt(a, s).value.1, StmtLength(s))
    decreases s, 0
  {
    hide Short, LowerCondNegated, LowerBlock, MaybeFree, NamesOk, ExprOk, Reads, BlockOk, BlockLength, LabelName,
         Length;
    if s.cond.Const? && s.cond.v != 0 {
      BlockShort(a, c, s.body);
      ShortMore(LowerBlock(a, s.body).value.1, BlockLength(s.body), StmtLength(s));
    } else {
      CondShort(a, s.cond);
      var x := LowerCondNegated(a, s.cond).value;
      var (a1, skip) := Fresh(x.a, "if_skip");
      var b := MaybeFree(a1, x.r);
      BlockShort(b, c.(dirty := c.dirty + Written(x.code)), s.body);
      ShortLoop(x.code, Length(s.cond) + 3, x.r, skip, LowerBlock(b, s.body).value.1, BlockLength(s.body));
    }
  }

  lemma {:induction false} BlockShort(a: Alloc, c: Ctx, ss: seq<Stmt>)
    requires BlockOk(a, c, ss) && LowerBlock(a, ss).Ok?
    ensures Short(LowerBlock(a, ss).value.1, BlockLength(ss))
    decreases ss, 0
  {
    hide Short, LowerStmt, StmtOk, StmtLength, CtxAfter;
    if ss == [] {
      ShortNone();
    } else {
      var (a1, code) := LowerStmt(a, ss[0]).value;
      StmtShort(a, c, ss[0]);
      BlockShort(a1, CtxAfter(c, ss[0], code), ss[1..]);
      ShortAppend(code, LowerBlock(a1, ss[1..]).value.1, StmtLength(ss[0]), BlockLength(ss[1..]));
    }
  }

  /** What the compiler's theorem covers is assembled exactly when it fits the instruction store. */
  lemma CoveredAssembles(fn: FuncDef)
    requires FuncOk(fn) && Compile(fn).Ok?
    ensures Assemble(Compile(fn).value).Ok? <==> Size(Compile(fn).value) <= 1024
    ensures Size(Compile(fn).value) <= BlockLength(fn.body) + 1
  {
    hide Short, LowerBlock, BlockOk, Flatten, Size, Assemble, LineFits, ExplicitBody, BlockLength, Words, Fits;
    var a := AddArgs(fn.params).value;
    var code := LowerBlock(a, fn.body).value.1;
    BlockShort(a, Entry(fn.params), fn.body);
    ShortMore(code, BlockLength(fn.body), BlockLength(fn.body) + 1);
    ShortRet(0);
    ShortAppend(code, [Ret(0)], BlockLength(fn.body), 1);
    var cs := LowerFunction(fn).value;
    ShortIs(cs, BlockLength(fn.body) + 1);
    FlatSize(cs);
    var lines := Flatten(cs);
    forall k | 0 <= k < |lines| ensures LineFits(lines[k]) { FlatFits(cs, lines[k]); }
    CompiledAssemblesIff(fn);
  }

  lemma ShortIs(cs: seq<Node>, n: nat)
    requires Short(cs, n)
    ensures Fits(cs) && Words(cs) <= n
  {
  }

  // ----- what the theorem covers, read off the source -----

  /**
   * The statements of `StmtOk`, without the allocator: names are well used, no induction variable is read, constants
   * fit, `<<=` and `>>=` do not occur, and the index of a compound assignment's target is quiet.
   */
  predicate Plainly(scope: set<string>, readable: set<string>, s: Stmt)
    decreases s, 1
  {
    NamesOk(scope, s) &&
    match s
    case Decl(_, _, init) => init.Some? ==> ExprFine(init.value, readable)
    case Assign(op, lhs, rhs) =>
      && !op.ShlSet? && !op.ShrSet? && ExprFine(Stored(op, lhs, rhs), readable)
      && (lhs.Index? ==> ExprFine(lhs, readable) && (op.Set? || Quiet(lhs.index)))
    case For(ind, bound, body) =>
      ExprFine(bound, readable - {ind}) && BlockPlainly(scope + {ind}, readable - {ind}, body)
    case If(cond, body) => ExprFine(cond, readable) && BlockPlainly(scope, readable, body)
    case Return(value) => value.Some? ==> ExprFine(value.value, readable)
    case ExprCall(call) =>
      call.Call? && (if call.fn == "tiara_set_result" && |call.args| == 2 then ExprFine(call.args[1], readable)
                     else ExprFine(call, readable))
    case IncDec(target, delta) => target in readable && SignedImm(delta)
  }

  predicate BlockPlainly(scope: set<string>, readable: set<string>, ss: seq<Stmt>)
    decreases ss, 0
  {
    ss == []
    || (Plainly(scope, readable, ss[0])
        && BlockPlainly(ScopeAfter(scope, ss[0]), if ss[0].Decl? then readable + {ss[0].name} else readable, ss[1..]))
  }

  /** Under C's scopes no name is bound again while a loop counts to it. */
  lemma {:induction false} NamesStay(scope: set<string>, s: Stmt)
    requires NamesOk(scope, s)
    ensures BoundsStay(s) && Binds(s) !! scope
    decreases s, 1
  {
    hide Reads;
    match s
    case For(ind, bound, body) =>
      BlockNamesStay(scope + {ind}, body);
      NameReadIs(bound);
    case If(_, body) => BlockNamesStay(scope, body);
    case _ =>
  }

  lemma NameReadIs(e: Expr)
    ensures NameRead(e).Some? ==> NameRead(e).value in Reads(e)
  {
  }

  lemma {:induction false} BlockNamesStay(scope: set<string>, ss: seq<Stmt>)
    requires BlockNamesOk(scope, ss)
    ensures AllBoundsStay(ss) && BindsAll(ss) !! scope
    decreases ss, 0
  {
    hide NamesOk, BoundsStay, Binds;
    if ss != [] {
      NamesStay(scope, ss[0]);
      BlockNamesStay(ScopeAfter(scope, ss[0]), ss[1..]);
    }
  }

  /** The context reads at least those names, and stale names are in scope. */
  predicate Reaches(c: Ctx, scope: set<string>, readable: set<string>) {
    c.scope == scope && c.stale <= scope && readable <= c.Readable()
  }

  lemma FineMore(e: Expr, names: set<string>, more: set<string>)
    requires ExprFine(e, names) && names <= more
    ensures ExprFine(e, more)
  {
  }

  lemma {:induction false} PlainIsOk(a: Alloc, c: Ctx, s: Stmt, readable: set<string>)
    requires AllocOk(a) && Reaches(c, c.scope, readable) && Plainly(c.scope, readable, s)
    requires StmtSupported(NamesOf(a.syms), s) && |a.used| + StmtNeed(s) <= 7
    ensures StmtOk(a, c, s)
    decreases s, 1
  {
    hide AllocOk, NamesOk, ExprFine, Supported, Need, Lower, AddLocal, BlockOk, BlockPlainly, LowerCondNegated,
         CondNeed;
    var more := c.Readable();
    match s
    case Decl(_, _, init) =>
      if init.Some? { FineMore(init.value, readable, more); }
    case Assign(op, lhs, rhs) =>
      FineMore(Stored(op, lhs, rhs), readable, more);
      if lhs.Index? { FineMore(lhs, readable, more); }
    case For(_, _, _) => ForIsOk(a, c, s, readable);
    case If(_, _) => IfIsOk(a, c, s, readable);
    case Return(value) =>
      if value.Some? { FineMore(value.value, readable, more); }
    case ExprCall(call) =>
      if call.fn == "tiara_set_result" && |call.args| == 2 { FineMore(call.args[1], readable, more); }
      else { FineMore(call, readable, more); }
    case IncDec(_, _) =>
  }

  lemma {:induction false} ForIsOk(a: Alloc, c: Ctx, s: Stmt, readable: set<string>)
    requires s.For? && AllocOk(a) && Reaches(c, c.scope, readable) && Plainly(c.scope, readable, s)
    requires StmtSupported(NamesOf(a.syms), s) && |a.used| + StmtNeed(s) <= 7
    ensures StmtOk(a, c, s)
    decreases s, 0
  {
    hide AllocOk, NamesOk, ExprFine, Supported, BlockSupported, BlockNeed, Need, Lost, Lower, AddLocal, BlockOk,
         BlockPlainly, LabelName, Moves;
    LocalCounts(a, s.ind);
    var (a1, r) := AddLocal(a, s.ind).value;
    MovesOk(a, a1, {s.ind});
    LowerIff(a1, s.bound);
    LowerShape(a1, s.bound);
    var n := Lower(a1, s.bound).value;
    var a2 := Fresh(n.a, "for_end").0;
    assert AllocOk(a2) by { FreshOk(n.a); }
    var c1 := LoopCtx(c, s.ind, r);
    assert s.ind !in c.scope by { IndNew(c.scope, s); }
    FineMore(s.bound, readable - {s.ind}, c1.Readable());
    BlockIsOk(a2, c1, s.body, readable - {s.ind});
  }

  lemma IndNew(scope: set<string>, s: Stmt)
    requires s.For? && NamesOk(scope, s)
    ensures s.ind !in scope
  {
  }

  lemma {:induction false} IfIsOk(a: Alloc, c: Ctx, s: Stmt, readable: set<string>)
    requires s.If? && AllocOk(a) && Reaches(c, c.scope, readable) && Plainly(c.scope, readable, s)
    requires StmtSupported(NamesOf(a.syms), s) && |a.used| + StmtNeed(s) <= 7
    ensures StmtOk(a, c, s)
    decreases s, 0
  {
    hide AllocOk, NamesOk, ExprFine, Supported, BlockSupported, BlockNeed, LowerCondNegated, CondNeed, CondLost,
         BlockOk, BlockPlainly, LabelName, Moves, MaybeFree;
    FineMore(s.cond, readable, c.Readable());
    if Untested(s.cond) {
      BlockIsOk(a, c, s.body, readable);
    } else {
      CondIff(a, s.cond);
      CondShape(a, s.cond);
      var x := LowerCondNegated(a, s.cond).value;
      TestedCounts(a, s.cond, x);
      var c1 := c.(dirty := c.dirty + Written(x.code));
      assert c1.Readable() == c.Readable();
      BlockIsOk(MaybeFree(Fresh(x.a, "if_skip").0, x.r), c1, s.body, readable);
    }
  }

  lemma {:induction false} BlockIsOk(a: Alloc, c: Ctx, ss: seq<Stmt>, readable: set<string>)
    requires AllocOk(a) && Reaches(c, c.scope, readable) && BlockPlainly(c.scope, readable, ss)
    requires BlockSupported(NamesOf(a.syms), ss) && |a.used| + BlockNeed(ss) <= 7
    ensures BlockOk(a, c, ss)
    decreases ss, 0
  {
    hide AllocOk, StmtOk, LowerStmt, StmtSupported, StmtNeed, StmtLost, Plainly, BoundAfter, Moves, Binds, Written;
    if ss != [] {
      var s := ss[0];
      PlainIsOk(a, c, s, readable);
      PlainNames(c.scope, readable, s);
      NamesStay(c.scope, s);
      StmtIff(a, s);
      var (a1, code) := LowerStmt(a, s).value;
      MovesOk(a, a1, Binds(s));
      assert s.Decl? ==> s.name !in c.scope by { if s.Decl? { DeclaredFresh(c.scope, s); } }
      BlockIsOk(a1, CtxAfter(c, s, code), ss[1..], if s.Decl? then readable + {s.name} else readable);
    }
  }

  lemma PlainNames(scope: set<string>, readable: set<string>, s: Stmt)
    requires Plainly(scope, readable, s)
    ensures NamesOk(scope, s)
  {
  }

  lemma DeclaredFresh(scope: set<string>, s: Stmt)
    requires s.Decl? && NamesOk(scope, s)
    ensures s.name !in scope
  {
  }

  lemma {:induction false} PlainBlockNames(scope: set<string>, readable: set<string>, ss: seq<Stmt>)
    requires BlockPlainly(scope, readable, ss)
    ensures BlockNamesOk(scope, ss)
    decreases ss
  {
    hide Plainly, NamesOk;
    if ss != [] {
      PlainNames(scope, readable, ss[0]);
      PlainBlockNames(
        ScopeAfter(scope, ss[0]), if ss[0].Decl? then readable + {ss[0].name} else readable, ss[1..]);
    }
  }

  // ----- from the source to the run -----

  /** The functions that are built and mean what they say: everything about them is on the source. */
  predicate Covered(fn: FuncDef) {
    && ExplicitBody(fn) == Ok(fn.body) && |fn.params| <= 8
    && BlockPlainly(ParamNames(fn.params), ParamNames(fn.params), fn.body)
    && BlockSupported(ParamsBound(fn.params), fn.body)
    && BlockNeed(fn.body) <= 7 && BlockLength(fn.body) <= 1023
  }

  /** They compile, assemble, and are among those the compiler's theorem is about. */
  lemma CoveredBuilds(fn: FuncDef)
    requires Covered(fn)
    ensures FuncOk(fn) && Compile(fn).Ok? && Assemble(Compile(fn).value).Ok?
  {
    hide AddArgs, BlockOk, BlockPlainly, BlockSupported, BlockNeed, BlockLength, ExplicitBody, Assemble,
         Lowering.Compile, AllBoundsStay, Size;
    PlainBlockNames(ParamNames(fn.params), ParamNames(fn.params), fn.body);
    BlockNamesStay(ParamNames(fn.params), fn.body);
    CompilesIff(fn);
    ArgsIff(fn.params);
    ArgsFresh(fn.params);
    BlockIsOk(AddArgs(fn.params).value, Entry(fn.params), fn.body, ParamNames(fn.params));
    CoveredAssembles(fn);
  }

  /**
   * The chain from the source: compiled, assembled and run with any arguments on any memory, a covered function ends
   * with the memory and the results its source means, wherever the source means something.
   */
  lemma CoveredMatchesSource(fn: FuncDef, args: seq<int>, mem: Mem) returns (n: nat)
    requires Covered(fn) && RunSource(fn, args, mem).Ok?
    ensures Compile(fn).Ok? && Assemble(Compile(fn).value).Ok?
    ensures var env := RunSource(fn, args, mem).value;
            var s := Run(Assemble(Compile(fn).value).value.words, Reset(args, mem), n);
            && s.status == Returned && s.d.mem == env.mem && |s.d.result| == 4
            && forall k :: k in env.out ==> 1 <= k <= 4 && s.d.result[k - 1] == env.out[k]
  {
    hide Covered, FuncOk, RunSource, Lowering.Compile, Assemble, Run, Reset;
    CoveredBuilds(fn);
    n := CompiledMatchesSource(fn, args, mem);
  }
}
