/**
 * Straight-line sources whose C meaning the compiler loses: it drops the types of pointers and casts, evaluates the
 * target of a compound assignment twice, keeps parameters and results in the same registers, cuts negative masks to 40
 * bits, and forgets a variable hidden by an inner one.  Each breaks one condition of the theorem.
 */
module CompilerDepartures {
  import opened Prelude
  import opened Isa
  import opened Machine
  import opened Assembler
  import opened Ast
  import opened Conversions
  import opened CodeTree
  import opened CodeWords
  import opened Lowering
  import opened Source
  import opened CMeaning
  import opened CSource
  import opened ExprCorrect
  import opened StmtRules
  import opened StmtCorrect
  import opened CompilerCorrect
  import opened CompiledAssembles
  import opened CompilerLimits

  // ----- straight-line functions -----

  function InstrNodes(code: seq<Instr>): (cs: seq<Node>)
    ensures |cs| == |code| && forall i :: 0 <= i < |cs| ==> cs[i] == Ins(code[i])
  {
    seq(|code|, i requires 0 <= i < |code| => Ins(code[i]))
  }

  lemma {:induction false} NodesFit(code: seq<Instr>)
    requires forall i :: 0 <= i < |code| ==> EncodableImm(code[i].imm)
    ensures var lines := Flatten(InstrNodes(code));
            Size(lines) <= 2 * |code| && forall i :: 0 <= i < |lines| ==> LineFits(lines[i])
  {
    hide Size, Flatten;
    if code == [] {
      assert InstrNodes(code) == [];
      NoSize();
    } else {
      var init, last := code[..|code| - 1], code[|code| - 1];
      NodesFit(init);
      assert InstrNodes(code) == InstrNodes(init) + [Ins(last)];
      FlattenAppend(InstrNodes(init), [Ins(last)]);
      FlattenIns(last);
      SizeAppend(Flatten(InstrNodes(init)), [Line.Op(last, None)]);
      SizeOne(Line.Op(last, None));
    }
  }

  /** A function lowered to a few encodable instructions and a RET assembles, and runs as its tree does. */
  lemma StraightRuns(fn: FuncDef, code: seq<Instr>, r: reg, args: seq<int>, mem: Mem) returns (n: nat)
    requires LowerFunction(fn) == Ok(InstrNodes(code) + [Ret(r)]) && |code| <= 100
    requires forall i :: 0 <= i < |code| ==> EncodableImm(code[i].imm)
    ensures Compile(fn).Ok? && Assemble(Compile(fn).value).Ok?
    ensures var s := Run(Assemble(Compile(fn).value).value.words, Reset(args, mem), n);
            s.status == Returned && s.d == Exec(InstrNodes(code) + [Ret(r)], Reset(args, mem).d).d
  {
    hide Assemble, LowerFunction, Flatten, Run, Size, LineFits, Reset, Exec;
    NodesFit(code);
    FlattenAppend(InstrNodes(code), [Ret(r)]);
    FlattenRet(r);
    SizeAppend(Flatten(InstrNodes(code)), [Line.Op(Plain(RET, r), None)]);
    SizeOne(Line.Op(Plain(RET, r), None));
    RetLineFits(r);
    CompiledAssemblesIff(fn);
    var s0 := Reset(args, mem);
    assert s0 == State(s0.d, 0, [], Running) by { ResetShape(args, mem); }
    n := CompiledHalts(fn, s0.d);
  }

  lemma RetResult(cs: seq<Node>, r: reg, d: Data)
    requires !Exec(cs, d).returned
    ensures var ran := Exec(cs + [Ret(r)], d);
            ran.returned && ran.d.result == Exec(cs, d).d.regs[1..5] && ran.d.mem == Exec(cs, d).d.mem
  {
    hide Exec, Ctrl;
    ExecAppend(cs, [Ret(r)], d);
    ExecSingle(Ret(r), Exec(cs, d).d);
    CtrlKeeps(RET, r, Exec(cs, d).d);
  }

  lemma AfterMove(code: seq<Node>, rd: reg, rs: reg, d: Data)
    requires rd != 0 && !Exec(code, d).returned
    ensures var r, d1 := Exec(code + [Move(rd, rs)], d), Exec(code, d).d;
            !r.returned && r.d.regs == d1.regs[rd := d1.regs[rs]]
  {
    hide Exec, ExecOne;
    var d1 := Exec(code, d).d;
    ExecSeq(code, [Move(rd, rs)], d);
    ExecSingle(Move(rd, rs), d1);
    MoveIs(rd, rs, d1);
  }

  /** Two moves and a RET. */
  lemma TwoMoves(rd: reg, rs: reg, rd1: reg, rs1: reg, r: reg, d: Data)
    requires rd != 0 && rd1 != 0
    ensures var (ran, regs) := (Exec([Move(rd, rs), Move(rd1, rs1)] + [Ret(r)], d), d.regs[rd := d.regs[rs]]);
            ran.d.result == regs[rd1 := regs[rs1]][1..5]
  {
    hide Exec, ExecOne;
    NoCode(d);
    AfterMove([], rd, rs, d);
    AfterMove([] + [Move(rd, rs)], rd1, rs1, d);
    assert [] + [Move(rd, rs)] + [Move(rd1, rs1)] == [Move(rd, rs), Move(rd1, rs1)];
    RetResult([Move(rd, rs), Move(rd1, rs1)], r, d);
  }

  lemma NoCode(d: Data)
    ensures Exec([], d) == Ran(d, false)
  {
  }

  lemma OneParam(name: string, ty: CType, v: u64)
    ensures AddArgs([Param(name, ty)]) == Ok(Alloc(map[name := Sym(1, ty.stars > 0)], {}, 0))
    ensures Bind([Param(name, ty)], [v]) == map[name := v]
    ensures KindOf(ty).Ok? ==> ParamKinds([Param(name, ty)]) == Ok(map[name := KindOf(ty).value])
    ensures SlotOf([Param(name, ty)], name) == 1
  {
    hide KindOf;
    assert [Param(name, ty)][..0] == [];
    assert AddArgs([]) == Ok(Alloc(map[], {}, 0)) && Bind([], [v]) == map[] && ParamKinds([]) == Ok(map[]);
  }

  /** An expression already in r1 is returned without a move. */
  lemma ReturnsR1(a: Alloc, e: Expr)
    requires Lower(a, e) == Ok(Lowered(a, [], 1))
    ensures LowerStmt(a, Return(Some(e))) == Ok((a, [Ret(1)]))
  {
    hide Lower;
    assert MaybeFree(a, 1) == a;
    assert [] + [] + [Ret(1)] == [Ret(1)];
  }

  /** A body that ends in a RET is the whole function. */
  lemma WholeFunction(fn: FuncDef, code: seq<Node>, r: reg)
    requires AddArgs(fn.params).Ok? && LowerBlock(AddArgs(fn.params).value, fn.body).Ok?
    requires LowerBlock(AddArgs(fn.params).value, fn.body).value.1 == code + [Ret(r)]
    ensures LowerFunction(fn) == Ok(code + [Ret(r)])
  {
    hide LowerBlock, Flatten;
    FlattenAppend(code, [Ret(r)]);
    FlattenRet(r);
  }

  /** A function whose explicit body is one statement. */
  lemma SingleStatement(fn: FuncDef, s: Stmt, args: seq<int>, mem: Mem)
    requires ExplicitBody(fn) == Ok([s])
    ensures var r := ExecStmt(fn.params, s, Env(Bind(fn.params, args), mem, map[]));
            r.Ok? ==> RunSource(fn, args, mem) == Ok(r.value.env)
  {
    hide ExecStmt, ExplicitBody, Bind;
    assert [s][1..] == [];
    assert forall env :: ExecBlock(fn.params, [], env) == Ok(Done(env, false));
  }

  // ----- a pointer step -----

  /** f(uint64_t *p) { p++; return p; } */
  const STEPS := FuncDef([Param("p", UINT64_PTR)], [IncDec("p", 1), Return(Some(Id("p")))])

  const STEP1: Instr := AluImm(ADDI, 1, 1, 1)

  lemma StepsLower()
    ensures LowerFunction(STEPS) == Ok(InstrNodes([STEP1]) + [Ret(1)])
  {
    hide LowerBlock, LowerStmt, Flatten;
    OneParam("p", UINT64_PTR, 0);
    var a := Alloc(map["p" := Sym(1, true)], {}, 0);
    assert LowerStmt(a, STEPS.body[0]) == Ok((a, [Ins(STEP1)])) by { IncLowers(a); }
    ReturnsR1(a, Id("p"));
    BlockSingle(a, STEPS.body[1]);
    BlockCons(a, STEPS.body[0], [STEPS.body[1]]);
    assert [STEPS.body[0]] + [STEPS.body[1]] == STEPS.body;
    assert InstrNodes([STEP1]) == [Ins(STEP1)];
    WholeFunction(STEPS, [Ins(STEP1)], 1);
  }

  lemma IncLowers(a: Alloc)
    requires "p" in a.syms && a.syms["p"].reg == 1
    ensures LowerStmt(a, IncDec("p", 1)) == Ok((a, [Ins(STEP1)]))
  {
  }

  lemma StepsMean(v: u64, mem: Mem)
    ensures RunSource(STEPS, [v], mem).Ok? && RunSource(STEPS, [v], mem).value.out == map[1 := Mask64(v + 8)]
  {
    hide ExplicitBody, ExplicitStmt;
    OneParam("p", UINT64_PTR, v);
    var ks: Kinds := map["p" := Pointer(UINT64)];
    var body := [IncDec("p", 8), STEPS.body[1]];
    assert KindOf(UINT64_PTR) == Ok(Pointer(UINT64));
    assert ExplicitBody(STEPS) == Ok(body) by { StepsExplicit(ks); }
    var env := Env(map["p" := v], mem, map[]);
    var env1 := Env(map["p" := Mask64(v + 8)], mem, map[]);
    assert env.vars["p" := Mask64(v + 8)] == env1.vars;
    assert ExecStmt(STEPS.params, body[0], env) == Ok(Done(env1, false));
    assert body[1..] == [body[1]] && body[1..][1..] == [];
    assert ExecStmt(STEPS.params, body[1], env1).value.env.out == map[1 := Mask64(v + 8)];
    assert ExecBlock(STEPS.params, [body[1]], env1) == ExecStmt(STEPS.params, body[1], env1);
    assert Bind(STEPS.params, [v]) == env.vars;
  }

  lemma StepsExplicit(ks: Kinds)
    requires ks == map["p" := Pointer(UINT64)] && ParamKinds(STEPS.params) == Ok(ks)
    ensures ExplicitBody(STEPS) == Ok([IncDec("p", 8), STEPS.body[1]])
  {
    assert UINT64.names[0] == "uint64_t";
    assert ExplicitStmt(ks, STEPS.body[0]) == Ok((IncDec("p", 8), ks));
    assert ExplicitStmt(ks, STEPS.body[1]) == Ok((STEPS.body[1], ks));
    NoConversion(ks, ks, STEPS.body[1], []);
    assert [STEPS.body[1]] + [] == [STEPS.body[1]] == STEPS.body[1..];
    assert ExplicitBlock(ks, STEPS.body) == Ok([IncDec("p", 8)] + [STEPS.body[1]]);
    assert [IncDec("p", 8)] + [STEPS.body[1]] == [IncDec("p", 8), STEPS.body[1]];
    BodyExplicit(STEPS, ks);
  }

  /** For every pointer p, `p++` should step to the next element, 8 bytes on, and steps 1 byte. */
  lemma PointerStepsOneByte(v: u64, mem: Mem) returns (n: nat)
    ensures RunSource(STEPS, [v], mem).Ok? && RunSource(STEPS, [v], mem).value.out == map[1 := Mask64(v + 8)]
    ensures Compile(STEPS).Ok? && Assemble(Compile(STEPS).value).Ok?
    ensures var s := Run(Assemble(Compile(STEPS).value).value.words, Reset([v], mem), n);
            s.status == Returned && |s.d.result| == 4 && s.d.result[0] == Mask64(v + 1)
  {
    hide Assemble, Lowering.Compile, LowerFunction, RunSource, Run, Exec, Reset;
    StepsMean(v, mem);
    StepsLower();
    n := StraightRuns(STEPS, [STEP1], 1, [v], mem);
    StepRuns(Reset([v], mem).d);
    assert Reset([v], mem).d.regs[1] == v by { OneArg(v, mem); }
  }

  lemma OneArg(v: u64, mem: Mem)
    ensures Reset([v], mem).d.regs[1] == v
  {
  }

  lemma StepRuns(d: Data)
    ensures Exec(InstrNodes([STEP1]) + [Ret(1)], d).d.result == d.regs[1..5][0 := Mask64(d.regs[1] as int + 1)]
  {
    hide Exec, Effect;
    assert InstrNodes([STEP1]) == [Ins(STEP1)];
    ExecSingleIns(STEP1, d);
    AluImmEffectIs(ADDI, 1, 1, 1, d);
    RetResult(InstrNodes([STEP1]), 1, d);
  }

  // ----- a narrowing cast -----

  /** f(uint64_t x) { return (ty)x; } */
  function Narrowing(ty: CType): FuncDef {
    FuncDef([Param("x", UINT64)], [Return(Some(Cast(ty, Id("x"))))])
  }

  lemma NarrowingLowers(ty: CType)
    ensures LowerFunction(Narrowing(ty)) == Ok(InstrNodes([]) + [Ret(1)])
  {
    hide LowerBlock, LowerStmt, Flatten;
    var fn := Narrowing(ty);
    OneParam("x", UINT64, 0);
    var a := Alloc(map["x" := Sym(1, false)], {}, 0);
    ReturnsR1(a, Cast(ty, Id("x")));
    BlockSingle(a, fn.body[0]);
    assert InstrNodes([]) == [];
    WholeFunction(fn, [], 1);
  }

  lemma NarrowedSource(ty: CType, v: u64, mem: Mem)
    requires ty.stars == 0 && IsUnsigned(ty.names) && BitsOf(ty.names).Some? && BitsOf(ty.names).value < 64
    ensures var w := BitsOf(ty.names).value;
            RunSource(Narrowing(ty), [v], mem).Ok?
              && RunSource(Narrowing(ty), [v], mem).value.out == map[1 := v % Pow2(w)]
  {
    hide BitsOf, IsUnsigned, ExplicitBody, Bits, Pow2, Eval, BinValue, Bind;
    var fn, w := Narrowing(ty), BitsOf(ty.names).value;
    OneParam("x", UINT64, v);
    WordParam("x");
    var ks: Kinds := map["x" := Word];
    var mask := Bin(BitAnd, Id("x"), Ast.Const(Pow2(w) - 1));
    var body := [Return(Some(mask))];
    assert ExplicitBody(fn) == Ok(body) by {
      assert Explicit(ks, Cast(ty, Id("x"))) == Ok(Typed(mask, Narrow));
      assert ExplicitStmt(ks, fn.body[0]) == Ok((body[0], ks));
      assert fn.body[1..] == [] && [body[0]] + [] == body;
      assert ExplicitBlock(ks, fn.body) == Ok(body);
      BodyExplicit(fn, ks);
    }
    var env := Env(map["x" := v], mem, map[]);
    assert Eval(Id("x"), env.vars, mem) == Ok(Val(v, mem)) by { ReadsBack("x", v, mem); }
    MaskedMeans(Id("x"), w, v, env.vars, mem, mem);
    var done := ExecStmt(fn.params, body[0], env);
    assert done.Ok? && done.value.env.out == map[1 := v % Pow2(w)];
    SingleStatement(fn, body[0], [v], mem);
  }

  lemma BodyExplicit(fn: FuncDef, ks: Kinds)
    requires ParamKinds(fn.params) == Ok(ks)
    ensures ExplicitBody(fn) == ExplicitBlock(ks, fn.body)
  {
    hide ExplicitBlock;
  }

  lemma BelowPower(v: nat, w: nat)
    ensures v == v % Pow2(w) <==> v < Pow2(w)
  {
    hide Pow2;
  }

  /**
   * A cast to an unsigned type of w bits should keep the value mod 2^w and keeps all of it, for every such type; the
   * two agree exactly below 2^w.
   */
  lemma NarrowingKeepsAll(ty: CType, v: u64, mem: Mem) returns (n: nat)
    requires ty.stars == 0 && IsUnsigned(ty.names) && BitsOf(ty.names).Some? && BitsOf(ty.names).value < 64
    ensures var (fn, w) := (Narrowing(ty), BitsOf(ty.names).value);
            && RunSource(fn, [v], mem).Ok? && RunSource(fn, [v], mem).value.out == map[1 := v % Pow2(w)]
            && Compile(fn).Ok? && Assemble(Compile(fn).value).Ok?
            && var s := Run(Assemble(Compile(fn).value).value.words, Reset([v], mem), n);
               && s.status == Returned && |s.d.result| == 4 && s.d.result[0] == v
               && (s.d.result[0] == v % Pow2(w) <==> v < Pow2(w))
  {
    hide Assemble, Lowering.Compile, LowerFunction, RunSource, Run, Narrowing, BitsOf, IsUnsigned, Pow2;
    NarrowedSource(ty, v, mem);
    BelowPower(v, BitsOf(ty.names).value);
    NarrowingLowers(ty);
    n := StraightRuns(Narrowing(ty), [], 1, [v], mem);
    assert InstrNodes([]) == [];
    RetResult([], 1, Reset([v], mem).d);
  }

  // ----- three words -----

  const P3 := [Param("p", UINT64_PTR), Param("q", UINT64), Param("n", UINT64)]

  function Regs3(used: set<int>): Alloc {
    Alloc(map["p" := Sym(1, true), "q" := Sym(2, false), "n" := Sym(3, false)], used, 0)
  }

  lemma ThreeParams(x: u64, y: u64, z: u64)
    ensures AddArgs(P3) == Ok(Regs3({})) && Bind(P3, [x, y, z]) == map["p" := x, "q" := y, "n" := z]
    ensures ParamKinds(P3) == Ok(map["p" := Pointer(UINT64), "q" := Word, "n" := Word])
    ensures SlotOf(P3, "p") == 1
  {
    var p1, p2 := P3[..1], P3[..2];
    assert p2[..1] == p1 && p1[..0] == [];
    assert p1 == [P3[0]] && p2[1] == P3[1];
    OneParam("p", UINT64_PTR, x);
    assert UINT64.names[0] == "uint64_t";
    assert KindOf(UINT64_PTR) == Ok(Pointer(UINT64)) && KindOf(UINT64) == Ok(Word);
    BindPrefix(p1, [x], [x, y, z]);
    assert SlotOf(p2, "p") == SlotOf(p1, "p");
  }

  lemma ThreeArgs(x: u64, y: u64, z: u64, mem: Mem)
    ensures var regs := Reset([x, y, z], mem).d.regs; regs[1] == x && regs[2] == y && regs[3] == z
  {
  }

  /** Only as many arguments as there are parameters are bound. */
  lemma {:induction false} BindPrefix(params: seq<Param>, args: seq<int>, more: seq<int>)
    requires |params| <= |args| <= |more| && more[..|args|] == args
    ensures Bind(params, args) == Bind(params, more)
    decreases |params|
  {
    if params != [] {
      var m := |params| - 1;
      BindPrefix(params[..m], args, more);
      assert more[m] == more[..|args|][m];
    }
  }

  // ----- a result overwritten -----

  const SET_RESULT := ExprCall(Call("tiara_set_result", [Ast.Const(1), Id("q")]))

  /** f(p, q, n) { tiara_set_result(1, q); p = n; } */
  const OVERWRITES := FuncDef(P3, [SET_RESULT, Assign(Set, Id("p"), Id("n"))])

  const MOVES: seq<Instr> := [AluImm(ADDI, 1, 2, 0), AluImm(ADDI, 1, 3, 0)]

  lemma OverwritesLower()
    ensures LowerFunction(OVERWRITES) == Ok(InstrNodes(MOVES) + [Ret(0)])
  {
    hide LowerBlock, LowerStmt, Flatten;
    ThreeParams(0, 0, 0);
    var a := Regs3({});
    assert LowerStmt(a, SET_RESULT) == Ok((a, [Ins(MOVES[0])])) by { MovesLower(a); }
    assert LowerStmt(a, OVERWRITES.body[1]) == Ok((a, [Ins(MOVES[1])])) by { MovesLower(a); }
    BlockSingle(a, OVERWRITES.body[1]);
    BlockCons(a, SET_RESULT, [OVERWRITES.body[1]]);
    assert [SET_RESULT] + [OVERWRITES.body[1]] == OVERWRITES.body;
    assert InstrNodes(MOVES) == [Ins(MOVES[0])] + [Ins(MOVES[1])];
    FlattenAppend([Ins(MOVES[0])], [Ins(MOVES[1])]);
    FlattenIns(MOVES[1]);
    NoRet(OVERWRITES, InstrNodes(MOVES));
  }

  lemma NoRet(fn: FuncDef, code: seq<Node>)
    requires AddArgs(fn.params).Ok? && LowerBlock(AddArgs(fn.params).value, fn.body).Ok?
    requires LowerBlock(AddArgs(fn.params).value, fn.body).value.1 == code && !EndsWithRet(Flatten(code))
    ensures LowerFunction(fn) == Ok(code + [Ret(0)])
  {
    hide LowerBlock, Flatten;
  }

  lemma MovesLower(a: Alloc)
    requires a == Regs3({})
    ensures LowerStmt(a, SET_RESULT) == Ok((a, [Ins(MOVES[0])]))
    ensures LowerStmt(a, OVERWRITES.body[1]) == Ok((a, [Ins(MOVES[1])]))
  {
    assert a.syms["q"].reg == 2 && a.syms["n"].reg == 3;
    assert MaybeFree(a, 2) == a && MaybeFree(a, 3) == a;
    assert [] + [Move(1, 2)] == [Move(1, 2)] && [] + [Move(1, 3)] == [Move(1, 3)];
  }

  /**
   * Result 1 set to q and then lost: it shares r1 with the first parameter, so assigning the parameter n makes the
   * returned result n.  Source and machine agree exactly when q is n.
   */
  lemma ResultOverwritten(x: u64, y: u64, z: u64, mem: Mem) returns (n: nat)
    ensures RunSource(OVERWRITES, [x, y, z], mem).Err?
    ensures CRun(OVERWRITES, [x, y, z], mem).Ok? && CRun(OVERWRITES, [x, y, z], mem).value.out == map[1 := y]
    ensures Compile(OVERWRITES).Ok? && Assemble(Compile(OVERWRITES).value).Ok?
    ensures var s := Run(Assemble(Compile(OVERWRITES).value).value.words, Reset([x, y, z], mem), n);
            s.status == Returned && |s.d.result| == 4 && s.d.result[0] == z
  {
    hide Assemble, Lowering.Compile, LowerFunction, RunSource, CRun, Run, Exec, Reset;
    OverwrittenFails(x, y, z, mem);
    OverwritesLower();
    n := StraightRuns(OVERWRITES, MOVES, 0, [x, y, z], mem);
    assert InstrNodes(MOVES) == [Move(1, 2), Move(1, 3)];
    ThreeArgs(x, y, z, mem);
    TwoMoves(1, 2, 1, 3, 0, Reset([x, y, z], mem).d);
  }

  lemma OverwrittenFails(x: u64, y: u64, z: u64, mem: Mem)
    ensures RunSource(OVERWRITES, [x, y, z], mem).Err?
    ensures CRun(OVERWRITES, [x, y, z], mem).Ok? && CRun(OVERWRITES, [x, y, z], mem).value.out == map[1 := y]
  {
    hide ExplicitBody, Bind;
    ThreeParams(x, y, z);
    OverwritesExplicit();
    var vars := Bind(P3, [x, y, z]);
    var env, assign := Env(vars, mem, map[]), OVERWRITES.body[1];
    var env1 := ExecStmt(P3, SET_RESULT, env).value.env;
    assert env1.out == map[1 := y];
    assert ExecStmt(P3, assign, env1).Err?;
    assert OVERWRITES.body[1..] == [assign];
    assert ExecBlock(P3, [assign], env1).Err?;
    assert CStmt(SET_RESULT, env) == Ok(Done(Env(vars, mem, map[1 := y]), false));
    assert CStmt(assign, Env(vars, mem, map[1 := y])).Ok?;
    CTwo(SET_RESULT, assign, env);
    CBody(OVERWRITES, OVERWRITES.body, [x, y, z], mem);
  }

  /** C's meaning of two statements. */
  lemma CTwo(s: Stmt, t: Stmt, env: Env)
    ensures var first := CStmt(s, env);
            && (first.Ok? && !first.value.returned ==> CBlock([s, t], env) == CStmt(t, first.value.env))
  {
    hide CStmt;
    assert [s, t][1..] == [t] && [t][1..] == [];
    assert forall e :: CBlock([], e) == Ok(Done(e, false));
  }

  lemma CBody(fn: FuncDef, body: seq<Stmt>, args: seq<int>, mem: Mem)
    requires ExplicitBody(fn) == Ok(body)
    ensures var r := CBlock(body, Env(Bind(fn.params, args), mem, map[]));
            CRun(fn, args, mem) == if r.Ok? then Ok(r.value.env) else Err
  {
    hide CBlock, ExplicitBody, Bind;
  }

  lemma OverwritesExplicit()
    ensures ExplicitBody(OVERWRITES) == Ok(OVERWRITES.body)
  {
    hide ParamKinds;
    ThreeParams(0, 0, 0);
    var ks: Kinds := map["p" := Pointer(UINT64), "q" := Word, "n" := Word];
    ResultExplicit(ks, 1, "q");
    var assign := OVERWRITES.body[1];
    assert ExplicitStmt(ks, assign) == Ok((assign, ks));
    NoConversion(ks, ks, assign, []);
    assert [assign] + [] == [assign] && [SET_RESULT] + [assign] == OVERWRITES.body;
    NoConversion(ks, ks, SET_RESULT, [assign]);
  }

  // ----- a parameter read after its register took a result -----

  const SET_SECOND := ExprCall(Call("tiara_set_result", [Ast.Const(2), Id("p")]))

  /** f(p, q, n) { tiara_set_result(1, q); tiara_set_result(2, p); } */
  const SWAPS := FuncDef(P3, [SET_RESULT, SET_SECOND])

  const SWAP_MOVES: seq<Instr> := [AluImm(ADDI, 1, 2, 0), AluImm(ADDI, 2, 1, 0)]

  lemma SwapsLower()
    ensures LowerFunction(SWAPS) == Ok(InstrNodes(SWAP_MOVES) + [Ret(0)])
  {
    hide LowerBlock, LowerStmt, Flatten;
    ThreeParams(0, 0, 0);
    var a := Regs3({});
    assert LowerStmt(a, SET_RESULT) == Ok((a, [Ins(MOVES[0])])) by { MovesLower(a); }
    assert LowerStmt(a, SET_SECOND) == Ok((a, [Ins(SWAP_MOVES[1])])) by { SecondLowers(a); }
    BlockSingle(a, SET_SECOND);
    BlockCons(a, SET_RESULT, [SET_SECOND]);
    assert [SET_RESULT] + [SET_SECOND] == SWAPS.body;
    assert InstrNodes(SWAP_MOVES) == [Ins(MOVES[0])] + [Ins(SWAP_MOVES[1])];
    FlattenAppend([Ins(MOVES[0])], [Ins(SWAP_MOVES[1])]);
    FlattenIns(SWAP_MOVES[1]);
    NoRet(SWAPS, InstrNodes(SWAP_MOVES));
  }

  lemma SecondLowers(a: Alloc)
    requires a == Regs3({})
    ensures LowerStmt(a, SET_SECOND) == Ok((a, [Ins(SWAP_MOVES[1])]))
  {
    assert a.syms["p"].reg == 1;
    assert MaybeFree(a, 1) == a;
    assert [] + [Move(2, 1)] == [Move(2, 1)];
  }

  lemma SwapsExplicit()
    ensures ExplicitBody(SWAPS) == Ok(SWAPS.body)
  {
    hide ParamKinds;
    ThreeParams(0, 0, 0);
    var ks: Kinds := map["p" := Pointer(UINT64), "q" := Word, "n" := Word];
    ResultExplicit(ks, 1, "q");
    ResultExplicit(ks, 2, "p");
    NoConversion(ks, ks, SET_SECOND, []);
    assert [SET_SECOND] + [] == [SET_SECOND] && [SET_RESULT] + [SET_SECOND] == SWAPS.body;
    NoConversion(ks, ks, SET_RESULT, [SET_SECOND]);
  }

  /** Setting a result to a variable needs no conversion. */
  lemma ResultExplicit(ks: Kinds, slot: nat, name: string)
    requires name in ks
    ensures var s := ExprCall(Call("tiara_set_result", [Ast.Const(slot), Id(name)])); ExplicitStmt(ks, s) == Ok((s, ks))
  {
    var args := [Ast.Const(slot), Id(name)];
    NoConversionArgs(ks, Id(name), []);
    assert [Id(name)] + [] == [Id(name)] && [Ast.Const(slot)] + [Id(name)] == args;
    NoConversionArgs(ks, Ast.Const(slot), [Id(name)]);
    assert Explicit(ks, Call("tiara_set_result", args)) == Ok(Typed(Call("tiara_set_result", args), Word));
  }

  lemma SwapsMean(x: u64, y: u64, z: u64, mem: Mem)
    ensures RunSource(SWAPS, [x, y, z], mem).Err?
    ensures CRun(SWAPS, [x, y, z], mem).Ok? && CRun(SWAPS, [x, y, z], mem).value.out == map[1 := y, 2 := x]
  {
    hide ExplicitBody, Bind;
    ThreeParams(x, y, z);
    SwapsExplicit();
    var vars := Bind(P3, [x, y, z]);
    var env := Env(vars, mem, map[]);
    var env1 := ExecStmt(P3, SET_RESULT, env).value.env;
    assert "p" !in env1.vars by { assert P3[0].name == "p"; }
    assert ExecStmt(P3, SET_SECOND, env1).Err?;
    assert SWAPS.body[1..] == [SET_SECOND];
    assert ExecBlock(P3, [SET_SECOND], env1).Err?;
    assert CStmt(SET_RESULT, env) == Ok(Done(Env(vars, mem, map[1 := y]), false));
    assert CStmt(SET_SECOND, Env(vars, mem, map[1 := y])).value.env.out == map[1 := y, 2 := x];
    CTwo(SET_RESULT, SET_SECOND, env);
    CBody(SWAPS, SWAPS.body, [x, y, z], mem);
  }

  /**
   * Result 1 lands in the register of the first parameter, so the second result is q where C has p.  The two agree
   * exactly when p is q.
   */
  lemma ParameterTaken(x: u64, y: u64, z: u64, mem: Mem) returns (n: nat)
    ensures RunSource(SWAPS, [x, y, z], mem).Err?
    ensures CRun(SWAPS, [x, y, z], mem).Ok? && CRun(SWAPS, [x, y, z], mem).value.out == map[1 := y, 2 := x]
    ensures Compile(SWAPS).Ok? && Assemble(Compile(SWAPS).value).Ok?
    ensures var s := Run(Assemble(Compile(SWAPS).value).value.words, Reset([x, y, z], mem), n);
            s.status == Returned && |s.d.result| == 4 && s.d.result[0] == y && s.d.result[1] == y
  {
    hide Assemble, Lowering.Compile, LowerFunction, RunSource, CRun, Run, Exec, Reset;
    SwapsMean(x, y, z, mem);
    SwapsLower();
    n := StraightRuns(SWAPS, SWAP_MOVES, 0, [x, y, z], mem);
    assert InstrNodes(SWAP_MOVES) == [Move(1, 2), Move(2, 1)];
    ThreeArgs(x, y, z, mem);
    TwoMoves(1, 2, 2, 1, 0, Reset([x, y, z], mem).d);
  }

  // ----- a negative mask -----

  /** f(x) { return x & -c; } */
  function Clears(c: nat): FuncDef {
    FuncDef([Param("x", UINT64)], [Return(Some(Bin(BitAnd, Id("x"), Un(Negate, Ast.Const(c)))))])
  }

  function ClearCode(c: nat): seq<Instr> { [AluImm(ANDI, 15, 1, -(c as int)), AluImm(ADDI, 1, 15, 0)] }

  lemma ClearsLower(c: nat)
    ensures LowerFunction(Clears(c)) == Ok(InstrNodes(ClearCode(c)) + [Ret(1)])
  {
    hide LowerBlock, LowerStmt, Flatten;
    OneParam("x", UINT64, 0);
    var a := Alloc(map["x" := Sym(1, false)], {}, 0);
    assert LowerStmt(a, Clears(c).body[0]) == Ok((a, InstrNodes(ClearCode(c)) + [Ret(1)])) by { ClearLowers(a, c); }
    BlockSingle(a, Clears(c).body[0]);
    WholeFunction(Clears(c), InstrNodes(ClearCode(c)), 1);
  }

  lemma ClearLowers(a: Alloc, c: nat)
    requires a == Alloc(map["x" := Sym(1, false)], {}, 0)
    ensures LowerStmt(a, Clears(c).body[0]) == Ok((a, InstrNodes(ClearCode(c)) + [Ret(1)]))
  {
    hide Lower;
    var (e, mask, a1) := (Clears(c).body[0].value.value, Ins(ClearCode(c)[0]), a.(used := {15}));
    assert Lower(a, e) == Ok(Lowered(a1, [mask], 15)) by { MaskLowers(a, c); }
    assert MaybeFree(a1, 15) == a by { assert !IsSymReg(a1.syms, 15); }
    assert [mask] + [Move(1, 15)] == InstrNodes(ClearCode(c));
  }

  lemma MaskLowers(a: Alloc, c: nat)
    requires a == Alloc(map["x" := Sym(1, false)], {}, 0)
    ensures Lower(a, Clears(c).body[0].value.value) == Ok(Lowered(a.(used := {15}), [Ins(ClearCode(c)[0])], 15))
  {
    var e := Bin(BitAnd, Id("x"), Un(Negate, Ast.Const(c)));
    var a1 := a.(used := {15});
    assert Temp(a) == Ok((a1, 15)) by { assert {} + {15} == {15}; }
    assert a1.syms["x"].reg == 1;
    assert MaybeFree(a1, 1) == a1;
    assert Lower(a, Id("x")) == Ok(Lowered(a, [], 1));
    assert [] + [Ins(ClearCode(c)[0])] == [Ins(ClearCode(c)[0])];
    assert TryConst(e.r) == Some(-(c as int)) by { assert TryConst(Ast.Const(c)) == Some(c as int); }
    assert Lower(a, e) == LowerBin(a, e);
  }

  lemma ClearsMean(c: nat, v: u64, mem: Mem)
    requires 1 <= c <= 0x80_0000_0000
    ensures RunSource(Clears(c), [v], mem).Ok?
    ensures RunSource(Clears(c), [v], mem).value.out == map[1 := Bitwise(BAND, v, 0x1_0000_0000_0000_0000 - c)]
  {
    hide ExplicitBody, Bitwise, Bind, Eval;
    OneParam("x", UINT64, v);
    ClearsExplicit(c);
    var fn, w := Clears(c), 0x1_0000_0000_0000_0000 - c;
    var e, env := fn.body[0].value.value, Env(map["x" := v], mem, map[]);
    assert Eval(Id("x"), env.vars, mem) == Ok(Val(v, mem)) by { ReadsBack("x", v, mem); }
    NegativeWord(c, env.vars, mem);
    EvalBin(BitAnd, Id("x"), Un(Negate, Ast.Const(c)), env.vars, mem, Val(v, mem), Val(w, mem));
    assert Eval(e, env.vars, mem) == Ok(Val(Bitwise(BAND, v, w), mem));
    assert ExecStmt(fn.params, fn.body[0], env).value.env.out == map[1 := Bitwise(BAND, v, w)];
    SingleStatement(fn, fn.body[0], [v], mem);
  }

  lemma NegativeWord(c: nat, vars: Vars, mem: Mem)
    requires 1 <= c <= 0x80_0000_0000
    ensures Eval(Un(Negate, Ast.Const(c)), vars, mem) == Ok(Val(0x1_0000_0000_0000_0000 - c, mem))
  {
    assert Eval(Ast.Const(c), vars, mem) == Ok(Val(c, mem));
  }

  lemma ClearsExplicit(c: nat)
    ensures ExplicitBody(Clears(c)) == Ok(Clears(c).body)
  {
    hide ParamKinds, ExplicitBody;
    OneParam("x", UINT64, 0);
    WordParam("x");
    var ks: Kinds := map["x" := Word];
    var fn, e := Clears(c), Bin(BitAnd, Id("x"), Un(Negate, Ast.Const(c)));
    assert Explicit(ks, Un(Negate, Ast.Const(c))) == Ok(Typed(Un(Negate, Ast.Const(c)), Signed));
    assert Explicit(ks, e) == Ok(Typed(e, Word));
    NoConversion(ks, ks, fn.body[0], []);
    assert [fn.body[0]] + [] == fn.body;
    BodyExplicit(fn, ks);
  }

  /** Clearing low bits with all 64 bits of the mask or with 40 of them: the rest of the value is kept or lost. */
  lemma MaskCut(v: u64, c: nat)
    requires 1 <= c <= 0x80_0000_0000
    ensures Bitwise(BAND, v, 0x1_0000_0000_0000_0000 - c)
         == Bitwise(BAND, v, 0x100_0000_0000 - c) + v / 0x100_0000_0000 * 0x100_0000_0000
  {
    hide Bits, Pow2, LowBits, HighBits;
    var w, m, high := 0x1_0000_0000_0000_0000 - c, 0x100_0000_0000 - c, v / 0x100_0000_0000;
    FortyBits();
    Pow2At64();
    HighBitsIs(v, 40);
    HighBitsIs(w, 40);
    HighBitsIs(m, 40);
    LowBitsIs(w, 40);
    LowBitsIs(m, 40);
    BitsSplit(BAND, v, w, 40, 64);
    BitsSplit(BAND, v, m, 40, 64);
    BitsLow(BAND, v, w, m, 40);
    MaskKeepsLow(high, 24, 24);
    AndZero(high, 24);
  }

  lemma FortyBits()
    ensures Pow2(40) == 0x100_0000_0000 && Pow2(24) == 0x100_0000
  {
    assert Pow2(8) == 0x100;
    Pow2Add(8, 8);
    Pow2Add(16, 8);
    Pow2Add(24, 16);
  }

  /**
   * A negative mask has 40 bits in the instruction: `x & -c` loses the upper 24 bits of x, for every c up to 2^39.
   * Source and machine agree exactly below 2^40.
   */
  lemma NegativeMaskCut(c: nat, v: u64, mem: Mem) returns (n: nat)
    requires 1 <= c <= 0x80_0000_0000
    ensures var (fn, w) := (Clears(c), Bitwise(BAND, v, 0x1_0000_0000_0000_0000 - c));
            && RunSource(fn, [v], mem).Ok? && RunSource(fn, [v], mem).value.out == map[1 := w]
            && Compile(fn).Ok? && Assemble(Compile(fn).value).Ok?
            && var s := Run(Assemble(Compile(fn).value).value.words, Reset([v], mem), n);
               && s.status == Returned && |s.d.result| == 4
               && s.d.result[0] == w - v / 0x100_0000_0000 * 0x100_0000_0000
               && (s.d.result[0] == w <==> v < 0x100_0000_0000)
  {
    hide Assemble, Lowering.Compile, LowerFunction, RunSource, Run, Exec, Effect, Bitwise, Clears;
    ClearsMean(c, v, mem);
    ClearsLower(c);
    MaskCut(v, c);
    n := StraightRuns(Clears(c), ClearCode(c), 1, [v], mem);
    var d := Reset([v], mem).d;
    var (i, j) := (ClearCode(c)[0], ClearCode(c)[1]);
    assert InstrNodes(ClearCode(c)) == [Ins(i), Ins(j)];
    ExecPair(i, j, d);
    AluImmEffectIs(ANDI, 15, 1, -(c as int), d);
    AluImmEffectIs(ADDI, 1, 15, 0, Effect(Seen(i), 0, d));
    RetResult(InstrNodes(ClearCode(c)), 1, d);
    DivModUnique(-(c as int), -1, 0x100_0000_0000 - c, 0x100_0000_0000);
  }

  // ----- a variable declared again -----

  const AGAIN := If(Ast.Const(1), [Decl("x", UINT64, Some(Id("n")))])

  /** f(p, q, n) { uint64_t x = q; { uint64_t x = n; } return x; } */
  const REDECLARES := FuncDef(P3, [Decl("x", UINT64, Some(Id("q"))), AGAIN, Return(Some(Id("x")))])

  const KEEPS: seq<Instr> := [AluImm(ADDI, 9, 2, 0), AluImm(ADDI, 10, 3, 0), AluImm(ADDI, 1, 10, 0)]

  function WithX(r: reg, used: set<int>): Alloc { Alloc(Regs3({}).syms["x" := Sym(r, false)], used, 0) }

  lemma DeclLowers(a: Alloc, b: Alloc, r: reg, from: string)
    requires AddLocal(a, "x") == Ok((b, r)) && from in b.syms && b.syms[from].reg <= 8
    ensures LowerStmt(a, Decl("x", UINT64, Some(Id(from)))) == Ok((b, [Move(r, b.syms[from].reg)]))
  {
    assert MaybeFree(b, b.syms[from].reg) == b;
    assert [] + [Move(r, b.syms[from].reg)] == [Move(r, b.syms[from].reg)];
  }

  lemma RedeclaresLower()
    ensures LowerFunction(REDECLARES) == Ok(InstrNodes(KEEPS) + [Ret(1)])
  {
    hide LowerBlock, LowerStmt, Flatten;
    ThreeParams(0, 0, 0);
    var a, b, c := Regs3({}), WithX(9, {9}), WithX(10, {9, 10});
    var s, t, u := REDECLARES.body[0], REDECLARES.body[1], REDECLARES.body[2];
    assert AddLocal(a, "x") == Ok((b, 9)) by { assert {} + {9} == {9}; }
    assert AddLocal(b, "x") == Ok((c, 10)) by {
      assert FreeUpFrom({9}, 10) == FreeUpFrom({9}, 9) == Ok(10) && {9} + {10} == {9, 10};
      assert b.syms["x" := Sym(10, false)] == c.syms;
    }
    DeclLowers(a, b, 9, "q");
    DeclLowers(b, c, 10, "n");
    BlockSingle(b, AGAIN.body[0]);
    assert LowerStmt(b, t) == Ok((c, [Ins(KEEPS[1])])) by { BareBlock(b, AGAIN.body); }
    assert LowerStmt(c, u) == Ok((c, [Ins(KEEPS[2]), Ret(1)])) by { ReturnsX(c); }
    BlockSingle(c, u);
    BlockCons(b, t, [u]);
    BlockCons(a, s, [t] + [u]);
    assert [s] + ([t] + [u]) == REDECLARES.body;
    var code := InstrNodes(KEEPS);
    assert [Ins(KEEPS[0])] + ([Ins(KEEPS[1])] + [Ins(KEEPS[2]), Ret(1)]) == code + [Ret(1)];
    WholeFunction(REDECLARES, code, 1);
  }

  lemma BareBlock(a: Alloc, body: seq<Stmt>)
    ensures LowerStmt(a, If(Ast.Const(1), body)) == LowerBlock(a, body)
  {
    hide LowerBlock;
  }

  lemma ReturnsX(c: Alloc)
    requires c == WithX(10, {9, 10})
    ensures LowerStmt(c, Return(Some(Id("x")))) == Ok((c, [Ins(KEEPS[2]), Ret(1)]))
  {
    assert c.syms["x"].reg == 10 && IsSymReg(c.syms, 10);
    assert [] + [Move(1, 10)] + [Ret(1)] == [Ins(KEEPS[2]), Ret(1)];
  }

  /**
   * A name declared again in an inner block stays with the inner variable: the function returns n where C, which needs
   * no conversion here, returns the outer x, q.  The two agree exactly when q is n.
   */
  lemma InnerDeclarationStays(x: u64, y: u64, z: u64, mem: Mem) returns (n: nat)
    ensures var r := CBlock(REDECLARES.body, Env(Bind(P3, [x, y, z]), mem, map[]));
            r.Ok? && r.value.returned && r.value.env.out == map[1 := y]
    ensures RunSource(REDECLARES, [x, y, z], mem).Err?
    ensures Compile(REDECLARES).Ok? && Assemble(Compile(REDECLARES).value).Ok?
    ensures var s := Run(Assemble(Compile(REDECLARES).value).value.words, Reset([x, y, z], mem), n);
            s.status == Returned && |s.d.result| == 4 && s.d.result[0] == z
  {
    hide Assemble, Lowering.Compile, LowerFunction, RunSource, Run, Exec, Bind, CBlock, Reset;
    OuterReturned(x, y, z, mem);
    RedeclaresFails([x, y, z], mem);
    RedeclaresLower();
    n := StraightRuns(REDECLARES, KEEPS, 1, [x, y, z], mem);
    ThreeArgs(x, y, z, mem);
    KeepsRun(Reset([x, y, z], mem).d);
  }

  lemma KeepsRun(d: Data)
    ensures Exec(InstrNodes(KEEPS) + [Ret(1)], d).d.result == d.regs[1..5][0 := d.regs[3]]
  {
    hide Exec;
    NoCode(d);
    AfterMove([], 9, 2, d);
    AfterMove([] + [Move(9, 2)], 10, 3, d);
    AfterMove([] + [Move(9, 2)] + [Move(10, 3)], 1, 10, d);
    assert InstrNodes(KEEPS) == [] + [Move(9, 2)] + [Move(10, 3)] + [Move(1, 10)];
    RetResult(InstrNodes(KEEPS), 1, d);
  }

  lemma OuterReturned(x: u64, y: u64, z: u64, mem: Mem)
    ensures var r := CBlock(REDECLARES.body, Env(Bind(P3, [x, y, z]), mem, map[]));
            r.Ok? && r.value.returned && r.value.env.out == map[1 := y]
  {
    hide CStmt, CBlock, Bind;
    ThreeParams(x, y, z);
    var vars := Bind(P3, [x, y, z]);
    var (s, t, u) := (REDECLARES.body[0], AGAIN, REDECLARES.body[2]);
    var env := Env(vars, mem, map[]);
    var env1 := env.(vars := vars["x" := y]);
    DeclMeans("q", env);
    InnerLeft(env1);
    assert CStmt(u, env1) == Ok(Done(env1.(out := map[1 := y]), true)) by { ReturnMeans(env1); }
    assert [s, t, u] == REDECLARES.body && [s, t, u][1..] == [t, u] && [t, u][1..] == [u];
    CThen([s, t, u], env, env1);
    CThen([t, u], env1, env1);
    CLast(u, env1);
  }

  lemma DeclMeans(from: string, env: Env)
    requires from in env.vars && from != "x"
    ensures CStmt(Decl("x", UINT64, Some(Id(from))), env)
         == Ok(Done(env.(vars := env.vars["x" := env.vars[from]]), false))
  {
    var vars := env.vars - {"x"};
    assert Eval(Id(from), vars, env.mem) == Ok(Val(env.vars[from], env.mem));
    assert vars["x" := env.vars[from]] == env.vars["x" := env.vars[from]];
  }

  lemma ReturnMeans(env: Env)
    requires "x" in env.vars && env.out == map[]
    ensures CStmt(Return(Some(Id("x"))), env) == Ok(Done(env.(out := map[1 := env.vars["x"]]), true))
  {
  }

  /** The inner block ends and the outer x is back. */
  lemma InnerLeft(env: Env)
    requires "x" in env.vars && "n" in env.vars
    ensures CStmt(AGAIN, env) == Ok(Done(env, false))
  {
    hide CBlock;
    DeclMeans("n", env);
    CLast(AGAIN.body[0], env);
    var inner := env.(vars := env.vars["x" := env.vars["n"]]);
    assert Declared(AGAIN.body) == {"x"} by { assert AGAIN.body[1..] == []; }
    assert Leave(env.vars, {"x"}, inner).vars == env.vars;
    assert Eval(Ast.Const(1), env.vars, env.mem) == Ok(Val(1, env.mem));
  }

  lemma CThen(ss: seq<Stmt>, env: Env, after: Env)
    requires ss != [] && CStmt(ss[0], env) == Ok(Done(after, false))
    ensures CBlock(ss, env) == CBlock(ss[1..], after)
  {
    hide CStmt;
  }

  lemma CLast(s: Stmt, env: Env)
    ensures CBlock([s], env) == CStmt(s, env)
  {
    hide CStmt;
    assert [s][1..] == [];
    assert forall e :: CBlock([], e) == Ok(Done(e, false));
  }

  lemma RedeclaresFails(args: seq<int>, mem: Mem)
    ensures RunSource(REDECLARES, args, mem).Err?
  {
    hide ParamKinds;
    ThreeParams(0, 0, 0);
    var ks: Kinds := map["p" := Pointer(UINT64), "q" := Word, "n" := Word];
    var ks1 := ks["x" := Word];
    assert UINT64.names[0] == "uint64_t" && KindOf(UINT64) == Ok(Word);
    assert ExplicitStmt(ks, REDECLARES.body[0]) == Ok((REDECLARES.body[0], ks1));
    assert ExplicitBlock(ks1, AGAIN.body).Err?;
    assert REDECLARES.body[1..][0] == AGAIN && ExplicitStmt(ks1, AGAIN).Err?;
    assert ExplicitBlock(ks1, REDECLARES.body[1..]).Err?;
    BodyExplicit(REDECLARES, ks);
  }

  // ----- an index evaluated twice -----

  const ADD_N := Call("tiara_caa", [Id("q"), Id("n")])

  const TARGET := Index(Id("p"), ADD_N)

  /** f(p, q, n) { p[tiara_caa(q, n)] += n; } */
  const BUMPS := FuncDef(P3, [Assign(PlusSet, TARGET, Id("n"))])

  /** What it folds to: f(p, q, n) { p[tiara_caa(q, n)] = p[tiara_caa(q, n)] + n; } */
  const UNFOLDED := FuncDef(P3, [Assign(Set, TARGET, Bin(Plus, TARGET, Id("n")))])

  function AddrCode(sum: reg): seq<Instr> {
    [Instr(CAA, 15, 2, 3, 0, 0, Some(NO_EXTRA)), AluImm(SHLI, 14, 15, 3), Alu3(ADD, sum, 1, 14)]
  }

  function BumpCode(): seq<Instr> {
    AddrCode(13) + (AddrCode(12) + [Instr(LOAD, 15, 12, 0, 0, 0, None)] + [Alu3(ADD, 14, 15, 3)])
    + [Instr(STORE, 0, 13, 14, 0, 0, None)]
  }

  lemma CaaLowers(used: set<int>)
    requires 15 !in used
    ensures Lower(Regs3(used), ADD_N) == Ok(Lowered(Regs3(used + {15}), InstrNodes(AddrCode(0)[..1]), 15))
  {
    var a := Regs3(used);
    assert Lower(a, Id("q")) == Ok(Lowered(a, [], 2)) && Lower(a, Id("n")) == Ok(Lowered(a, [], 3));
    assert Temp(a) == Ok((Regs3(used + {15}), 15));
    assert a.syms["q"].reg == 2 && a.syms["n"].reg == 3;
    var a1 := Regs3(used + {15});
    assert MaybeFree(a1, 2) == a1 && MaybeFree(a1, 3) == a1;
    assert [] + [] + [Ins(AddrCode(0)[0])] == InstrNodes(AddrCode(0)[..1]);
  }

  lemma AddrLowers(used: set<int>, sum: reg)
    requires 15 !in used && 14 !in used && sum !in used && (sum == 13 || (sum == 12 && 13 in used))
    ensures LowerAddr(Regs3(used), Id("p"), ADD_N)
        == Ok(Addr(Regs3(used + {sum as int}), InstrNodes(AddrCode(sum)), sum, 0))
  {
    hide Lower;
    CaaLowers(used);
    var a1 := Regs3(used + {15});
    assert FreeFrom(a1.used, 14) == FreeFrom(a1.used, 15) == Ok(14);
    assert Temp(a1) == Ok((Regs3(used + {14, 15}), 14)) by { assert used + {15} + {14} == used + {14, 15}; }
    var a2 := Regs3(used + {14, 15});
    assert FreeFrom(a2.used, 13) == FreeFrom(a2.used, 14) == FreeFrom(a2.used, 15);
    assert FreeFrom(a2.used, 15) == Ok(sum) by {
      if sum == 12 { assert FreeFrom(a2.used, 12) == FreeFrom(a2.used, 13); }
    }
    var a3 := a2.(used := a2.used + {sum as int});
    assert Temp(a2) == Ok((a3, sum));
    assert !IsSymReg(a3.syms, 15);
    assert MaybeFree(a3, 15).used == used + {14, sum as int};
    assert Free(MaybeFree(a3, 15), 14).used == used + {sum as int};
    var last := [Ins(AluImm(SHLI, 14, 15, 3)), Ins(Alu3(ADD, sum, 1, 14))];
    assert InstrNodes(AddrCode(0)[..1]) + last == InstrNodes(AddrCode(sum));
    assert TryConst(ADD_N).None?;
  }

  lemma TargetLowers()
    ensures Lower(Regs3({13}), TARGET) == Ok(Lowered(Regs3({12, 13, 15}), InstrNodes(BumpCode()[3..7]), 15))
  {
    hide LowerAddr, FreeFrom;
    AddrLowers({13}, 12);
    assert {13} + {12} == {12, 13} && {12, 13} + {15} == {12, 13, 15};
    FreeTop({12, 13});
    assert Temp(Regs3({12, 13})) == Ok((Regs3({12, 13, 15}), 15));
    assert InstrNodes(AddrCode(12)) + [Ins(Instr(LOAD, 15, 12, 0, 0, 0, None))] == InstrNodes(BumpCode()[3..7]);
  }

  lemma ValueLowers()
    ensures Lower(Regs3({13}), Bin(Plus, TARGET, Id("n")))
         == Ok(Lowered(Regs3({12, 13, 14}), InstrNodes(BumpCode()[3..8]), 14))
  {
    hide LowerAddr, Temp, MaybeFree, InstrNodes, BumpCode;
    TargetLowers();
    ValueAlloc();
    var a2 := Regs3({12, 13, 15});
    assert a2.syms["n"].reg == 3 && Lower(a2, Id("n")) == Ok(Lowered(a2, [], 3));
    BumpCodeEnds();
    assert TryConst(Id("n")).None?;
    var e := Bin(Plus, TARGET, Id("n"));
    assert Lower(Regs3({13}), e) == LowerBin(Regs3({13}), e);
  }

  lemma BumpCodeEnds()
    ensures |BumpCode()| == 9
    ensures InstrNodes(BumpCode()[3..7]) + [] + [Ins(Alu3(ADD, 14, 15, 3))] == InstrNodes(BumpCode()[3..8])
  {
  }

  lemma ValueAlloc()
    ensures var a3 := Regs3({12, 13, 14, 15});
            && Temp(Regs3({12, 13, 15})) == Ok((a3, 14))
            && MaybeFree(MaybeFree(a3, 15), 3) == Regs3({12, 13, 14})
  {
    hide FreeFrom;
    var a3 := Regs3({12, 13, 14, 15});
    assert {12, 13, 15} + {14} == {12, 13, 14, 15};
    FreeTop({12, 13, 15});
    assert !IsSymReg(a3.syms, 15);
    assert MaybeFree(a3, 15) == Regs3({12, 13, 14});
  }

  lemma FreeTop(used: set<int>)
    ensures 15 !in used ==> FreeFrom(used, 15) == Ok(15)
    ensures 15 in used && 14 !in used ==> FreeFrom(used, 15) == Ok(14)
  {
    assert FreeFrom(used, 14) == if 14 !in used then Ok(14) else FreeFrom(used, 13);
  }

  lemma UnfoldedLowers()
    ensures LowerStmt(Regs3({}), UNFOLDED.body[0]) == Ok((Regs3({12, 13}), InstrNodes(BumpCode())))
    ensures LowerFunction(UNFOLDED) == Ok(InstrNodes(BumpCode()) + [Ret(0)])
  {
    hide LowerStmt, LowerBlock, Flatten;
    StoreLowers();
    ThreeParams(0, 0, 0);
    BlockSingle(Regs3({}), UNFOLDED.body[0]);
    var store := Instr(STORE, 0, 13, 14, 0, 0, None);
    assert InstrNodes(BumpCode()) == InstrNodes(BumpCode()[..8]) + [Ins(store)];
    FlattenAppend(InstrNodes(BumpCode()[..8]), [Ins(store)]);
    FlattenIns(store);
    NoRet(UNFOLDED, InstrNodes(BumpCode()));
  }

  lemma StoreLowers()
    ensures LowerStmt(Regs3({}), UNFOLDED.body[0]) == Ok((Regs3({12, 13}), InstrNodes(BumpCode())))
  {
    hide LowerAddr, Lower;
    AddrLowers({}, 13);
    assert {} + {13} == {13};
    ValueLowers();
    var b := Regs3({12, 13, 14});
    assert !IsSymReg(b.syms, 14) && MaybeFree(b, 14) == Regs3({12, 13});
    var store := Instr(STORE, 0, 13, 14, 0, 0, None);
    assert InstrNodes(AddrCode(13)) + InstrNodes(BumpCode()[3..8]) + [Ins(store)] == InstrNodes(BumpCode());
  }

  /** The two compile alike. */
  lemma BumpsUnfolds()
    ensures Lowering.Compile(BUMPS) == Lowering.Compile(UNFOLDED)
  {
    hide LowerAddr, Lower, LowerBlock, Flatten;
    ThreeParams(0, 0, 0);
    var a := Regs3({});
    assert LowerStmt(a, BUMPS.body[0]) == LowerStmt(a, UNFOLDED.body[0]);
    BlockSingle(a, BUMPS.body[0]);
    BlockSingle(a, UNFOLDED.body[0]);
  }

  lemma TargetExplicit(ks: Kinds)
    requires ks == map["p" := Pointer(UINT64), "q" := Word, "n" := Word]
    ensures Explicit(ks, TARGET) == Ok(Typed(TARGET, Word))
  {
    NoConversionArgs(ks, Id("n"), []);
    assert [Id("n")] + [] == [Id("n")] && [Id("q")] + [Id("n")] == ADD_N.args;
    NoConversionArgs(ks, Id("q"), [Id("n")]);
    assert Explicit(ks, ADD_N) == Ok(Typed(ADD_N, Word));
    assert Explicit(ks, Id("p")) == Ok(Typed(Id("p"), Pointer(UINT64)));
    assert UINT64.names[0] == "uint64_t";
  }

  lemma BumpsExplicit()
    ensures ExplicitBody(BUMPS) == Ok(BUMPS.body) && ExplicitBody(UNFOLDED) == Ok(UNFOLDED.body)
  {
    hide ParamKinds;
    ThreeParams(0, 0, 0);
    var ks: Kinds := map["p" := Pointer(UINT64), "q" := Word, "n" := Word];
    TargetExplicit(ks);
    assert Explicit(ks, Id("n")) == Ok(Typed(Id("n"), Word));
    var sum := Bin(Plus, TARGET, Id("n"));
    assert Explicit(ks, sum) == Ok(Typed(sum, Word));
    assert ExplicitStmt(ks, BUMPS.body[0]) == Ok((BUMPS.body[0], ks));
    assert ExplicitStmt(ks, UNFOLDED.body[0]) == Ok((UNFOLDED.body[0], ks));
    NoConversion(ks, ks, BUMPS.body[0], []);
    NoConversion(ks, ks, UNFOLDED.body[0], []);
    assert [BUMPS.body[0]] + [] == BUMPS.body && [UNFOLDED.body[0]] + [] == UNFOLDED.body;
  }

  lemma TargetFine(names: set<string>)
    requires names == {"p", "q", "n"}
    ensures ExprFine(TARGET, names) && ExprFine(Bin(Plus, TARGET, Id("n")), names) && Reads(TARGET) <= names
  {
    assert ADD_N.args[1..] == [Id("n")] && [Id("n")][1..] == [];
    assert ReadsAll(ADD_N.args[1..]) <= {"n"};
    assert ReadsAll(ADD_N.args) <= {"q", "n"};
    assert ExprOk(TARGET);
  }

  /** A function whose body is one statement. */
  lemma SingleOk(fn: FuncDef)
    requires ExplicitBody(fn) == Ok(fn.body) && AddArgs(fn.params).Ok? && |fn.body| == 1
    requires StmtOk(AddArgs(fn.params).value, Entry(fn.params), fn.body[0])
    requires LowerStmt(AddArgs(fn.params).value, fn.body[0]).Ok?
    ensures FuncOk(fn)
  {
    hide StmtOk, LowerStmt, ExplicitBody, AddArgs, Entry, Written;
    assert fn.body[1..] == [];
    var (a1, code) := LowerStmt(AddArgs(fn.params).value, fn.body[0]).value;
    assert BlockOk(a1, CtxAfter(Entry(fn.params), fn.body[0], code), []);
  }

  lemma UnfoldedOk()
    ensures FuncOk(UNFOLDED)
  {
    hide ExplicitBody, LowerStmt, AddArgs, ExprFine, Reads, Written, Lower, LowerAddr, ExprOk;
    BumpsExplicit();
    ThreeParams(0, 0, 0);
    UnfoldedLowers();
    var s, c := UNFOLDED.body[0], Entry(P3);
    assert c.scope == {"p", "q", "n"} == c.Readable() by {
      assert P3[0].name == "p" && P3[1].name == "q" && P3[2].name == "n";
    }
    TargetFine(c.scope);
    assert Reads(s.rhs) <= c.scope;
    assert StmtOk(Regs3({}), c, s);
    SingleOk(UNFOLDED);
  }

  lemma CodeEncodes()
    ensures |BumpCode()| <= 100 && forall i :: 0 <= i < |BumpCode()| ==> EncodableImm(BumpCode()[i].imm)
  {
  }

  /** Adding n to the word at q, as `tiara_caa` does. */
  function Bumped(mem: Mem, q: u64, n: u64): Mem { mem[q := Mask64(Load(mem, q) + n)] }

  lemma AddNMeans(vars: Vars, mem: Mem)
    requires "q" in vars && "n" in vars
    ensures Eval(ADD_N, vars, mem) == Ok(Val(Load(mem, vars["q"]), Bumped(mem, vars["q"], vars["n"])))
  {
    assert Eval(Id("q"), vars, mem) == Ok(Val(vars["q"], mem)) && Eval(Id("n"), vars, mem) == Ok(Val(vars["n"], mem));
  }

  lemma UnfoldedSum(vars: Vars, mem: Mem)
    requires "p" in vars && "q" in vars && "n" in vars
    ensures var mem1 := Bumped(mem, vars["q"], vars["n"]);
            var old1 := Load(mem1, Element(vars["p"], Load(mem, vars["q"])));
            Eval(Bin(Plus, TARGET, Id("n")), vars, mem) == Ok(Val(Mask64(old1 + vars["n"]), mem1))
  {
    hide Bumped, Element;
    AddNMeans(vars, mem);
    var mem1 := Bumped(mem, vars["q"], vars["n"]);
    assert Eval(TARGET, vars, mem) == Ok(Val(Load(mem1, Element(vars["p"], Load(mem, vars["q"]))), mem1));
    assert Eval(Id("n"), vars, mem1) == Ok(Val(vars["n"], mem1));
  }

  /** Evaluated once: the counter at q grows by n. */
  lemma BumpsMean(x: u64, y: u64, z: u64, mem: Mem)
    ensures var mem1, r := Bumped(mem, y, z), RunSource(BUMPS, [x, y, z], mem);
            && r.Ok?
            && r.value.mem == mem1[Element(x, Load(mem, y)) := Mask64(Load(mem1, Element(x, Load(mem, y))) + z)]
  {
    hide ExplicitBody, Bind, Element, Eval, Bumped;
    BumpsExplicit();
    ThreeParams(x, y, z);
    var vars := Bind(P3, [x, y, z]);
    var mem1 := Bumped(mem, y, z);
    AddNMeans(vars, mem);
    assert Eval(Id("n"), vars, mem1) == Ok(Val(z, mem1)) by { ReadsBack("n", z, mem1); }
    var env := Env(vars, mem, map[]);
    var at := Element(x, Load(mem, y));
    assert ExecAssign(P3, PlusSet, TARGET, Id("n"), env) == Ok(env.(mem := mem1[at := Mask64(Load(mem1, at) + z)]));
    SingleStatement(BUMPS, BUMPS.body[0], [x, y, z], mem);
  }

  /** Evaluated twice: it grows by n, and by n again. */
  lemma UnfoldedMeans(x: u64, y: u64, z: u64, mem: Mem)
    ensures var mem1, r := Bumped(mem, y, z), RunSource(UNFOLDED, [x, y, z], mem);
            var mem2 := Bumped(mem1, y, z);
            && r.Ok?
            && r.value.mem == mem2[Element(x, Load(mem, y)) := Mask64(Load(mem2, Element(x, Load(mem1, y))) + z)]
  {
    hide ExplicitBody, Bind, Element, Eval, Bumped;
    BumpsExplicit();
    ThreeParams(x, y, z);
    var vars := Bind(P3, [x, y, z]);
    AddNMeans(vars, mem);
    var mem1 := Bumped(mem, y, z);
    UnfoldedSum(vars, mem1);
    var mem2 := Bumped(mem1, y, z);
    var env := Env(vars, mem, map[]);
    var sum := Mask64(Load(mem2, Element(x, Load(mem1, y))) + z);
    assert ExecAssign(P3, Set, TARGET, Bin(Plus, TARGET, Id("n")), env)
        == Ok(env.(mem := mem2[Element(x, Load(mem, y)) := sum]));
    SingleStatement(UNFOLDED, UNFOLDED.body[0], [x, y, z], mem);
  }

  lemma BumpCounts(x: u64, y: u64, z: u64, mem: Mem)
    requires Element(x, Load(mem, y)) != y
    ensures RunSource(BUMPS, [x, y, z], mem).Ok? && RunSource(UNFOLDED, [x, y, z], mem).Ok?
    ensures Load(RunSource(BUMPS, [x, y, z], mem).value.mem, y) == Mask64(Load(mem, y) + z)
    ensures Load(RunSource(UNFOLDED, [x, y, z], mem).value.mem, y) == Mask64(Load(mem, y) + 2 * z)
  {
    hide RunSource, Element, Mask64;
    BumpsMean(x, y, z, mem);
    UnfoldedMeans(x, y, z, mem);
    MaskedSum(z, Load(mem, y) + z);
  }

  /**
   * The target of a compound assignment should be evaluated once; compiled, its `tiara_caa` adds n to the word at q
   * twice, whenever the assignment does not itself store to q.
   */
  lemma IndexEvaluatedTwice(x: u64, y: u64, z: u64, mem: Mem) returns (n: nat)
    requires Element(x, Load(mem, y)) != y
    ensures var r := RunSource(BUMPS, [x, y, z], mem); r.Ok? && Load(r.value.mem, y) == Mask64(Load(mem, y) + z)
    ensures Compile(BUMPS).Ok? && Assemble(Compile(BUMPS).value).Ok?
    ensures var s := Run(Assemble(Compile(BUMPS).value).value.words, Reset([x, y, z], mem), n);
            s.status == Returned && Load(s.d.mem, y) == Mask64(Load(mem, y) + 2 * z)
  {
    hide Assemble, Lowering.Compile, LowerFunction, RunSource, Run, Exec, FuncOk, Reset, Element, Load, Mask64,
         InstrNodes, BumpCode;
    CodeEncodes();
    BumpCounts(x, y, z, mem);
    BumpsUnfolds();
    UnfoldedLowers();
    UnfoldedOk();
    var _ := StraightRuns(UNFOLDED, BumpCode(), 0, [x, y, z], mem);
    n := CompiledMatchesSource(UNFOLDED, [x, y, z], mem);
  }
}
