/**
 * Loops on which the compiler departs from C: LOOP reads its count once, so a body that changes the bound or the
 * induction variable does not change how often it runs.
 */
module LoopDepartures {
  import opened Prelude
  import opened Isa
  import opened Machine
  import opened Assembler
  import opened Ast
  import opened Conversions
  import opened CodeTree
  import opened CodeWords
  import opened Lowering
  import opened Source
  import opened CSource
  import opened ExprCorrect
  import opened StmtCorrect
  import opened CompilerCorrect
  import opened CompiledAssembles
  import opened CompilerLimits
  import opened CompilerDepartures

  // ----- f(n, s) { for (i < n) { first; s++; } return s; } -----

  const P2 := [Param("n", UINT64), Param("s", UINT64)]

  const BUMP := IncDec("s", 1)

  function Counts(first: Stmt): FuncDef {
    FuncDef(P2, [For("i", Id("n"), [first, BUMP]), Return(Some(Id("s")))])
  }

  /** n = 0 */
  const ZERO_BOUND := Assign(Set, Id("n"), Ast.Const(0))

  /** i++ */
  const STEP_AGAIN := IncDec("i", 1)

  function NS(l: nat): Alloc { Alloc(map["n" := Sym(1, false), "s" := Sym(2, false)], {}, l) }

  function Within(l: nat): Alloc { Alloc(NS(l).syms["i" := Sym(9, false)], {9}, l) }

  lemma TwoParams(x: u64, y: u64)
    ensures AddArgs(P2) == Ok(NS(0)) && Bind(P2, [x, y]) == map["n" := x, "s" := y]
    ensures ParamKinds(P2) == Ok(map["n" := Word, "s" := Word])
    ensures SlotOf(P2, "n") == 1 && SlotOf(P2, "s") == 2
  {
    assert P2[..1] == [P2[0]] && P2[..1][..0] == [];
    OneParam("n", UINT64, x);
    assert UINT64.names[0] == "uint64_t" && KindOf(UINT64) == Ok(Word);
    BindPrefix(P2[..1], [x], [x, y]);
    assert SlotOf(P2[..1], "n") == 1;
  }

  const STEP2 := Ins(AluImm(ADDI, 2, 2, 1))

  /** The loop, its body beginning with `code`. */
  function CountsCode(code: seq<Node>): seq<Node> {
    [Loop(1, LabelName("for_end", 1), code + [STEP2] + [STEP9])] + [Move(1, 2)]
  }

  lemma CountsLower(first: Stmt, code: seq<Node>)
    requires LowerStmt(Within(1), first) == Ok((Within(1), code))
    ensures LowerFunction(Counts(first)) == Ok(CountsCode(code) + [Ret(1)])
  {
    hide LabelName, LowerBlock, LowerStmt, Flatten;
    TwoParams(0, 0);
    var loop, ret := Counts(first).body[0], Counts(first).body[1];
    assert LowerStmt(Within(1), BUMP) == Ok((Within(1), [STEP2])) by { BumpLowers(); }
    BlockSingle(Within(1), BUMP);
    BlockCons(Within(1), first, [BUMP]);
    assert [first] + [BUMP] == [first, BUMP];
    CountsLoop(first, code + [STEP2]);
    assert LowerStmt(NS(1), ret) == Ok((NS(1), [Move(1, 2), Ret(1)])) by { ReturnsS(); }
    BlockSingle(NS(1), ret);
    BlockCons(NS(0), loop, [ret]);
    assert [loop] + [ret] == Counts(first).body;
    assert [CountsCode(code)[0]] + [Move(1, 2), Ret(1)] == CountsCode(code) + [Ret(1)];
    WholeFunction(Counts(first), CountsCode(code), 1);
  }

  lemma BumpLowers()
    ensures LowerStmt(Within(1), BUMP) == Ok((Within(1), [STEP2]))
  {
    assert Within(1).syms["s"].reg == 2;
  }

  lemma ReturnsS()
    ensures LowerStmt(NS(1), Return(Some(Id("s")))) == Ok((NS(1), [Move(1, 2), Ret(1)]))
  {
    assert NS(1).syms["s"].reg == 2;
    assert MaybeFree(NS(1), 2) == NS(1);
    assert [] + [Move(1, 2)] + [Ret(1)] == [Move(1, 2), Ret(1)];
  }

  lemma CountsLoop(first: Stmt, code: seq<Node>)
    requires LowerBlock(Within(1), [first, BUMP]) == Ok((Within(1), code))
    ensures LowerStmt(NS(0), For("i", Id("n"), [first, BUMP]))
         == Ok((NS(1), [Loop(1, LabelName("for_end", 1), code + [STEP9])]))
  {
    hide LabelName, LowerBlock;
    assert AddLocal(NS(0), "i") == Ok((Within(0), 9)) by { assert {} + {9} == {9}; }
    assert Within(1).syms["n"].reg == 1;
    assert MaybeFree(Within(1), 1) == Within(1);
    assert Free(Within(1), 9).used == {};
    assert Within(1).syms - {"i"} == NS(1).syms;
    var loop := [Loop(1, LabelName("for_end", 1), code + [STEP9])];
    assert [] + loop == loop;
  }

  lemma BodiesLower()
    ensures LowerStmt(Within(1), ZERO_BOUND) == Ok((Within(1), [Ins(AluImm(LI, 15, 0, 0)), Move(1, 15)]))
    ensures LowerStmt(Within(1), STEP_AGAIN) == Ok((Within(1), [STEP9]))
  {
    var a := Within(1);
    assert a.syms["n"].reg == 1 && a.syms["i"].reg == 9;
    var b := a.(used := {9, 15});
    assert Temp(a) == Ok((b, 15)) by { assert {9} + {15} == {9, 15}; }
    assert MaybeFree(b, 15) == a by { assert !IsSymReg(b.syms, 15) && {9, 15} - {15} == {9}; }
    assert [Ins(AluImm(LI, 15, 0, 0))] + [Move(1, 15)] == [Ins(AluImm(LI, 15, 0, 0)), Move(1, 15)];
  }

  // ----- what the code does -----

  /** Code that adds one to r2 and goes on. */
  ghost predicate AddsOne(code: seq<Node>) {
    forall d: Data {:trigger Exec(code, d)} ::
      !Exec(code, d).returned && Exec(code, d).d.regs[2] == Mask64(d.regs[2] as int + 1)
  }

  lemma {:induction false} AddsMany(code: seq<Node>, n: nat, d: Data)
    requires AddsOne(code)
    ensures !Iterate(code, n, d).returned && Iterate(code, n, d).d.regs[2] == Mask64(d.regs[2] as int + n)
    decreases n
  {
    hide Exec;
    if n > 0 {
      AddsMany(code, n - 1, Exec(code, d).d);
      MaskedSum(n - 1, d.regs[2] as int + 1);
    }
  }

  /** One instruction that leaves r2 alone, one that adds one to it. */
  lemma PlainStep(i: Instr, d: Data)
    requires i.op.COMPUTE? && SignedImm(i.imm) && i.rd != 2 && i.extra.None?
    ensures !Exec([Ins(i)], d).returned && Exec([Ins(i)], d).d.regs[2] == d.regs[2]
  {
    ExecSingleIns(i, d);
    assert Seen(i) == Decoded(COMPUTE, i.rd, i.rs1, i.rs2, i.sub, i.imm);
  }

  lemma BumpStep(d: Data)
    ensures !Exec([STEP2], d).returned && Exec([STEP2], d).d.regs[2] == Mask64(d.regs[2] as int + 1)
  {
    ExecSingleIns(AluImm(ADDI, 2, 2, 1), d);
    AluImmEffectIs(ADDI, 2, 2, 1, d);
  }

  lemma BodyAddsOne(code: seq<Node>)
    requires forall d: Data {:trigger Exec(code, d)} :: !Exec(code, d).returned && Exec(code, d).d.regs[2] == d.regs[2]
    ensures AddsOne(code + [STEP2] + [STEP9])
  {
    hide Exec;
    forall d: Data
      ensures var r := Exec(code + [STEP2] + [STEP9], d); !r.returned && r.d.regs[2] == Mask64(d.regs[2] as int + 1)
    {
      var d1 := Exec(code, d).d;
      ExecSeq(code, [STEP2], d);
      BumpStep(d1);
      ExecSeq(code + [STEP2], [STEP9], d);
      PlainStep(AluImm(ADDI, 9, 9, 1), Exec([STEP2], d1).d);
    }
  }

  lemma CodesKeepSum()
    ensures AddsOne([Ins(AluImm(LI, 15, 0, 0)), Move(1, 15)] + [STEP2] + [STEP9])
    ensures AddsOne([STEP9] + [STEP2] + [STEP9])
  {
    hide Exec, AddsOne;
    var zero := [Ins(AluImm(LI, 15, 0, 0)), Move(1, 15)];
    forall d: Data ensures !Exec(zero, d).returned && Exec(zero, d).d.regs[2] == d.regs[2] {
      assert zero == [zero[0]] + [zero[1]];
      PlainStep(AluImm(LI, 15, 0, 0), d);
      ExecSeq([zero[0]], [zero[1]], d);
      PlainStep(AluImm(ADDI, 1, 15, 0), Exec([zero[0]], d).d);
    }
    forall d: Data ensures !Exec([STEP9], d).returned && Exec([STEP9], d).d.regs[2] == d.regs[2] {
      PlainStep(AluImm(ADDI, 9, 9, 1), d);
    }
    BodyAddsOne(zero);
    BodyAddsOne([STEP9]);
  }

  lemma TwoArgs(x: u64, y: u64, mem: Mem)
    ensures var regs := Reset([x, y], mem).d.regs; regs[1] == x && regs[2] == y
  {
  }

  /** The machine runs the body n times and returns s + n. */
  lemma CountsRun(code: seq<Node>, x: u64, y: u64, mem: Mem)
    requires AddsOne(code + [STEP2] + [STEP9])
    ensures var r := Exec(CountsCode(code) + [Ret(1)], Reset([x, y], mem).d);
            r.returned && |r.d.result| == 4 && r.d.result[0] == Mask64(y + x)
  {
    hide Exec, Iterate, LabelName, AddsOne, Reset;
    var d := Reset([x, y], mem).d;
    TwoArgs(x, y, mem);
    var loop, body := CountsCode(code)[0], code + [STEP2] + [STEP9];
    ExecSingle(loop, d);
    LoopIterates(1, LabelName("for_end", 1), body, d);
    CtrlKeeps(LOOP, 1, d);
    AddsMany(body, x, Ctrl(LOOP, 1, d));
    var d1 := Exec([loop], d).d;
    ExecSeq([loop], [Move(1, 2)], d);
    ExecSingle(Move(1, 2), d1);
    MoveIs(1, 2, d1);
    RetResult(CountsCode(code), 1, d);
  }

  lemma CountsFit(code: seq<Instr>)
    requires |code| <= 2 && forall i :: 0 <= i < |code| ==> EncodableImm(code[i].imm)
    ensures var lines := Flatten(CountsCode(InstrNodes(code)) + [Ret(1)]);
            Size(lines) <= 20 && forall i :: 0 <= i < |lines| ==> LineFits(lines[i])
  {
    hide LabelName, Size, LineFits, Flatten;
    var all := code + [AluImm(ADDI, 2, 2, 1)] + [AluImm(ADDI, 9, 9, 1)];
    assert InstrNodes(all) == InstrNodes(code) + [STEP2] + [STEP9];
    NodesFit(all);
    var loop := CountsCode(InstrNodes(code))[0];
    LoopFits(1, LabelName("for_end", 1), InstrNodes(all));
    InsFits(AluImm(ADDI, 1, 2, 0));
    FlattenAppend([loop], [Move(1, 2)]);
    SizeAppend(Flatten([loop]), Flatten([Move(1, 2)]));
    FlattenAppend(CountsCode(InstrNodes(code)), [Ret(1)]);
    FlattenRet(1);
    SizeAppend(Flatten(CountsCode(InstrNodes(code))), [Line.Op(Plain(RET, 1), None)]);
    SizeOne(Line.Op(Plain(RET, 1), None));
    RetLineFits(1);
  }

  /** Compiled and run, the loop adds n to s whatever its body does to n and i. */
  lemma CountsCompiled(first: Stmt, code: seq<Instr>, x: u64, y: u64, mem: Mem) returns (n: nat)
    requires LowerStmt(Within(1), first) == Ok((Within(1), InstrNodes(code)))
    requires |code| <= 2 && forall i :: 0 <= i < |code| ==> EncodableImm(code[i].imm)
    requires AddsOne(InstrNodes(code) + [STEP2] + [STEP9])
    ensures Compile(Counts(first)).Ok? && Assemble(Compile(Counts(first)).value).Ok?
    ensures var s := Run(Assemble(Compile(Counts(first)).value).value.words, Reset([x, y], mem), n);
            s.status == Returned && |s.d.result| == 4 && s.d.result[0] == Mask64(y + x)
  {
    hide Assemble, LowerFunction, Flatten, Run, Size, LineFits, Reset, Exec, LowerStmt, AddsOne, CountsCode, Counts;
    CountsLower(first, InstrNodes(code));
    CountsFit(code);
    CompiledAssemblesIff(Counts(first));
    CountsRun(InstrNodes(code), x, y, mem);
    var s0 := Reset([x, y], mem);
    assert s0 == State(s0.d, 0, [], Running) by { ResetShape([x, y], mem); }
    n := CompiledHalts(Counts(first), s0.d);
  }

  // ----- what the source means -----

  const OUTSIDE: Kinds := map["n" := Word, "s" := Word]

  const INSIDE: Kinds := OUTSIDE["i" := Natural]

  lemma CountsExplicit(first: Stmt)
    requires ExplicitStmt(INSIDE, first) == Ok((first, INSIDE))
    ensures ExplicitBody(Counts(first)) == Ok(Counts(first).body)
  {
    hide ParamKinds, ExplicitStmt, ExplicitBlock;
    TwoParams(0, 0);
    var loop, ret := Counts(first).body[0], Counts(first).body[1];
    assert ExplicitStmt(OUTSIDE, loop) == Ok((loop, OUTSIDE)) by { LoopExplicit(first); }
    assert ExplicitStmt(OUTSIDE, ret) == Ok((ret, OUTSIDE)) by { ReturnExplicit(); }
    NothingExplicit(OUTSIDE);
    NoConversion(OUTSIDE, OUTSIDE, ret, []);
    assert [ret] + [] == [ret] && [loop] + [ret] == Counts(first).body;
    NoConversion(OUTSIDE, OUTSIDE, loop, [ret]);
    BodyExplicit(Counts(first), OUTSIDE);
  }

  lemma ReturnExplicit()
    ensures var ret := Return(Some(Id("s"))); ExplicitStmt(OUTSIDE, ret) == Ok((ret, OUTSIDE))
  {
  }

  lemma NothingExplicit(ks: Kinds)
    ensures ExplicitBlock(ks, []) == Ok([])
  {
  }

  lemma LoopExplicit(first: Stmt)
    requires ExplicitStmt(INSIDE, first) == Ok((first, INSIDE))
    ensures var loop := For("i", Id("n"), [first, BUMP]); ExplicitStmt(OUTSIDE, loop) == Ok((loop, OUTSIDE))
  {
    hide ExplicitBlock;
    assert ExplicitStmt(INSIDE, BUMP) == Ok((BUMP, INSIDE));
    NothingExplicit(INSIDE);
    NoConversion(INSIDE, INSIDE, BUMP, []);
    assert [BUMP] + [] == [BUMP] && [first] + [BUMP] == [first, BUMP];
    NoConversion(INSIDE, INSIDE, first, [BUMP]);
    assert Explicit(INSIDE, Id("n")) == Ok(Typed(Id("n"), Word));
  }

  /** C's result, from what the loop leaves. */
  lemma CountsMean(first: Stmt, x: u64, y: u64, mem: Mem, sum: u64)
    requires ExplicitBody(Counts(first)) == Ok(Counts(first).body)
    requires var env := Env(map["n" := x, "s" := y, "i" := 0], mem, map[]);
             var r := CFor("i", Id("n"), [first, BUMP], env, MOST_TESTS);
             r.Ok? && !r.value.returned && r.value.env.out == map[] && "s" in r.value.env.vars
               && r.value.env.vars["s"] == sum
    ensures CRun(Counts(first), [x, y], mem).Ok? && CRun(Counts(first), [x, y], mem).value.out == map[1 := sum]
  {
    hide CFor, ExplicitBody, Bind;
    TwoParams(x, y);
    var env := Env(map["n" := x, "s" := y], mem, map[]);
    assert env.vars["i" := 0] == map["n" := x, "s" := y, "i" := 0];
    var loop, ret := Counts(first).body[0], Counts(first).body[1];
    var after := CStmt(loop, env).value.env;
    assert CStmt(ret, after).value.env.out == map[1 := sum];
    CTwo(loop, ret, env);
    assert Counts(first).body == [loop, ret];
    CBody(Counts(first), Counts(first).body, [x, y], mem);
  }

  /** The interpreter fails once the body has run. */
  lemma CountsFail(first: Stmt, x: u64, y: u64, mem: Mem)
    requires x > 0 && ExplicitBody(Counts(first)) == Ok(Counts(first).body)
    requires var env1 := Env(map["n" := x, "s" := y, "i" := 0], mem, map[]);
             ExecBlock(P2, [first, BUMP], env1).Ok? ==>
               var r := ExecBlock(P2, [first, BUMP], env1).value;
               !r.returned && ("i" in r.env.vars && r.env.vars["i"] == 0 ==> "n" in r.env.vars && r.env.vars["n"] == 0)
    ensures RunSource(Counts(first), [x, y], mem).Err?
  {
    hide ExecBlock, ExplicitBody, Bind;
    TwoParams(x, y);
    var env := Env(map["n" := x, "s" := y], mem, map[]);
    var env1 := Env(map["n" := x, "s" := y, "i" := 0], mem, map[]);
    assert env.vars["i" := 0] == env1.vars;
    var loop := Counts(first).body[0];
    assert ExecFor(P2, "i", Id("n"), [first, BUMP], 0, x, env).Err? by { FirstRoundFails(first, x, env, env1); }
    assert ExecStmt(P2, loop, env).Err?;
    BlockFails(P2, Counts(first).body, env);
  }

  lemma BlockFails(params: seq<Param>, ss: seq<Stmt>, env: Env)
    requires ss != [] && ExecStmt(params, ss[0], env).Err?
    ensures ExecBlock(params, ss, env).Err?
  {
    hide ExecStmt;
  }

  lemma FirstRoundFails(first: Stmt, x: u64, env: Env, env1: Env)
    requires x > 0 && env1 == env.(vars := env.vars["i" := 0])
    requires ExecBlock(P2, [first, BUMP], env1).Ok? ==>
               var r := ExecBlock(P2, [first, BUMP], env1).value;
               !r.returned && ("i" in r.env.vars && r.env.vars["i"] == 0 ==> "n" in r.env.vars && r.env.vars["n"] == 0)
    ensures ExecFor(P2, "i", Id("n"), [first, BUMP], 0, x, env).Err?
  {
    hide ExecBlock, ExecFor;
    if ExecFor(P2, "i", Id("n"), [first, BUMP], 0, x, env).Ok? {
      ExecForStep(P2, "i", Id("n"), [first, BUMP], 0, x, env);
      var r := ExecBlock(P2, [first, BUMP], env1).value;
      ExecForStep(P2, "i", Id("n"), [first, BUMP], 1, x, r.env);
    }
  }

  // ----- the bound changed -----

  lemma ZeroRound(x: u64, y: u64, mem: Mem)
    ensures var env := Env(map["n" := x, "s" := y, "i" := 0], mem, map[]);
            var after := Env(map["n" := 0, "s" := Mask64(y as int + 1), "i" := 0], mem, map[]);
            && CBlock([ZERO_BOUND, BUMP], env) == Ok(Done(after, false))
            && ExecBlock(P2, [ZERO_BOUND, BUMP], env) == Ok(Done(after, false))
  {
    hide CStmt, ExecStmt;
    var env := Env(map["n" := x, "s" := y, "i" := 0], mem, map[]);
    var mid := env.(vars := env.vars["n" := 0]);
    ZeroMeans(env);
    IncDecMeans(P2, "s", 1, mid);
    assert mid.vars["s" := Mask64(y as int + 1)] == map["n" := 0, "s" := Mask64(y as int + 1), "i" := 0];
    CTwo(ZERO_BOUND, BUMP, env);
    ExecBlockTwo(P2, ZERO_BOUND, BUMP, env);
  }

  lemma ZeroMeans(env: Env)
    requires env.out == map[]
    ensures CStmt(ZERO_BOUND, env) == ExecStmt(P2, ZERO_BOUND, env) == Ok(Done(env.(vars := env.vars["n" := 0]), false))
  {
    hide SlotOf;
  }

  lemma IncDecMeans(params: seq<Param>, name: string, delta: int, env: Env)
    requires env.out == map[] && name in env.vars
    ensures CStmt(IncDec(name, delta), env) == ExecStmt(params, IncDec(name, delta), env)
         == Ok(Done(env.(vars := env.vars[name := Mask64(env.vars[name] as int + delta)]), false))
  {
    hide SlotOf;
  }

  lemma ExecBlockTwo(params: seq<Param>, s: Stmt, t: Stmt, env: Env)
    ensures var first := ExecStmt(params, s, env);
            && (first.Ok? && !first.value.returned ==>
                  ExecBlock(params, [s, t], env) == ExecStmt(params, t, first.value.env))
  {
    hide ExecStmt;
    assert [s, t][1..] == [t] && [t][1..] == [];
    assert forall e :: ExecBlock(params, [], e) == Ok(Done(e, false));
  }

  lemma NothingLeft(first: Stmt, outer: Vars, inner: Env)
    requires !first.Decl?
    ensures Leave(outer, Declared([first, BUMP]), inner) == inner
  {
    assert [first, BUMP][1..] == [BUMP] && [BUMP][1..] == [];
    assert Declared([]) == {};
    assert Declared([BUMP]) == {} == Declared([first, BUMP]);
    assert inner.vars - {} + map[] == inner.vars;
  }

  /** One turn of the loop in C, and its end. */
  lemma Turns(first: Stmt, env: Env, after: Env, left: nat)
    requires left > 0 && "i" in env.vars && "n" in env.vars && "i" in after.vars && !first.Decl?
    ensures env.vars["i"] >= env.vars["n"] ==> CFor("i", Id("n"), [first, BUMP], env, left) == Ok(Done(env, false))
    ensures env.vars["i"] < env.vars["n"] && CBlock([first, BUMP], env) == Ok(Done(after, false)) ==>
              var next := after.(vars := after.vars["i" := Mask64(after.vars["i"] as int + 1)]);
              CFor("i", Id("n"), [first, BUMP], env, left) == CFor("i", Id("n"), [first, BUMP], next, left - 1)
  {
    hide CFor, CBlock, Leave;
    NothingLeft(first, env.vars, after);
    assert Eval(Id("n"), env.vars, env.mem) == Ok(Val(env.vars["n"], env.mem));
    CForStep("i", Id("n"), [first, BUMP], env, left);
  }

  lemma ZeroLoop(x: u64, y: u64, mem: Mem, left: nat)
    requires left > 1
    ensures var r := CFor("i", Id("n"), [ZERO_BOUND, BUMP], Env(map["n" := x, "s" := y, "i" := 0], mem, map[]), left);
            && r.Ok? && !r.value.returned && r.value.env.out == map[] && "s" in r.value.env.vars
            && r.value.env.vars["s"] == Mask64(y + Min(x, 1))
  {
    hide CFor, CBlock, Mask64;
    var env := Env(map["n" := x, "s" := y, "i" := 0], mem, map[]);
    if x == 0 {
      Turns(ZERO_BOUND, env, env, left);
      MaskedWord(y);
    } else {
      var after := Env(map["n" := 0, "s" := Mask64(y as int + 1), "i" := 0], mem, map[]);
      ZeroRound(x, y, mem);
      Turns(ZERO_BOUND, env, after, left);
      MaskedWord(1);
      ZeroEnds(Env(after.vars["i" := 1], mem, map[]), left - 1);
    }
  }

  lemma ZeroEnds(env: Env, left: nat)
    requires left > 0 && "n" in env.vars && env.vars["n"] == 0 && "i" in env.vars && "s" in env.vars
    ensures var r := CFor("i", Id("n"), [ZERO_BOUND, BUMP], env, left);
            && r.Ok? && !r.value.returned && r.value.env.out == env.out && "s" in r.value.env.vars
            && r.value.env.vars["s"] == env.vars["s"]
  {
    hide CFor, CBlock;
    Turns(ZERO_BOUND, env, env, left);
  }

  lemma ZeroExplicit()
    ensures ExplicitBody(Counts(ZERO_BOUND)) == Ok(Counts(ZERO_BOUND).body)
  {
    hide ExplicitBody;
    assert Explicit(INSIDE, Id("n")) == Ok(Typed(Id("n"), Word));
    assert ExplicitStmt(INSIDE, ZERO_BOUND) == Ok((ZERO_BOUND, INSIDE));
    CountsExplicit(ZERO_BOUND);
  }

  lemma ZeroSource(x: u64, y: u64, mem: Mem)
    ensures x > 0 ==> RunSource(Counts(ZERO_BOUND), [x, y], mem).Err?
    ensures var c := CRun(Counts(ZERO_BOUND), [x, y], mem); c.Ok? && c.value.out == map[1 := Mask64(y + Min(x, 1))]
  {
    hide RunSource, CRun, Counts, CFor, ExecBlock, ExplicitBody, Mask64;
    ZeroExplicit();
    ZeroLoop(x, y, mem, MOST_TESTS);
    CountsMean(ZERO_BOUND, x, y, mem, Mask64(y + Min(x, 1)));
    if x > 0 {
      ZeroRound(x, y, mem);
      CountsFail(ZERO_BOUND, x, y, mem);
    }
  }

  /**
   * `for (i < n) { n = 0; s++; }` runs its body at most once in C and n times compiled.  The two agree exactly when n
   * is at most 1.
   */
  lemma BoundReadOnce(x: u64, y: u64, mem: Mem) returns (n: nat)
    ensures var fn := Counts(ZERO_BOUND);
            && (x > 0 ==> RunSource(fn, [x, y], mem).Err?)
            && CRun(fn, [x, y], mem).Ok? && CRun(fn, [x, y], mem).value.out == map[1 := Mask64(y + Min(x, 1))]
            && Compile(fn).Ok? && Assemble(Compile(fn).value).Ok?
            && var s := Run(Assemble(Compile(fn).value).value.words, Reset([x, y], mem), n);
               && s.status == Returned && |s.d.result| == 4 && s.d.result[0] == Mask64(y + x)
               && (s.d.result[0] == Mask64(y + Min(x, 1)) <==> x <= 1)
  {
    hide Assemble, LowerFunction, RunSource, CRun, Run, Reset, LowerStmt, Lowering.Compile, AddsOne, Counts, Mask64;
    ZeroSource(x, y, mem);
    var code := [AluImm(LI, 15, 0, 0), AluImm(ADDI, 1, 15, 0)];
    assert InstrNodes(code) == [Ins(code[0]), Ins(code[1])];
    BodiesLower();
    CodesKeepSum();
    n := CountsCompiled(ZERO_BOUND, code, x, y, mem);
    SumsDiffer(y, x, Min(x, 1));
  }

  /** Sums modulo 2^64 differ when their second terms do. */
  lemma SumsDiffer(y: u64, a: u64, b: u64)
    ensures Mask64(y + a) == Mask64(y + b) <==> a == b
  {
  }

  // ----- the induction variable changed -----

  lemma StepRound(x: u64, sum: u64, i: u64, mem: Mem)
    ensures var env := Env(map["n" := x, "s" := sum, "i" := i], mem, map[]);
            var after := Env(map["n" := x, "s" := Mask64(sum as int + 1), "i" := Mask64(i as int + 1)], mem, map[]);
            && CBlock([STEP_AGAIN, BUMP], env) == Ok(Done(after, false))
            && ExecBlock(P2, [STEP_AGAIN, BUMP], env) == Ok(Done(after, false))
  {
    hide CStmt, ExecStmt;
    var env := Env(map["n" := x, "s" := sum, "i" := i], mem, map[]);
    var mid := env.(vars := env.vars["i" := Mask64(i as int + 1)]);
    IncDecMeans(P2, "i", 1, env);
    IncDecMeans(P2, "s", 1, mid);
    assert mid.vars["s" := Mask64(sum as int + 1)]
        == map["n" := x, "s" := Mask64(sum as int + 1), "i" := Mask64(i as int + 1)];
    CTwo(STEP_AGAIN, BUMP, env);
    ExecBlockTwo(P2, STEP_AGAIN, BUMP, env);
  }

  /** How often the body still runs when `i` steps twice each time. */
  function Half(x: u64, i: nat): nat { if i >= x then 0 else (x - i + 1) / 2 }

  lemma HalfDone(x: u64, i: nat)
    ensures i >= x ==> Half(x, i) == 0
  {
  }

  lemma HalfNext(x: u64, i: nat)
    requires i < x
    ensures Half(x, i) == Half(x, i + 2) + 1
  {
  }

  lemma {:induction false} StepLoop(x: u64, sum: u64, i: u64, mem: Mem, left: nat)
    requires x < U64_MAX && i <= x + 1 && Half(x, i) < left
    ensures var r := CFor("i", Id("n"), [STEP_AGAIN, BUMP], Env(map["n" := x, "s" := sum, "i" := i], mem, map[]), left);
            && r.Ok? && !r.value.returned && r.value.env.out == map[] && "s" in r.value.env.vars
            && r.value.env.vars["s"] == Mask64(sum + Half(x, i))
    decreases Half(x, i)
  {
    hide CFor, CBlock, Half, Mask64;
    var env := Env(map["n" := x, "s" := sum, "i" := i], mem, map[]);
    if i >= x {
      HalfDone(x, i);
      Turns(STEP_AGAIN, env, env, left);
      MaskedWord(sum);
    } else {
      HalfNext(x, i);
      StepRound(x, sum, i, mem);
      var after := Env(map["n" := x, "s" := Mask64(sum as int + 1), "i" := Mask64(i as int + 1)], mem, map[]);
      Turns(STEP_AGAIN, env, after, left);
      assert Mask64(Mask64(i as int + 1) + 1) == i + 2 by { MaskedWord(i + 1); MaskedWord(i + 2); }
      assert after.vars["i" := i + 2] == map["n" := x, "s" := Mask64(sum as int + 1), "i" := i + 2];
      StepLoop(x, Mask64(sum as int + 1), i + 2, mem, left - 1);
      MaskedSum(Half(x, i + 2), sum as int + 1);
    }
  }

  lemma MaskedWord(v: u64)
    ensures Mask64(v) == v
  {
  }

  lemma StepExplicit()
    ensures ExplicitBody(Counts(STEP_AGAIN)) == Ok(Counts(STEP_AGAIN).body)
  {
    hide ExplicitBody;
    assert ExplicitStmt(INSIDE, STEP_AGAIN) == Ok((STEP_AGAIN, INSIDE));
    CountsExplicit(STEP_AGAIN);
  }

  lemma HalfIs(x: u64)
    ensures Half(x, 0) == CeilDiv(x, 2) && 0 <= CeilDiv(x, 2) <= x && (CeilDiv(x, 2) == x <==> x <= 1)
  {
  }

  lemma StepSource(x: u64, y: u64, mem: Mem)
    ensures x > 0 ==> RunSource(Counts(STEP_AGAIN), [x, y], mem).Err?
    ensures x < U64_MAX ==>
              var c := CRun(Counts(STEP_AGAIN), [x, y], mem);
              c.Ok? && c.value.out == map[1 := Mask64(y + CeilDiv(x, 2))]
  {
    hide RunSource, CRun, Counts, CFor, ExecBlock, ExplicitBody, Mask64, Half, CeilDiv;
    StepExplicit();
    HalfIs(x);
    if x < U64_MAX {
      StepLoop(x, y, 0, mem, MOST_TESTS);
      CountsMean(STEP_AGAIN, x, y, mem, Mask64(y + CeilDiv(x, 2)));
    }
    if x > 0 {
      StepRound(x, y, 0, mem);
      MaskedWord(1);
      CountsFail(STEP_AGAIN, x, y, mem);
    }
  }

  /**
   * `for (i < n) { i++; s++; }` runs its body ceil(n / 2) times in C, for every n the variable does not overflow on,
   * and n times compiled.  The two agree exactly when n is at most 1.
   */
  lemma StepsIgnored(x: u64, y: u64, mem: Mem) returns (n: nat)
    ensures var fn := Counts(STEP_AGAIN);
            && (x > 0 ==> RunSource(fn, [x, y], mem).Err?)
            && (x < U64_MAX ==>
                  CRun(fn, [x, y], mem).Ok? && CRun(fn, [x, y], mem).value.out == map[1 := Mask64(y + CeilDiv(x, 2))])
            && Compile(fn).Ok? && Assemble(Compile(fn).value).Ok?
            && var s := Run(Assemble(Compile(fn).value).value.words, Reset([x, y], mem), n);
               && s.status == Returned && |s.d.result| == 4 && s.d.result[0] == Mask64(y + x)
               && (s.d.result[0] == Mask64(y + CeilDiv(x, 2)) <==> x <= 1)
  {
    hide Assemble, LowerFunction, RunSource, CRun, Run, Reset, LowerStmt, Lowering.Compile, AddsOne, Counts, Mask64,
         CeilDiv;
    StepSource(x, y, mem);
    HalfIs(x);
    var code := [AluImm(ADDI, 9, 9, 1)];
    assert InstrNodes(code) == [STEP9];
    BodiesLower();
    CodesKeepSum();
    n := CountsCompiled(STEP_AGAIN, code, x, y, mem);
    SumsDiffer(y, x, CeilDiv(x, 2));
  }
}
