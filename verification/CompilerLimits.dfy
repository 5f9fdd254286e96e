/** Sources on which the compiler departs from C or from its own limits; each breaks a condition of the theorems. */
module CompilerLimits {
  import opened Prelude
  import opened Isa
  import opened Machine
  import opened Assembler
  import opened Ast
  import opened CodeTree
  import opened CodeWords
  import opened Lowering
  import opened Conversions
  import opened Source
  import opened ExprCorrect
  import opened StmtRules
  import opened StmtCorrect
  import opened CompilerCorrect
  import opened CompiledAssembles
  import opened CMeaning

  // ----- shadowing frees the register of an open loop -----

  /** `for (m < n) { for (j < m) { for (m < n) {} } ... }`, the dots being the same again: `k` levels. */
  function Shadowed(k: nat): seq<Stmt> {
    if k == 0 then []
    else [For("m", Id("n"), [For("j", Id("m"), [For("m", Id("n"), [])])] + Shadowed(k - 1))]
  }

  /** What it compiles to from label `l` on: every level has r9 for its own loop. */
  function ShadowedCode(k: nat, l: nat): seq<Node> {
    if k == 0 then []
    else
      [Loop(1, LabelName("for_end", l + 1), [MiddleCode(l + 1)] + ShadowedCode(k - 1, l + 3) + [STEP9])]
  }

  function MiddleCode(l: nat): Node {
    Loop(9, LabelName("for_end", l + 1), [Loop(1, LabelName("for_end", l + 2), [STEP11]), STEP10])
  }

  function OnlyN(l: nat): Alloc { Alloc(map["n" := Sym(1, false)], {}, l) }

  lemma {:induction false} ShadowedNesting(k: nat)
    ensures Nesting(Shadowed(k)) == if k == 0 then 0 else k + 2
  {
    if k > 0 {
      ShadowedNesting(k - 1);
      var inner := For("m", Id("n"), []);
      var middle := For("j", Id("m"), [inner]);
      NestingSingle(inner);
      NestingCons(middle, Shadowed(k - 1));
      NestingSingle(For("m", Id("n"), [middle] + Shadowed(k - 1)));
    }
  }

  lemma NestingSingle(s: Stmt)
    ensures Nesting([s]) == NestingOne(s)
  {
    assert [s][1..] == [];
  }

  lemma NestingCons(s: Stmt, ss: seq<Stmt>)
    ensures Nesting([s] + ss) == Max(NestingOne(s), Nesting(ss))
  {
    hide NestingOne;
    assert ([s] + ss)[1..] == ss;
  }

  lemma BlockSingle(a: Alloc, s: Stmt)
    ensures LowerBlock(a, [s]) == LowerStmt(a, s)
  {
    hide LowerStmt;
    assert [s][1..] == [];
    if LowerStmt(a, s).Ok? {
      var (b, code) := LowerStmt(a, s).value;
      assert code + [] == code;
    }
  }

  const STEP9 := Ins(AluImm(ADDI, 9, 9, 1))
  const STEP10 := Ins(AluImm(ADDI, 10, 10, 1))
  const STEP11 := Ins(AluImm(ADDI, 11, 11, 1))

  const TWO_LOOPS: map<string, Sym> := map["n" := Sym(1, false), "m" := Sym(9, false), "j" := Sym(10, false)]

  /** `for (m < n) {}` inside the two loops takes r11, gives it back, and forgets the outer `m`. */
  lemma InnerLowers(l: nat)
    ensures LowerStmt(Alloc(TWO_LOOPS, {9, 10}, l), For("m", Id("n"), []))
         == Ok((Alloc(TWO_LOOPS - {"m"}, {9, 10}, l + 1), [Loop(1, LabelName("for_end", l + 1), [STEP11])]))
  {
    hide LabelName;
    var a := Alloc(TWO_LOOPS, {9, 10}, l);
    assert FreeUpFrom(a.used, 11) == Ok(11);
    assert FreeUpFrom(a.used, 9) == FreeUpFrom(a.used, 10) == FreeUpFrom(a.used, 11);
    var a1 := AddLocal(a, "m").value.0;
    assert a1 == Alloc(TWO_LOOPS["m" := Sym(11, false)], {9, 10, 11}, l);
    var a2 := Fresh(a1, "for_end").0;
    assert a2.syms["n"].reg == 1;
    assert MaybeFree(a2, 1) == a2;
    assert Free(a2, 11).used == {9, 10};
    assert a2.syms - {"m"} == TWO_LOOPS - {"m"};
    assert [] + [STEP11] == [STEP11];
    assert [] + [Loop(1, LabelName("for_end", l + 1), [STEP11])] == [Loop(1, LabelName("for_end", l + 1), [STEP11])];
  }

  /** `for (j < m)` around it ends by freeing its bound's register r9, which no name stands for any more. */
  lemma MiddleLowers(l: nat)
    ensures LowerStmt(Alloc(TWO_LOOPS - {"j"}, {9}, l), For("j", Id("m"), [For("m", Id("n"), [])]))
         == Ok((OnlyN(l + 2), [MiddleCode(l)]))
  {
    hide LabelName, AddLocal, MaybeFree, Free, LowerBlock;
    MiddleAlloc(l);
    InnerLowers(l + 1);
    BlockSingle(Alloc(TWO_LOOPS, {9, 10}, l + 1), For("m", Id("n"), []));
    var inner := Loop(1, LabelName("for_end", l + 2), [STEP11]);
    assert [inner] + [STEP10] == [inner, STEP10];
    assert [] + [MiddleCode(l)] == [MiddleCode(l)];
  }

  lemma MiddleAlloc(l: nat)
    ensures AddLocal(Alloc(TWO_LOOPS - {"j"}, {9}, l), "j") == Ok((Alloc(TWO_LOOPS, {9, 10}, l), 10))
    ensures var b := Free(MaybeFree(Alloc(TWO_LOOPS - {"m"}, {9, 10}, l + 2), 9), 10);
            b.(syms := b.syms - {"j"}) == OnlyN(l + 2)
  {
    var a, a3 := Alloc(TWO_LOOPS - {"j"}, {9}, l), Alloc(TWO_LOOPS - {"m"}, {9, 10}, l + 2);
    assert FreeUpFrom(a.used, 10) == Ok(10);
    assert FreeUpFrom(a.used, 9) == FreeUpFrom(a.used, 10);
    var a1 := AddLocal(a, "j").value.0;
    assert a1.syms == TWO_LOOPS && a1.used == {9, 10};
    assert !IsSymReg(a3.syms, 9);
    assert Free(MaybeFree(a3, 9), 10).used == {};
    assert a3.syms - {"j"} == map["n" := Sym(1, false)];
  }

  lemma {:induction false} ShadowedLowers(k: nat, l: nat)
    ensures LowerBlock(OnlyN(l), Shadowed(k)) == Ok((OnlyN(l + 3 * k), ShadowedCode(k, l)))
  {
    hide LabelName, LowerStmt, LowerBlock;
    if k > 0 {
      var middle := For("j", Id("m"), [For("m", Id("n"), [])]);
      var code := [MiddleCode(l + 1)];
      ShadowedLowers(k - 1, l + 3);
      MiddleLowers(l + 1);
      BlockCons(Alloc(TWO_LOOPS - {"j"}, {9}, l + 1), middle, Shadowed(k - 1));
      BlockSingle(OnlyN(l), For("m", Id("n"), [middle] + Shadowed(k - 1)));
      OuterLowers(l, [middle] + Shadowed(k - 1), code + ShadowedCode(k - 1, l + 3), l + 3 * k);
    } else {
      NoBlock(OnlyN(l));
    }
  }

  lemma NoBlock(a: Alloc)
    ensures LowerBlock(a, []) == Ok((a, []))
  {
  }

  lemma BlockCons(a: Alloc, s: Stmt, ss: seq<Stmt>)
    requires LowerStmt(a, s).Ok? && LowerBlock(LowerStmt(a, s).value.0, ss).Ok?
    ensures var (a1, first) := LowerStmt(a, s).value;
            var (a2, rest) := LowerBlock(a1, ss).value;
            LowerBlock(a, [s] + ss) == Ok((a2, first + rest))
  {
    hide LowerStmt;
    assert ([s] + ss)[1..] == ss;
  }

  lemma OuterLowers(l: nat, body: seq<Stmt>, code: seq<Node>, m: nat)
    requires LowerBlock(Alloc(TWO_LOOPS - {"j"}, {9}, l + 1), body) == Ok((OnlyN(m), code))
    ensures LowerStmt(OnlyN(l), For("m", Id("n"), body))
         == Ok((OnlyN(m), [Loop(1, LabelName("for_end", l + 1), code + [STEP9])]))
  {
    hide LabelName, LowerBlock;
    var a := OnlyN(l);
    assert FreeUpFrom(a.used, 9) == Ok(9);
    var a1 := AddLocal(a, "m").value.0;
    assert a1 == Alloc(TWO_LOOPS - {"j"}, {9}, l) by { assert a1.syms == TWO_LOOPS - {"j"}; }
    var b := OnlyN(m);
    assert b.syms["n"].reg == 1;
    assert Free(MaybeFree(b, 1), 9) == b && b.syms - {"m"} == b.syms;
    assert [] + [Loop(1, LabelName("for_end", l + 1), code + [STEP9])]
      == [Loop(1, LabelName("for_end", l + 1), code + [STEP9])];
  }

  // ----- the shadowed program assembles -----

  lemma {:induction false} ShadowedFits(k: nat, l: nat)
    ensures var lines := Flatten(ShadowedCode(k, l));
            Size(lines) == 6 * k && forall i :: 0 <= i < |lines| ==> LineFits(lines[i])
  {
    hide LabelName, Size, LineFits, Flatten;
    if k > 0 {
      var body := [MiddleCode(l + 1)] + ShadowedCode(k - 1, l + 3) + [STEP9];
      ShadowedFits(k - 1, l + 3);
      MiddleFits(l + 1);
      InsFits(AluImm(ADDI, 9, 9, 1));
      FlattenAppend([MiddleCode(l + 1)], ShadowedCode(k - 1, l + 3));
      FlattenAppend([MiddleCode(l + 1)] + ShadowedCode(k - 1, l + 3), [STEP9]);
      SizeAppend(Flatten([MiddleCode(l + 1)]), Flatten(ShadowedCode(k - 1, l + 3)));
      SizeAppend(Flatten([MiddleCode(l + 1)]) + Flatten(ShadowedCode(k - 1, l + 3)), Flatten([STEP9]));
      LoopFits(1, LabelName("for_end", l + 1), body);
    } else {
      assert Flatten([]) == [] && Size([]) == 0 by { NoSize(); }
    }
  }

  lemma NoSize()
    ensures Flatten([]) == [] && Size([]) == 0
  {
  }

  lemma MiddleFits(l: nat)
    ensures var lines := Flatten([MiddleCode(l)]);
            Size(lines) == 4 && forall i :: 0 <= i < |lines| ==> LineFits(lines[i])
  {
    hide LabelName, Size, LineFits, Flatten;
    var inner := Loop(1, LabelName("for_end", l + 2), [STEP11]);
    InsFits(AluImm(ADDI, 11, 11, 1));
    LoopFits(1, LabelName("for_end", l + 2), [STEP11]);
    InsFits(AluImm(ADDI, 10, 10, 1));
    FlattenAppend([inner], [STEP10]);
    SizeAppend(Flatten([inner]), Flatten([STEP10]));
    assert [inner] + [STEP10] == [inner, STEP10];
    LoopFits(9, LabelName("for_end", l + 1), [inner, STEP10]);
  }

  lemma InsFits(i: Instr)
    requires !TwoWord(i.op) && EncodableImm(i.imm)
    ensures Flatten([Ins(i)]) == [Line.Op(i, None)] && Size(Flatten([Ins(i)])) == 1 && LineFits(Line.Op(i, None))
  {
    hide Size;
    FlattenIns(i);
    SizeOne(Line.Op(i, None));
  }

  lemma LoopFits(r: reg, end: string, body: seq<Node>)
    requires forall i :: 0 <= i < |Flatten(body)| ==> LineFits(Flatten(body)[i])
    ensures var lines := Flatten([Loop(r, end, body)]);
            Size(lines) == Size(Flatten(body)) + 1 && forall i :: 0 <= i < |lines| ==> LineFits(lines[i])
  {
    hide Size;
    var c := Loop(r, end, body);
    assert [c][1..] == [] && FlattenOne(c) + [] == FlattenOne(c);
    var head := Line.Op(Plain(LOOP, r), Some(end));
    SizeAppend([head] + Flatten(body), [Label(end)]);
    SizeAppend([head], Flatten(body));
    SizeOne(head);
    SizeOne(Label(end));
  }

  /**
   * Shadowing defeats the bound on nesting: for every depth whose code fits the store the compiler and the
   * assembler accept a source that nests as deep, although there are only seven scratch registers.
   */
  lemma ShadowingNestsDeeper(k: nat)
    requires 1 <= k <= 170
    ensures var fn := FuncDef([Param("n", UINT64)], Shadowed(k));
            Compile(fn).Ok? && Assemble(Compile(fn).value).Ok? && Nesting(fn.body) == k + 2
  {
    hide LabelName, Size, LineFits, Flatten, LowerBlock, Assemble, Shadowed, EndsWithRet;
    var params := [Param("n", UINT64)];
    var fn := FuncDef(params, Shadowed(k));
    assert AddArgs(params) == Ok(OnlyN(0)) by {
      assert params[..0] == [];
      assert map[]["n" := Sym(1, false)] == OnlyN(0).syms;
    }
    ShadowedLowers(k, 0);
    ShadowedNesting(k);
    ShadowedFits(k, 0);
    var code := ShadowedCode(k, 0);
    FlattenAppend(code, [Ret(0)]);
    RetFits();
    SizeAppend(Flatten(code), Flatten([Ret(0)]));
    CompiledAssemblesIff(fn);
  }

  lemma RetFits()
    ensures Flatten([Ret(0)]) == [Line.Op(Plain(RET, 0), None)] && Size(Flatten([Ret(0)])) == 1
    ensures LineFits(Line.Op(Plain(RET, 0), None))
  {
    hide Size;
    assert [Ret(0)][1..] == [];
    SizeOne(Line.Op(Plain(RET, 0), None));
  }

  // ----- `<<=` folds to `<`, `>>=` to `>` -----

  /** The compiler emits for `lhs <<= rhs` what it emits for `lhs = lhs < rhs`, and refuses every `>>=`. */
  lemma ShiftAssignsFold(a: Alloc, lhs: Expr, rhs: Expr)
    ensures LowerStmt(a, Assign(ShlSet, lhs, rhs)) == LowerStmt(a, Assign(Set, lhs, Bin(Less, lhs, rhs)))
    ensures LowerStmt(a, Assign(ShrSet, lhs, rhs)).Err?
  {
    hide LowerAddr, Lookup, MaybeFree;
    var greater := Bin(Greater, lhs, rhs);
    assert forall b :: Lower(b, greater).Err? by {
      forall b ensures Lower(b, greater).Err? { GreaterUnsupported(b, lhs, rhs); }
    }
  }

  lemma GreaterUnsupported(a: Alloc, l: Expr, r: Expr)
    ensures Lower(a, Bin(Greater, l, r)).Err?
  {
  }

  /** f(x) { x op 1; return x; } */
  function Shifting(op: AssignOp, rhs: Expr): FuncDef {
    FuncDef([Param("x", UINT64)], [Assign(op, Id("x"), rhs), Return(Some(Id("x")))])
  }

  const LESS_THAN_ONE := Bin(Less, Id("x"), Ast.Const(1))

  function OnlyX(): Alloc { Alloc(map["x" := Sym(1, false)], {}, 0) }

  lemma ArgsX()
    ensures AddArgs([Param("x", UINT64)]) == Ok(OnlyX()) && ParamNames([Param("x", UINT64)]) == {"x"}
  {
    assert [Param("x", UINT64)][..0] == [];
    assert map[]["x" := Sym(1, false)] == OnlyX().syms;
  }

  const COMPARE: seq<Node> := [Ins(AluImm(LI, 15, 0, 1)), Ins(Alu3(LT, 14, 1, 15)), Move(1, 14)]

  lemma CompareLowers()
    ensures LowerStmt(OnlyX(), Assign(Set, Id("x"), LESS_THAN_ONE)) == Ok((OnlyX(), COMPARE))
  {
    var a := OnlyX();
    assert FreeFrom(a.used, 15) == Ok(15);
    var a1 := Temp(a).value.0;
    assert FreeFrom(a1.used, 15) == FreeFrom(a1.used, 14) == Ok(14);
    var a2 := Temp(a1).value.0;
    assert a2.used == {14, 15};
    assert a2.syms["x"].reg == 1;
    assert MaybeFree(a2, 1) == a2 && MaybeFree(a2, 15).used == {14};
    assert Lower(a, LESS_THAN_ONE) == Ok(Lowered(a1.(used := {14}), COMPARE[..2], 14)) by {
      assert [] + [Ins(AluImm(LI, 15, 0, 1))] + [Ins(Alu3(LT, 14, 1, 15))] == COMPARE[..2];
      assert LowerBin(a, LESS_THAN_ONE) == Lower(a, LESS_THAN_ONE);
      assert Lower(a, Id("x")) == Ok(Lowered(a, [], 1));
      assert Lower(a, Ast.Const(1)) == Ok(Lowered(a1, [Ins(AluImm(LI, 15, 0, 1))], 15));
    }
    assert MaybeFree(a1.(used := {14}), 14) == a;
    assert COMPARE[..2] + [Move(1, 14)] == COMPARE;
  }

  /** `x = x < 1; return x;` lowers to four instructions, `x <<= 1; return x;` to the same. */
  lemma BothLower()
    ensures LowerFunction(Shifting(Set, LESS_THAN_ONE)) == Ok(COMPARE + [Ret(1)])
    ensures LowerFunction(Shifting(ShlSet, Ast.Const(1))) == Ok(COMPARE + [Ret(1)])
  {
    hide LowerStmt, LowerBlock, Flatten;
    ArgsX();
    CompareLowers();
    ShiftAssignsFold(OnlyX(), Id("x"), Ast.Const(1));
    var ret := Return(Some(Id("x")));
    ReturnLowers();
    BlockSingle(OnlyX(), ret);
    BlockCons(OnlyX(), Assign(Set, Id("x"), LESS_THAN_ONE), [ret]);
    BlockCons(OnlyX(), Assign(ShlSet, Id("x"), Ast.Const(1)), [ret]);
    assert forall s :: [s] + [ret] == [s, ret];
    FlattenAppend(COMPARE, [Ret(1)]);
    assert Flatten([Ret(1)]) == [Line.Op(Plain(RET, 1), None)] by { FlattenRet(1); }
  }

  lemma ReturnLowers()
    ensures LowerStmt(OnlyX(), Return(Some(Id("x")))) == Ok((OnlyX(), [Ret(1)]))
  {
    var a := OnlyX();
    assert a.syms["x"].reg == 1;
    assert MaybeFree(a, 1) == a;
    assert [] + [] + [Ret(1)] == [Ret(1)];
  }

  lemma CompareFits()
    ensures var lines := Flatten(COMPARE + [Ret(1)]);
            Size(lines) == 4 && forall i :: 0 <= i < |lines| ==> LineFits(lines[i])
  {
    hide Size, LineFits, Flatten;
    InsFits(AluImm(LI, 15, 0, 1));
    InsFits(Alu3(LT, 14, 1, 15));
    InsFits(AluImm(ADDI, 1, 14, 0));
    FlattenRet(1);
    var two := [COMPARE[0]] + [COMPARE[1]];
    FlattenAppend([COMPARE[0]], [COMPARE[1]]);
    FlattenAppend(two, [COMPARE[2]]);
    FlattenAppend(two + [COMPARE[2]], [Ret(1)]);
    assert two + [COMPARE[2]] == COMPARE;
    SizeAppend(Flatten([COMPARE[0]]), Flatten([COMPARE[1]]));
    SizeAppend(Flatten(two), Flatten([COMPARE[2]]));
    SizeAppend(Flatten(COMPARE), Flatten([Ret(1)]));
    SizeOne(Line.Op(Plain(RET, 1), None));
    assert LineFits(Line.Op(Plain(RET, 1), None)) by { RetLineFits(1); }
  }

  lemma RetLineFits(r: reg)
    ensures LineFits(Line.Op(Plain(RET, r), None))
  {
  }

  lemma WordParam(name: string)
    ensures ParamKinds([Param(name, UINT64)]) == Ok(map[name := Word])
  {
    assert [Param(name, UINT64)][..0] == [];
    assert UINT64.names[0] == "uint64_t";
    assert map[][name := Word] == map[name := Word];
  }

  /** Assigning an integer and returning a word needs no conversion. */
  lemma ShiftingExplicit(op: AssignOp, rhs: Expr, k: Kind)
    requires Explicit(map["x" := Word], rhs) == Ok(Typed(rhs, k)) && (k.Word? || k.Natural?)
    ensures ExplicitBody(Shifting(op, rhs)) == Ok(Shifting(op, rhs).body)
  {
    hide Explicit, KindOf;
    WordParam("x");
    var ks: Kinds := map["x" := Word];
    assert Explicit(ks, Id("x")) == Ok(Typed(Id("x"), Word)) by { NameExplicit(ks, "x"); }
    var fn := Shifting(op, rhs);
    assert ExplicitStmt(ks, fn.body[0]) == Ok((fn.body[0], ks));
    assert ExplicitStmt(ks, fn.body[1]) == Ok((fn.body[1], ks));
    NoConversion(ks, ks, fn.body[1], []);
    assert [fn.body[1]] + [] == [fn.body[1]] && [fn.body[0]] + [fn.body[1]] == fn.body;
    NoConversion(ks, ks, fn.body[0], [fn.body[1]]);
  }

  lemma NameExplicit(ks: Kinds, name: string)
    requires name in ks
    ensures Explicit(ks, Id(name)) == Ok(Typed(Id(name), ks[name]))
  {
  }

  /** A statement without conversions before a block without. */
  lemma NoConversion(ks: Kinds, ks1: Kinds, s: Stmt, ss: seq<Stmt>)
    requires ExplicitStmt(ks, s) == Ok((s, ks1)) && ExplicitBlock(ks1, ss) == Ok(ss)
    ensures ExplicitBlock(ks, [s] + ss) == Ok([s] + ss)
  {
    hide ExplicitStmt;
    assert ([s] + ss)[1..] == ss;
  }

  lemma NoConversionArgs(ks: Kinds, e: Expr, es: seq<Expr>)
    requires Explicit(ks, e).Ok? && Explicit(ks, e).value.e == e && ExplicitArgs(ks, es) == Ok(es)
    ensures ExplicitArgs(ks, [e] + es) == Ok([e] + es)
  {
    hide Explicit;
    assert ([e] + es)[1..] == es;
  }

  lemma CompareExplicit()
    ensures Explicit(map["x" := Word], LESS_THAN_ONE) == Ok(Typed(LESS_THAN_ONE, Natural))
    ensures Explicit(map["x" := Word], Ast.Const(1)) == Ok(Typed(Ast.Const(1), Natural))
  {
    var ks: Kinds := map["x" := Word];
    assert Explicit(ks, Id("x")) == Ok(Typed(Id("x"), Word));
  }

  lemma CompareOk()
    ensures FuncOk(Shifting(Set, LESS_THAN_ONE))
  {
    hide LowerStmt, ExplicitBody;
    CompareExplicit();
    ShiftingExplicit(Set, LESS_THAN_ONE, Natural);
    ArgsX();
    CompareLowers();
    ReturnLowers();
    var fn := Shifting(Set, LESS_THAN_ONE);
    var c := Entry(fn.params);
    var c1 := CtxAfter(c, fn.body[0], COMPARE);
    assert c.scope == c1.scope == {"x"} && c.Readable() == {"x"} && c1.Readable() == {"x"};
    assert Reads(LESS_THAN_ONE) == {"x"} && Reads(Id("x")) == {"x"};
    assert StmtOk(OnlyX(), c1, fn.body[1]);
    assert BlockOk(OnlyX(), c1, [fn.body[1]]) by { assert [fn.body[1]][1..] == []; }
    assert fn.body[1..] == [fn.body[1]];
    assert NamesOk(c.scope, fn.body[0]);
    assert StmtOk(OnlyX(), c, fn.body[0]);
  }

  /** What the source means in the two cases. */
  lemma ShiftingMeans(op: AssignOp, rhs: Expr, v: u64, mem: Mem, w: u64)
    requires var value := if op.Set? then rhs else Bin(FoldedMeaning(op), Id("x"), rhs);
             Eval(value, map["x" := v], mem) == Ok(Val(w, mem))
    requires ExplicitBody(Shifting(op, rhs)) == Ok(Shifting(op, rhs).body)
    ensures RunSource(Shifting(op, rhs), [v], mem).Ok?
        && RunSource(Shifting(op, rhs), [v], mem).value.out == map[1 := w]
  {
    hide ExplicitBody, Eval;
    var fn := Shifting(op, rhs);
    assert fn.params[..0] == [];
    assert Bind(fn.params, [v]) == map["x" := v];
    var env := Env(map["x" := v], mem, map[]);
    var env1 := SetVar(fn.params, env, "x", w).value;
    assert Eval(Id("x"), env1.vars, mem) == Ok(Val(w, mem)) by { ReadsBack("x", w, mem); }
    assert ExecStmt(fn.params, fn.body[0], env) == Ok(Done(env1, false));
    assert ExecStmt(fn.params, fn.body[1], env1).value.env.out == map[1 := w];
    assert fn.body[1..] == [fn.body[1]];
    assert ExecBlock(fn.params, [fn.body[1]], env1) == ExecStmt(fn.params, fn.body[1], env1);
  }

  lemma ReadsBack(name: string, v: u64, mem: Mem)
    ensures forall vars: Vars :: name in vars && vars[name] == v ==> Eval(Id(name), vars, mem) == Ok(Val(v, mem))
  {
  }

  lemma ShiftByOne(v: u64, mem: Mem)
    ensures Eval(Bin(ShiftL, Id("x"), Ast.Const(1)), map["x" := v], mem) == Ok(Val(Mask64(2 * v), mem))
    ensures Eval(LESS_THAN_ONE, map["x" := v], mem) == Ok(Val(Truth(v < 1), mem))
  {
    hide Eval, ShiftLeft;
    ShlOne(v);
    var vars: Vars := map["x" := v];
    assert Eval(Id("x"), vars, mem) == Ok(Val(v, mem)) by { ReadsBack("x", v, mem); }
    assert Eval(Ast.Const(1), vars, mem) == Ok(Val(1, mem)) by { OneIs(vars, mem); }
    EvalBin(ShiftL, Id("x"), Ast.Const(1), vars, mem, Val(v, mem), Val(1, mem));
    EvalBin(Less, Id("x"), Ast.Const(1), vars, mem, Val(v, mem), Val(1, mem));
  }

  lemma ShlOne(v: u64)
    ensures ShiftLeft(v, 1) == Mask64(2 * v)
  {
    assert Pow2(1) == 2;
  }

  lemma OneIs(vars: Vars, mem: Mem)
    ensures Eval(Ast.Const(1), vars, mem) == Ok(Val(1, mem))
  {
  }

  lemma SameLowering(f: FuncDef, g: FuncDef)
    requires LowerFunction(f) == LowerFunction(g)
    ensures Compile(f) == Compile(g)
  {
    hide LowerFunction, Flatten;
  }

  /** For every x, `x <<= 1; return x;` should return 2x and returns x < 1: `<<=` has to be excluded. */
  lemma ShlAssignCompares(v: u64, mem: Mem) returns (n: nat)
    ensures var fn := Shifting(ShlSet, Ast.Const(1));
            && RunSource(fn, [v], mem).Ok? && RunSource(fn, [v], mem).value.out == map[1 := Mask64(2 * v)]
            && Compile(fn).Ok? && Assemble(Compile(fn).value).Ok?
            && var s := Run(Assemble(Compile(fn).value).value.words, Reset([v], mem), n);
               s.status == Returned && |s.d.result| == 4 && s.d.result[0] == Truth(v < 1)
  {
    hide Assemble, LowerFunction, Flatten, RunSource, FuncOk, Run, Size, LineFits, Shifting, Reset, ExplicitBody,
         Explicit, Eval, Bitwise;
    var fn, less := Shifting(ShlSet, Ast.Const(1)), Shifting(Set, LESS_THAN_ONE);
    BothLower();
    CompareFits();
    CompiledAssemblesIff(fn);
    CompareOk();
    ShiftByOne(v, mem);
    CompareExplicit();
    ShiftingExplicit(ShlSet, Ast.Const(1), Natural);
    ShiftingExplicit(Set, LESS_THAN_ONE, Natural);
    ShiftingMeans(ShlSet, Ast.Const(1), v, mem, Mask64(2 * v));
    ShiftingMeans(Set, LESS_THAN_ONE, v, mem, Truth(v < 1));
    assert Compile(fn) == Compile(less) by { SameLowering(fn, less); }
    n := CompiledMatchesSource(less, [v], mem);
    assert 1 in RunSource(less, [v], mem).value.out;
  }

  // ----- the induction register is not zeroed -----

  const RECORD := ExprCall(Call("tiara_set_result", [Ast.Const(2), Id("j")]))

  /** f(n) { for (i < n) {} for (j < n) { tiara_set_result(2, j); } } */
  const TWICE := FuncDef([Param("n", UINT64)], [For("i", Id("n"), []), For("j", Id("n"), [RECORD])])

  function TwiceCode(): seq<Node> {
    [Loop(1, LabelName("for_end", 1), [STEP9])] + [Loop(1, LabelName("for_end", 2), [Move(2, 9), STEP9])]
  }

  lemma ArgsN()
    ensures AddArgs(TWICE.params) == Ok(OnlyN(0))
  {
    assert TWICE.params[..0] == [];
    assert map[]["n" := Sym(1, false)] == OnlyN(0).syms;
  }

  /** A `for` bounded by n over a body that keeps the allocator. */
  lemma ForLowers(l: nat, ind: string, body: seq<Stmt>, code: seq<Node>)
    requires ind != "n"
    requires var inside := Alloc(OnlyN(l).syms[ind := Sym(9, false)], {9}, l + 1);
             LowerBlock(inside, body) == Ok((inside, code))
    ensures LowerStmt(OnlyN(l), For(ind, Id("n"), body))
         == Ok((OnlyN(l + 1), [Loop(1, LabelName("for_end", l + 1), code + [STEP9])]))
  {
    hide LabelName, LowerBlock;
    var a := OnlyN(l);
    assert FreeUpFrom(a.used, 9) == Ok(9);
    var inside := Alloc(a.syms[ind := Sym(9, false)], {9}, l + 1);
    assert AddLocal(a, ind).value.0 == inside.(labelId := l);
    assert inside.syms["n"].reg == 1;
    assert MaybeFree(inside, 1) == inside;
    assert Free(inside, 9).(syms := inside.syms - {ind}) == OnlyN(l + 1);
    assert [] + [Loop(1, LabelName("for_end", l + 1), code + [STEP9])]
      == [Loop(1, LabelName("for_end", l + 1), code + [STEP9])];
  }

  lemma RecordLowers(a: Alloc)
    requires "j" in a.syms && a.syms["j"] == Sym(9, false)
    ensures LowerBlock(a, [RECORD]) == Ok((a, [Move(2, 9)]))
  {
    BlockSingle(a, RECORD);
    assert IsSymReg(a.syms, 9);
    assert [] + [Move(2, 9)] == [Move(2, 9)];
  }

  lemma TwiceLowers()
    ensures LowerFunction(TWICE) == Ok(TwiceCode() + [Ret(0)])
  {
    hide LabelName, LowerBlock, LowerStmt, Flatten;
    ArgsN();
    var inside := Alloc(OnlyN(0).syms["i" := Sym(9, false)], {9}, 1);
    NoBlock(inside);
    ForLowers(0, "i", [], []);
    RecordLowers(Alloc(OnlyN(1).syms["j" := Sym(9, false)], {9}, 2));
    ForLowers(1, "j", [RECORD], [Move(2, 9)]);
    BlockSingle(OnlyN(1), TWICE.body[1]);
    BlockCons(OnlyN(0), TWICE.body[0], [TWICE.body[1]]);
    assert [TWICE.body[0]] + [TWICE.body[1]] == TWICE.body;
    assert [] + [STEP9] == [STEP9] && [Move(2, 9)] + [STEP9] == [Move(2, 9), STEP9];
    FlattenAppend(TwiceCode()[..1], TwiceCode()[1..]);
    FlattenLoop(1, LabelName("for_end", 2), [Move(2, 9), STEP9]);
    assert !EndsWithRet(Flatten(TwiceCode()));
  }

  lemma FlattenLoop(r: reg, end: string, body: seq<Node>)
    ensures var lines := Flatten([Loop(r, end, body)]); lines != [] && lines[|lines| - 1] == Label(end)
  {
    assert [Loop(r, end, body)][1..] == [];
  }

  lemma TwiceFits()
    ensures var lines := Flatten(TwiceCode() + [Ret(0)]);
            Size(lines) == 6 && forall i :: 0 <= i < |lines| ==> LineFits(lines[i])
  {
    hide LabelName, Size, LineFits, Flatten;
    var first, second := TwiceCode()[..1], TwiceCode()[1..];
    InsFits(AluImm(ADDI, 9, 9, 1));
    InsFits(AluImm(ADDI, 2, 9, 0));
    LoopFits(1, LabelName("for_end", 1), [STEP9]);
    FlattenAppend([Move(2, 9)], [STEP9]);
    assert [Move(2, 9)] + [STEP9] == [Move(2, 9), STEP9];
    SizeAppend(Flatten([Move(2, 9)]), Flatten([STEP9]));
    LoopFits(1, LabelName("for_end", 2), [Move(2, 9), STEP9]);
    RetFits();
    FlattenAppend(first, second);
    FlattenAppend(TwiceCode(), [Ret(0)]);
    SizeAppend(Flatten(first), Flatten(second));
    SizeAppend(Flatten(TwiceCode()), Flatten([Ret(0)]));
  }

  // what the code does

  lemma StepNine(d: Data)
    ensures !Exec([STEP9], d).returned
    ensures Exec([STEP9], d).d.regs == d.regs[9 := Mask64(d.regs[9] as int + 1)]
  {
    ExecSingleIns(AluImm(ADDI, 9, 9, 1), d);
    AluImmEffectIs(ADDI, 9, 9, 1, d);
  }

  lemma {:induction false} CountUp(n: nat, d: Data)
    ensures var r := Iterate([STEP9], n, d);
            !r.returned && r.d.regs == d.regs[9 := Mask64(d.regs[9] as int + n)]
    decreases n
  {
    hide Exec;
    if n > 0 {
      StepNine(d);
      CountUp(n - 1, Exec([STEP9], d).d);
      MaskedSum(n - 1, d.regs[9] as int + 1);
    }
  }

  lemma RecordStep(d: Data)
    ensures var r := Exec([Move(2, 9), STEP9], d);
            !r.returned && r.d.regs == d.regs[2 := d.regs[9]][9 := Mask64(d.regs[9] as int + 1)]
  {
    hide Exec;
    ExecAppend([Move(2, 9)], [STEP9], d);
    ExecSingle(Move(2, 9), d);
    MoveIs(2, 9, d);
    StepNine(Exec([Move(2, 9)], d).d);
    assert [Move(2, 9)] + [STEP9] == [Move(2, 9), STEP9];
  }

  lemma {:induction false} RecordLast(n: nat, d: Data)
    ensures var r := Iterate([Move(2, 9), STEP9], n, d);
            !r.returned && (n > 0 ==> r.d.regs[2] == Mask64(d.regs[9] as int + n - 1))
    decreases n
  {
    hide Exec;
    if n > 0 {
      RecordStep(d);
      var d1 := Exec([Move(2, 9), STEP9], d).d;
      RecordLast(n - 1, d1);
      MaskedSum(n - 2, d.regs[9] as int + 1);
    }
  }

  lemma TwiceRuns(v: u64, mem: Mem)
    requires v > 0
    ensures var r := Exec(TwiceCode() + [Ret(0)], Reset([v], mem).d);
            r.returned && |r.d.result| == 4 && r.d.result[1] == Mask64(2 * v - 1)
  {
    hide Exec, Iterate, LabelName;
    var d := Reset([v], mem).d;
    assert d.regs[1] == v && d.regs[9] == 0;
    var first, second := TwiceCode()[0], TwiceCode()[1];
    assert TwiceCode() == [first] + [second];
    ExecSingle(first, d);
    LoopIterates(1, LabelName("for_end", 1), [STEP9], d);
    CtrlKeeps(LOOP, 1, d);
    CountUp(v, Ctrl(LOOP, 1, d));
    var d1 := Exec([first], d).d;
    assert d1.regs[1] == v && d1.regs[9] == v;
    ExecSingle(second, d1);
    LoopIterates(1, LabelName("for_end", 2), [Move(2, 9), STEP9], d1);
    CtrlKeeps(LOOP, 1, d1);
    RecordLast(v, Ctrl(LOOP, 1, d1));
    ExecAppend([first], [second], d);
    var d2 := Exec(TwiceCode(), d).d;
    ExecAppend(TwiceCode(), [Ret(0)], d);
    ExecSingle(Ret(0), d2);
    RetRuns(d2);
  }

  lemma RetRuns(d: Data)
    ensures ExecOne(Ret(0), d).returned && ExecOne(Ret(0), d).d.result == d.regs[1..5]
  {
    hide Ctrl;
    CtrlKeeps(RET, 0, d);
  }

  // what the source means

  lemma {:induction false} EmptyFor(k: nat, v: u64, env: Env)
    requires k <= v && "n" in env.vars && env.vars["n"] == v
    ensures var r := ExecFor(TWICE.params, "i", Id("n"), [], k, v, env);
            r == Ok(Done(env.(vars := env.vars - {"i"}), false))
    decreases v - k
  {
    if k < v {
      var env1 := env.(vars := env.vars["i" := k]);
      EmptyFor(k + 1, v, env1);
      assert env1.vars - {"i"} == env.vars - {"i"};
    }
  }

  lemma RecordMeans(k: u64, env: Env)
    requires "j" in env.vars && env.vars["j"] == k
    ensures ExecBlock(TWICE.params, [RECORD], env) == Ok(Done(env.(out := env.out[2 := k]), false))
  {
    var done := ExecStmt(TWICE.params, RECORD, env);
    assert done == Ok(Done(env.(out := env.out[2 := k]), false)) by { assert env.vars - {} == env.vars; }
    assert [RECORD][1..] == [];
  }

  lemma {:induction false} RecordFor(k: nat, v: u64, env: Env)
    requires k < v && "n" in env.vars && env.vars["n"] == v
    ensures var r := ExecFor(TWICE.params, "j", Id("n"), [RECORD], k, v, env);
            r.Ok? && !r.value.returned && 2 in r.value.env.out && r.value.env.out[2] == v - 1
    decreases v - k
  {
    hide ExecBlock;
    var env1 := env.(vars := env.vars["j" := k]);
    RecordMeans(k, env1);
    var env2 := env1.(out := env1.out[2 := k]);
    if k + 1 < v {
      RecordFor(k + 1, v, env2);
    } else {
      assert ExecFor(TWICE.params, "j", Id("n"), [RECORD], v, v, env2)
          == Ok(Done(env2.(vars := env2.vars - {"j"}), false));
    }
  }

  lemma TwiceExplicit()
    ensures ExplicitBody(TWICE) == Ok(TWICE.body)
  {
    WordParam("n");
    var ks: Kinds := map["n" := Word];
    var inside := ks["j" := Natural];
    assert Explicit(inside, Id("j")) == Ok(Typed(Id("j"), Natural));
    assert ExplicitArgs(inside, RECORD.call.args) == Ok(RECORD.call.args) by {
      NoConversionArgs(inside, Id("j"), []);
      assert [Id("j")] + [] == [Id("j")] && [Ast.Const(2)] + [Id("j")] == RECORD.call.args;
      NoConversionArgs(inside, Ast.Const(2), [Id("j")]);
    }
    assert ExplicitStmt(inside, RECORD) == Ok((RECORD, inside));
    NoConversion(inside, inside, RECORD, []);
    assert [RECORD] + [] == [RECORD];
    assert ExplicitStmt(ks, TWICE.body[0]) == Ok((TWICE.body[0], ks));
    assert ExplicitStmt(ks, TWICE.body[1]) == Ok((TWICE.body[1], ks));
    NoConversion(ks, ks, TWICE.body[1], []);
    assert [TWICE.body[1]] + [] == [TWICE.body[1]] && [TWICE.body[0]] + [TWICE.body[1]] == TWICE.body;
    NoConversion(ks, ks, TWICE.body[0], [TWICE.body[1]]);
  }

  lemma TwiceMeans(v: u64, mem: Mem)
    requires v > 0
    ensures var r := RunSource(TWICE, [v], mem); r.Ok? && 2 in r.value.out && r.value.out[2] == v - 1
  {
    hide ExecFor, ExplicitBody;
    TwiceExplicit();
    assert TWICE.params[..0] == [];
    assert Bind(TWICE.params, [v]) == map["n" := v];
    var env := Env(map["n" := v], mem, map[]);
    EmptyFor(0, v, env);
    assert env.(vars := env.vars - {"i"}) == env;
    assert ExecStmt(TWICE.params, TWICE.body[0], env) == Ok(Done(env, false));
    RecordFor(0, v, env);
    assert ExecStmt(TWICE.params, TWICE.body[1], env) == ExecFor(TWICE.params, "j", Id("n"), [RECORD], 0, v, env);
    assert TWICE.body[1..] == [TWICE.body[1]];
    assert ExecBlock(TWICE.params, [TWICE.body[1]], env) == ExecStmt(TWICE.params, TWICE.body[1], env)
      by { assert [TWICE.body[1]][1..] == []; }
  }

  /**
   * A second loop starts its induction variable where the first left the register: for every n > 0 the last j
   * should be n - 1 and is 2n - 1.
   */
  lemma InductionRegisterStale(v: u64, mem: Mem) returns (n: nat)
    requires v > 0
    ensures RunSource(TWICE, [v], mem).Ok? && 2 in RunSource(TWICE, [v], mem).value.out
    ensures RunSource(TWICE, [v], mem).value.out[2] == v - 1
    ensures Compile(TWICE).Ok? && Assemble(Compile(TWICE).value).Ok?
    ensures var s := Run(Assemble(Compile(TWICE).value).value.words, Reset([v], mem), n);
            s.status == Returned && |s.d.result| == 4 && s.d.result[1] == Mask64(2 * v - 1)
  {
    hide Assemble, LowerFunction, Flatten, RunSource, Run, Size, LineFits, Reset, Exec, TwiceCode;
    TwiceMeans(v, mem);
    TwiceLowers();
    TwiceFits();
    CompiledAssemblesIff(TWICE);
    TwiceRuns(v, mem);
    var s0 := Reset([v], mem);
    assert s0 == State(s0.d, 0, [], Running) by { ResetShape([v], mem); }
    n := CompiledHalts(TWICE, s0.d);
  }

  // ----- constants -----

  /**
   * LI loads a constant the encoder accepts as it is exactly when it is below 2^39; from there on it loads v - 2^40.
   */
  lemma ConstantsBelow39Bits(r: reg, v: nat, d: Data)
    requires r != 0 && EncodableImm(v)
    ensures Exec([Ins(AluImm(LI, r, 0, v))], d).d.regs[r] == Mask64(FieldImm(v))
    ensures Exec([Ins(AluImm(LI, r, 0, v))], d).d.regs[r] == v <==> v < 0x80_0000_0000
  {
    hide Exec;
    ExecSingleIns(AluImm(LI, r, 0, v), d);
    if v >= 0x80_0000_0000 {
      DivModUnique(v - 0x100_0000_0000, -1, v - 0x100_0000_0000 + 0x1_0000_0000_0000_0000, 0x1_0000_0000_0000_0000);
    }
  }
}
