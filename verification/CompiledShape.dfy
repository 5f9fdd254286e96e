/** What every compiled program looks like, whatever source it came from. */
module CompiledShape {
  import opened Prelude
  import opened Isa
  import opened Machine
  import opened Structured
  import opened LoopShape
  import opened Verifier
  import opened Assembler
  import opened Ast
  import opened CodeTree
  import opened CodeWords
  import opened Lowering
  import opened ExprCorrect
  import opened StmtRules
  import opened RegisterNeed
  import opened StmtCorrect
  import opened CompilerCorrect

  // ----- references -----

  /** The lines of a tree: a JUMP or LOOP names its label. */
  lemma {:induction false} ControlHasLabel(cs: seq<Node>, line: Line)
    requires Wf(cs) && line in Flatten(cs) && line.Op? && (line.instr.op.JUMP? || line.instr.op.LOOP?)
    ensures line.ref.Some?
    decreases cs
  {
    var c, rest := cs[0], cs[1..];
    assert c in cs && forall x :: x in rest ==> x in cs;
    if line in Flatten(rest) {
      ControlHasLabel(rest, line);
    } else if (c.Loop? || c.Skip?) && line in Flatten(c.body) {
      ControlHasLabel(c.body, line);
    }
  }

  /** A label of a program that ends with an instruction stands before its last word. */
  lemma LabelInside(lines: seq<Line>, name: string)
    requires LayOut(lines).Ok? && EndsWithRet(lines) && name in LayOut(lines).value.labels
    ensures LayOut(lines).value.labels[name] < Size(lines)
  {
    hide LayOut;
    LabelsAreOffsets(lines);
    var j :| 0 <= j < |lines| && lines[j] == Label(name);
    var n := |lines| - 1;
    assert lines[..n] == lines[..j] + lines[j..n];
    SizeAppend(lines[..j], lines[j..n]);
  }

  /** Control words lead forward to a word of the program, and bodies are not empty. */
  predicate ForwardInside(code: Code, entry: (int, Decoded)) {
    var (pc, h) := entry;
    && (h.op.JUMP? ==> h.imm > 0 && pc + h.imm < |code|)
    && (h.op.LOOP? ==> h.imm > 0 && pc + 1 + h.imm < |code|)
  }

  lemma SweepShowsAt(prog: Program, k: nat)
    requires SweepExact(prog) && k < |SweepFrom(prog.words, 0)|
    ensures |SweepFrom(prog.words, 0)| == |prog.instrs|
    ensures SweepFrom(prog.words, 0)[k].1 == Seen(prog.instrs[k])
  {
    hide SweepFrom;
  }

  lemma EntryForward(lines: seq<Line>, cs: seq<Node>, k: nat)
    requires Assemble(lines).Ok? && lines == Flatten(cs) && Wf(cs) && EndsWithRet(lines)
    requires k < |SweepFrom(Assemble(lines).value.words, 0)|
    ensures ForwardInside(Assemble(lines).value.words, SweepFrom(Assemble(lines).value.words, 0)[k])
  {
    hide SweepFrom, Flatten, Wf, Size, Emit, LayOut, Encode, EndToEnd, Patch, SweepExact;
    var prog, l := Assemble(lines).value, LayOut(lines).value;
    SweepIsExact(lines);
    ReferencesAreExact(lines);
    LayOutEndToEnd(lines);
    EmitPlaces(l.pendings, l.labels, l.pc);
    SweepShowsAt(prog, k);
    var p := l.pendings[k];
    PatchKeepsOp(p, l.labels);
    if p.instr.op.JUMP? || p.instr.op.LOOP? {
      var j := PendingFromLine(lines, p);
      ControlHasLabel(cs, lines[j]);
      LabelInside(lines, p.ref.value);
    }
  }

  /**
   * Whatever source the compiler and the assembler accept: every JUMP leads forward to a word of the program,
   * no LOOP body is empty, the program is well nested, and control never runs past the last RET, however it
   * is started.
   */
  lemma CompiledIsAcceptable(fn: FuncDef, d: Data) returns (n: nat)
    requires Compile(fn).Ok? && Assemble(Compile(fn).value).Ok?
    ensures var words := Assemble(Compile(fn).value).value.words;
            && (forall k :: 0 <= k < |SweepFrom(words, 0)| ==> ForwardInside(words, SweepFrom(words, 0)[k]))
            && WellNested(words, 0, |words|)
            && Run(words, State(d, 0, [], Running), n).status == Returned
  {
    hide Assemble, LowerFunction, SweepFrom, ForwardInside, Flatten, Block, Exec;
    var lines, words := Compile(fn).value, Assemble(Compile(fn).value).value.words;
    FunctionWf(fn);
    CompiledRealised(fn);
    forall k | 0 <= k < |SweepFrom(words, 0)| ensures ForwardInside(words, SweepFrom(words, 0)[k]) {
      EntryForward(lines, LowerFunction(fn).value, k);
    }
    n := CompiledHalts(fn, d);
  }

  // ----- loop nesting -----

  /** Loops nest in the words, and frames pile up in every run, no deeper than `for`s nest in the source. */
  lemma FramesWithinSourceNesting(fn: FuncDef, args: seq<int>, mem: Mem, n: nat)
    requires Compile(fn).Ok? && Assemble(Compile(fn).value).Ok?
    ensures var words := Assemble(Compile(fn).value).value.words;
            && WellNested(words, 0, |words|) && NestsWithin(words, 0, |words|, Nesting(fn.body))
            && (var s := Run(words, Reset(args, mem), n); s.status == Running ==> |s.loops| <= Nesting(fn.body))
  {
    hide Assemble, Enclosing, Run, Flatten, LowerBlock, EndsWithRet;
    var words := Assemble(Compile(fn).value).value.words;
    var a := AddArgs(fn.params).value;
    var code := LowerBlock(a, fn.body).value.1;
    CompiledRealised(fn);
    BlockWf(a, fn.body);
    DepthAppend(code, [Ret(0)]);
    DepthSingle(Ret(0));
    CompiledNotEmpty(fn);
    FramesAreEnclosingLoops(words, args, mem, n);
  }

  lemma CompiledNotEmpty(fn: FuncDef)
    requires Compile(fn).Ok? && Assemble(Compile(fn).value).Ok?
    ensures Assemble(Compile(fn).value).value.words != []
  {
    hide LowerFunction, Emit, LayOut, SweepExact, ReferencesExact, LabelsExact, Flatten, Assemble;
    FunctionWf(fn);
    AssembledProgram(Compile(fn).value);
  }

  /** Every open `for` holds a scratch register of its own. */
  lemma {:induction false} ForsHoldRegisters(params: seq<Param>, a: Alloc, scope: set<string>, s: Stmt)
    requires ShapeOk(params, a, scope) && NamesOk(scope, s) && LowerStmt(a, s).Ok?
    ensures |a.used| + NestingOne(s) <= 7
    decreases s, 1
  {
    hide ShapeOk, NamesOk, LowerStmt;
    match s
    case For(_, _, _) => ForHoldsRegister(params, a, scope, s);
    case If(_, _) => IfHoldsRegisters(params, a, scope, s);
    case _ => AtMostSeven(a) by { ShapeOkIs(params, a, scope); }
  }

  lemma ShapeOkIs(params: seq<Param>, a: Alloc, scope: set<string>)
    requires ShapeOk(params, a, scope)
    ensures AllocOk(a)
  {
  }

  lemma {:induction false} ForHoldsRegister(params: seq<Param>, a: Alloc, scope: set<string>, s: Stmt)
    requires s.For? && ShapeOk(params, a, scope) && NamesOk(scope, s) && LowerStmt(a, s).Ok?
    ensures |a.used| + NestingOne(s) <= 7
    decreases s, 0
  {
    hide ParamRegs, Lower, LowerBlock, MaybeFree, AddLocal, Nesting;
    var ind := s.ind;
    AddLocalIs(params, a, scope, ind);
    var (a1, r) := AddLocal(a, ind).value;
    LowerShape(a1, s.bound);
    var n := Lower(a1, s.bound).value;
    var a2 := Fresh(n.a, "for_end").0;
    FreshExtends(params, a1, scope + {ind}, n.a, a2);
    BlockHoldsRegisters(params, a2, scope + {ind}, s.body);
    assert a.used + {r as int} <= a2.used;
    SubsetSize(a.used + {r as int}, a2.used);
  }

  lemma {:induction false} IfHoldsRegisters(params: seq<Param>, a: Alloc, scope: set<string>, s: Stmt)
    requires s.If? && ShapeOk(params, a, scope) && NamesOk(scope, s) && LowerStmt(a, s).Ok?
    ensures |a.used| + NestingOne(s) <= 7
    decreases s, 0
  {
    hide ParamRegs, Lower, LowerBlock, MaybeFree, LowerCondNegated, Nesting;
    if s.cond.Const? && s.cond.v != 0 {
      BlockHoldsRegisters(params, a, scope, s.body);
    } else {
      CondShape(a, s.cond);
      var x := LowerCondNegated(a, s.cond).value;
      var a1 := Fresh(x.a, "if_skip").0;
      FreshFreed(params, a, scope, x, a1);
      BlockHoldsRegisters(params, MaybeFree(a1, x.r), scope, s.body);
      SubsetSize(a.used, MaybeFree(a1, x.r).used);
    }
  }

  lemma {:induction false} BlockHoldsRegisters(params: seq<Param>, a: Alloc, scope: set<string>, ss: seq<Stmt>)
    requires ShapeOk(params, a, scope) && BlockNamesOk(scope, ss) && LowerBlock(a, ss).Ok?
    ensures |a.used| + Nesting(ss) <= 7
    decreases ss, 0
  {
    hide ShapeOk, LowerStmt, NamesOk;
    if ss == [] {
      ShapeAlloc(params, a, scope);
      AtMostSeven(a);
    } else {
      var a1 := LowerStmt(a, ss[0]).value.0;
      ForsHoldRegisters(params, a, scope, ss[0]);
      StmtShape(params, a, scope, ss[0]);
      BlockHoldsRegisters(params, a1, ScopeAfter(scope, ss[0]), ss[1..]);
      SubsetSize(a.used, a1.used);
    }
  }

  /** Without shadowing, what the compiler accepts nests at most seven `for`s, and so does every run. */
  lemma NestingAtMostSeven(fn: FuncDef, args: seq<int>, mem: Mem, n: nat)
    requires Compile(fn).Ok? && Assemble(Compile(fn).value).Ok? && BlockNamesOk(ParamNames(fn.params), fn.body)
    ensures Nesting(fn.body) <= 7
    ensures var s := Run(Assemble(Compile(fn).value).value.words, Reset(args, mem), n);
            s.status == Running ==> |s.loops| <= 7
  {
    hide Assemble, Run, Flatten, LowerBlock, EndsWithRet;
    ArgsShape(fn.params);
    BlockHoldsRegisters(fn.params, AddArgs(fn.params).value, ParamNames(fn.params), fn.body);
    FramesWithinSourceNesting(fn, args, mem, n);
  }
}
