/** Compiling, assembling and running a function does what its source means; what compiled code looks like. */
module CompilerCorrect {
  import opened Prelude
  import opened Machine
  import opened Structured
  import opened Assembler
  import opened Ast
  import opened CodeTree
  import opened CodeWords
  import opened Lowering
  import opened Conversions
  import opened Source
  import opened ExprCorrect
  import opened StmtRules
  import opened StmtCorrect

  // ----- entry: parameters in r1..r8 -----

  function ParamNames(params: seq<Param>): set<string> { set p | p in params :: p.name }

  function Entry(params: seq<Param>): Ctx { Ctx(ParamNames(params), {}, {}, true) }

  /** The functions the theorem covers: no conversion changes the body, and its statements are `StmtOk`. */
  predicate FuncOk(fn: FuncDef) {
    && ExplicitBody(fn) == Ok(fn.body)
    && AddArgs(fn.params).Ok? && BlockOk(AddArgs(fn.params).value, Entry(fn.params), fn.body)
  }

  lemma {:induction false} ArgsShape(params: seq<Param>)
    requires AddArgs(params).Ok?
    ensures var a := AddArgs(params).value;
            && ShapeOk(params, a, ParamNames(params)) && a.used == {} && |params| <= 8
            && (forall n :: n in a.syms ==> 1 <= a.syms[n].reg <= |params|)
  {
    hide ShapeOk;
    if params != [] {
      var n := |params| - 1;
      ArgsShape(params[..n]);
      NextArg(params, AddArgs(params[..n]).value, AddArgs(params).value);
    } else {
      assert ShapeOk(params, AddArgs(params).value, {}) by { NoArgs(); }
      assert ParamNames([]) == {};
    }
  }

  lemma NoArgs()
    ensures ShapeOk([], Alloc(map[], {}, 0), {})
  {
  }

  lemma NextArg(params: seq<Param>, a: Alloc, b: Alloc)
    requires params != []
    requires ShapeOk(params[..|params| - 1], a, ParamNames(params[..|params| - 1])) && a.used == {}
    requires forall n :: n in a.syms ==> 1 <= a.syms[n].reg < |params| <= 8
    requires |params| <= 8 && var p := params[|params| - 1]; b == a.(syms := a.syms[p.name := Sym(|params|, p.IsPtr())])
    ensures ShapeOk(params, b, ParamNames(params))
  {
    hide ParamRegs, AllocOk, ParamNames;
    NextArgAlloc(params, a, b);
    NextArgNames(params);
    NextArgRegs(params, a, b);
  }

  lemma NextArgAlloc(params: seq<Param>, a: Alloc, b: Alloc)
    requires params != [] && AllocOk(a) && a.used == {}
    requires forall n :: n in a.syms ==> 1 <= a.syms[n].reg < |params| <= 8
    requires |params| <= 8 && var p := params[|params| - 1]; b == a.(syms := a.syms[p.name := Sym(|params|, p.IsPtr())])
    ensures AllocOk(b)
  {
  }

  lemma NextArgNames(params: seq<Param>)
    requires params != []
    ensures ParamNames(params) == ParamNames(params[..|params| - 1]) + {params[|params| - 1].name}
  {
    var n := |params| - 1;
    assert params == params[..n] + [params[n]];
  }

  lemma NextArgRegs(params: seq<Param>, a: Alloc, b: Alloc)
    requires params != [] && ParamRegs(params[..|params| - 1], a.syms)
    requires |params| <= 8 && var p := params[|params| - 1]; b == a.(syms := a.syms[p.name := Sym(|params|, p.IsPtr())])
    ensures ParamRegs(params, b.syms)
  {
    hide SlotOf;
    var n := |params| - 1;
    forall m | m in b.syms && b.syms[m].reg <= 8
      ensures 1 <= b.syms[m].reg <= |params| && params[b.syms[m].reg - 1].name == m
          && SlotOf(params, m) == b.syms[m].reg
    {
      SlotLast(params, m);
    }
  }

  lemma SlotLast(params: seq<Param>, m: string)
    requires params != []
    ensures var n := |params| - 1;
            SlotOf(params, m) == if params[n].name == m then n + 1 else SlotOf(params[..n], m)
  {
  }

  /** Every variable has a register, and the value of the argument that goes there. */
  predicate ArgsHeld(syms: map<string, Sym>, vars: Vars, args: seq<int>) {
    forall n :: n in vars ==>
      n in syms && 1 <= syms[n].reg
        && vars[n] == (if syms[n].reg <= |args| then Mask64(args[syms[n].reg - 1]) else 0)
  }

  lemma {:induction false} ArgsBound(params: seq<Param>, args: seq<int>)
    requires AddArgs(params).Ok?
    ensures ArgsHeld(AddArgs(params).value.syms, Bind(params, args), args)
  {
    hide ArgsHeld;
    if params == [] {
      assert ArgsHeld(map[], map[], args) by { NoneHeld(args); }
    } else {
      var n := |params| - 1;
      ArgsBound(params[..n], args);
      NextHeld(AddArgs(params[..n]).value.syms, Bind(params[..n], args), args, params[n], n);
    }
  }

  lemma NoneHeld(args: seq<int>)
    ensures ArgsHeld(map[], map[], args)
  {
  }

  lemma NextHeld(syms: map<string, Sym>, vars: Vars, args: seq<int>, p: Param, n: nat)
    requires ArgsHeld(syms, vars, args) && n < 8
    ensures var v: u64 := if n < |args| then Mask64(args[n]) else 0;
            ArgsHeld(syms[p.name := Sym(n + 1, p.IsPtr())], vars[p.name := v], args)
  {
  }

  lemma ResetRegs(args: seq<int>, mem: Mem, r: nat)
    requires r < 16
    ensures Reset(args, mem).d.regs[r] == if 1 <= r <= 8 && r <= |args| then Mask64(args[r - 1]) else 0
  {
  }

  /** A run starts related to the source, its arguments bound to the parameters. */
  lemma EntryRelated(params: seq<Param>, args: seq<int>, mem: Mem)
    requires AddArgs(params).Ok?
    ensures Related(params, AddArgs(params).value, Entry(params), Env(Bind(params, args), mem, map[]),
                    Reset(args, mem).d)
  {
    hide AddArgs, Bind, ShapeOk;
    ArgsShape(params);
    ArgsBound(params, args);
    var (syms, vars) := (AddArgs(params).value.syms, Bind(params, args));
    forall n | n in vars && n in syms ensures Reset(args, mem).d.regs[syms[n].reg] == vars[n] {
      ResetRegs(args, mem, syms[n].reg);
    }
  }

  // ----- exit: compiled code ends with a RET it cannot run past -----

  lemma FlattenOneSome(c: Node)
    ensures FlattenOne(c) != []
  {
    hide Flatten;
  }

  /** Code whose last line is a RET always reaches some RET. */
  lemma {:induction false} LastRetReturns(cs: seq<Node>, d: Data)
    requires Wf(cs) && EndsWithRet(Flatten(cs))
    ensures Exec(cs, d).returned
    decreases |cs|
  {
    hide Effect, Ctrl;
    var c, rest := cs[0], cs[1..];
    assert c in cs && forall x :: x in rest ==> x in cs;
    if rest == [] {
      assert Flatten(cs) == FlattenOne(c);
    } else {
      FlattenOneSome(rest[0]);
      LastRetReturns(rest, ExecOne(c, d).d);
    }
  }

  lemma FunctionWf(fn: FuncDef)
    requires LowerFunction(fn).Ok?
    ensures Wf(LowerFunction(fn).value) && EndsWithRet(Flatten(LowerFunction(fn).value))
  {
    hide LowerBlock;
    var code := LowerBlock(AddArgs(fn.params).value, fn.body).value.1;
    BlockWf(AddArgs(fn.params).value, fn.body);
    FlattenAppend(code, [Ret(0)]);
    FlattenRet(0);
  }

  // ----- meaning preserved -----

  /** The tree of a whole function ends as the interpreter does. */
  lemma FunctionRuns(fn: FuncDef, args: seq<int>, mem: Mem)
    requires LowerFunction(fn).Ok? && FuncOk(fn) && RunSource(fn, args, mem).Ok?
    ensures var r := Exec(LowerFunction(fn).value, Reset(args, mem).d);
            r.returned && Finished(RunSource(fn, args, mem).value, r.d)
  {
    hide Exec, Finished, Related, LowerBlock, ExecBlock, BlockOk, ExecOne, ExplicitBody;
    var a := AddArgs(fn.params).value;
    var d := Reset(args, mem).d;
    EntryRelated(fn.params, args, mem);
    var env := Env(Bind(fn.params, args), mem, map[]);
    StmtCorrect.BlockRuns(fn.params, a, Entry(fn.params), fn.body, env, d);
    var code, done := LowerBlock(a, fn.body).value.1, ExecBlock(fn.params, fn.body, env).value;
    if EndsWithRet(Flatten(code)) {
      BlockWf(a, fn.body);
      LastRetReturns(code, d);
    } else {
      ExecAppend(code, [Ret(0)], d);
      if !done.returned {
        var d1 := Exec(code, d).d;
        ExecSingle(Ret(0), d1);
        assert OutOk(done.env.out, d1.regs) && d1.mem == done.env.mem by {
          RelatedParts(fn.params, LowerBlock(a, fn.body).value.0,
                       Entry(fn.params).(dirty := Entry(fn.params).dirty + Written(code)), done.env, d1);
        }
        RetFinishes(0, done.env, d1);
      }
    }
  }

  lemma RelatedParts(params: seq<Param>, a: Alloc, c: Ctx, env: Env, d: Data)
    requires Related(params, a, c, env, d)
    ensures OutOk(env.out, d.regs) && d.mem == env.mem
  {
  }

  lemma PosZero(lines: seq<Line>)
    ensures Pos(lines, 0) == 0
  {
  }

  /** The words of a compiled function realise its tree. */
  lemma CompiledRealised(fn: FuncDef)
    requires Compile(fn).Ok? && Assemble(Compile(fn).value).Ok?
    ensures var words := Assemble(Compile(fn).value).value.words;
            Realises(words, 0, |words|, LowerFunction(fn).value)
  {
    hide Assemble, Realises, LowerFunction, Size, SweepExact, ReferencesExact, LabelsExact, Flatten;
    var code := LowerFunction(fn).value;
    var lines := Flatten(code);
    FunctionWf(fn);
    assert lines[0..|lines|] == lines;
    TreeRealised(lines, 0, code);
    AssembledProgram(lines);
    assert lines[..|lines|] == lines && lines[..0] == [];
    PosZero(lines);
  }

  /** A compiled program run from any data stops at a RET, as its tree does. */
  lemma CompiledHalts(fn: FuncDef, d: Data) returns (n: nat)
    requires Compile(fn).Ok? && Assemble(Compile(fn).value).Ok?
    ensures var words := Assemble(Compile(fn).value).value.words;
            var s := Run(words, State(d, 0, [], Running), n);
            s.status == Returned && s.d == Exec(LowerFunction(fn).value, d).d
  {
    hide Assemble, LowerFunction, Flatten, Exec, Block;
    var words, code := Assemble(Compile(fn).value).value.words, LowerFunction(fn).value;
    CompiledRealised(fn);
    FunctionWf(fn);
    LastRetReturns(code, d);
    var o := Block(words, 0, |words|, d);
    assert Same(o, Exec(code, d));
    if words == [] { EmptyBlock(words, d); }
    FlatRefinesStructured(words, d);
    n := o.steps;
  }

  lemma EmptyBlock(words: Code, d: Data)
    ensures Block(words, 0, 0, d).stop == Through
  {
  }

  /**
   * The main result: compiled, assembled and run with any arguments on any memory, a function of the subset ends
   * at a RET with the memory the source leaves and every result the source sets, r1 the returned value.
   */
  lemma CompiledMatchesSource(fn: FuncDef, args: seq<int>, mem: Mem) returns (n: nat)
    requires FuncOk(fn) && Compile(fn).Ok? && Assemble(Compile(fn).value).Ok?
    requires RunSource(fn, args, mem).Ok?
    ensures var env := RunSource(fn, args, mem).value;
            var s := Run(Assemble(Compile(fn).value).value.words, Reset(args, mem), n);
            && s.status == Returned && s.d.mem == env.mem && |s.d.result| == 4
            && forall k :: k in env.out ==> 1 <= k <= 4 && s.d.result[k - 1] == env.out[k]
  {
    hide Assemble, LowerFunction, RunSource, FuncOk, Exec;
    FunctionRuns(fn, args, mem);
    n := CompiledHalts(fn, Reset(args, mem).d);
  }
}
