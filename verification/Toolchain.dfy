/** The stages joined: compile, assemble, verify and run, each as its class or loop does it. */
module Toolchain {
  import opened Prelude
  import opened Machine
  import opened Structured
  import opened Verifier
  import opened VerifierSound
  import opened StepBoundSound
  import opened Assembler
  import opened Ast
  import opened Lowering
  import opened Source
  import opened Compiler
  import opened CompilerCorrect
  import opened CompiledBound
  import opened Vm

  /** A run that ends after `n` steps has ended the same way, or is still alive, after `limit`. */
  lemma EndedOrAlive(code: Code, s: State, n: nat, limit: nat)
    requires Run(code, s, n).status != Running
    ensures limit >= n ==> Run(code, s, limit) == Run(code, s, n)
    ensures Run(code, s, limit) == Run(code, s, n) || Live(code, Run(code, s, limit))
  {
    hide Step, At, Run;
    if limit >= n {
      RunAdd(code, s, n, limit - n);
      DeadStays(code, Run(code, s, n), limit - n);
    } else {
      RunAdd(code, s, limit, n - limit);
      if !Live(code, Run(code, s, limit)) { DeadStays(code, Run(code, s, limit), n - limit); }
    }
  }

  /**
   * Compile, assemble and run.  Whatever the source, a program that was built never throws and fails only by the
   * step limit; a source the theorem covers leaves its memory and results unless it was aborted.
   */
  method CompileAndRun(fn: FuncDef, args: seq<int>, memory: Memory, limit: nat)
    returns (built: bool, threw: bool, aborted: bool, result: seq<u64>)
    modifies memory
    ensures !threw
    ensures built <==> Compile(fn).Ok? && Assemble(Compile(fn).value).Ok?
    ensures !built ==> memory.words == old(memory.words)
    ensures built && aborted ==>
              forall n: nat :: n <= limit ==>
                Live(Assemble(Compile(fn).value).value.words,
                     Run(Assemble(Compile(fn).value).value.words, Reset(args, old(memory.words)), n))
    ensures built && !aborted && FuncOk(fn) && RunSource(fn, args, old(memory.words)).Ok? ==>
              var env := RunSource(fn, args, old(memory.words)).value;
              && memory.words == env.mem && |result| == 4
              && forall k :: k in env.out ==> 1 <= k <= 4 && result[k - 1] == env.out[k]
  {
    hide Lowering.Compile, Assemble, Run, Reset, FuncOk, RunSource;
    built, threw, aborted, result := false, false, false, [];
    var compiler := new Compiler();
    var lines := compiler.CompileFunction(fn);
    if lines.Err? { return; }
    var prog := RunAssembler(lines.value);
    if prog.Err? { return; }
    built := true;
    ghost var words := prog.value.words;
    ghost var s0 := Reset(args, memory.words);
    var vm := new VM(prog.value.words, args, memory, limit);
    ResetShape(args, memory.words);
    ghost var n := CompiledHalts(fn, s0.d);
    EndedOrAlive(words, s0, n, limit);
    ghost var mem0 := memory.words;
    threw := vm.Run();
    aborted := vm.err;
    result := vm.result;
    if !aborted && FuncOk(fn) && RunSource(fn, args, mem0).Ok? {
      ghost var m := CompiledMatchesSource(fn, args, mem0);
      SameEnd(words, s0, m, n);
    }
    if aborted {
      forall k: nat | k <= limit ensures Live(words, Run(words, s0, k)) { AliveBefore(words, s0, k, limit); }
    }
  }

  /** Two ended prefixes of a run are the same state. */
  lemma SameEnd(code: Code, s: State, m: nat, n: nat)
    requires Run(code, s, m).status != Running && Run(code, s, n).status != Running
    ensures Run(code, s, m) == Run(code, s, n)
  {
    hide Run;
    if m >= n { EndedOrAlive(code, s, n, m); } else { EndedOrAlive(code, s, m, n); }
  }

  lemma AliveBefore(code: Code, s: State, k: nat, n: nat)
    requires Live(code, Run(code, s, n)) && k <= n
    ensures Live(code, Run(code, s, k))
  {
    hide Run, At;
    RunAdd(code, s, k, n - k);
    if !Live(code, Run(code, s, k)) { DeadStays(code, Run(code, s, k), n - k); }
  }

  /**
   * Verify, then run: a program the verifier accepts, its loop counts untouched and its arguments in bounds, runs
   * to its end whatever the memory if the step limit is no less than maxDynamic, and retires no more than the
   * verifier's bound.
   */
  method VerifyAndRun(code: Code, man: Manifest, args: seq<int>, memory: Memory, limit: nat)
    returns (report: Report, threw: bool, retired: nat)
    modifies memory
    ensures report == Verify(code, man)
    ensures !report.ok ==> memory.words == old(memory.words)
    ensures report.ok && WellNested(code, 0, |code|) && code != [] && CountsUntouched(code)
            && ArgsInBounds(Reset(args, old(memory.words)).d.regs, man.arguments) && limit >= man.maxDynamic ==>
              && report.staticStepBound >= 0 && !threw
              && var s := Run(code, Reset(args, old(memory.words)), report.staticStepBound);
                 && s.status != Running && memory.words == s.d.mem
                 && retired == s.d.retired <= report.staticStepBound <= man.maxDynamic
  {
    hide WellNested, CountsUntouched, Verify, Run, Reset, ArgsInBounds;
    threw, retired := false, 0;
    report := RunVerifier(code, man);
    if !report.ok { return; }
    if WellNested(code, 0, |code|) && code != [] && CountsUntouched(code)
       && ArgsInBounds(Reset(args, memory.words).d.regs, man.arguments) {
      BoundHoldsForArgumentCounts(code, man, args, memory.words);
      EndedOrAlive(code, Reset(args, memory.words), report.staticStepBound, limit);
    }
    var vm := new VM(code, args, memory, limit);
    threw := vm.Run();
    retired := vm.instrRetired;
  }

  /**
   * Compile, verify, run.  A built and accepted program whose source counts its loops to untouched parameters ends
   * under any step limit of at least maxDynamic, within the reported bound; if the compiler's theorem covers the
   * source, with its memory and results.
   */
  method CompileVerifyRun(fn: FuncDef, man: Manifest, args: seq<int>, memory: Memory, limit: nat)
    returns (built: bool, report: Report, aborted: bool, retired: nat, result: seq<u64>)
    modifies memory
    ensures built <==> Compile(fn).Ok? && Assemble(Compile(fn).value).Ok?
    ensures built ==> report == Verify(Assemble(Compile(fn).value).value.words, man)
    ensures !built || !report.ok ==> memory.words == old(memory.words)
    ensures built && report.ok && LoopsCounted(fn) && limit >= man.maxDynamic
            && ArgsInBounds(Reset(args, old(memory.words)).d.regs, man.arguments) ==>
              !aborted && retired <= report.staticStepBound <= man.maxDynamic
    ensures built && report.ok && !aborted && FuncOk(fn) && RunSource(fn, args, old(memory.words)).Ok? ==>
              var env := RunSource(fn, args, old(memory.words)).value;
              && memory.words == env.mem && |result| == 4
              && forall k :: k in env.out ==> 1 <= k <= 4 && result[k - 1] == env.out[k]
  {
    hide Lowering.Compile, Assemble, Run, Reset, FuncOk, RunSource, LoopsCounted, Verify, ArgsInBounds;
    built, report, aborted, retired, result := false, Report(false, 0, 0), false, 0, [];
    var compiler := new Compiler();
    var lines := compiler.CompileFunction(fn);
    if lines.Err? { return; }
    var prog := RunAssembler(lines.value);
    if prog.Err? { return; }
    built := true;
    report := RunVerifier(prog.value.words, man);
    if !report.ok { return; }
    var words := prog.value.words;
    ghost var s0, mem0 := Reset(args, memory.words), memory.words;
    var vm := new VM(words, args, memory, limit);
    ResetShape(args, memory.words);
    ghost var n := CompiledHalts(fn, s0.d);
    EndedOrAlive(words, s0, n, limit);
    if LoopsCounted(fn) && ArgsInBounds(s0.d.regs, man.arguments) {
      CompiledWithinBound(fn, man, args, mem0);
      EndedOrAlive(words, s0, report.staticStepBound, limit);
    }
    var _ := vm.Run();
    aborted, retired, result := vm.err, vm.instrRetired, vm.result;
    if !aborted && FuncOk(fn) && RunSource(fn, args, mem0).Ok? {
      ghost var m := CompiledMatchesSource(fn, args, mem0);
      SameEnd(words, s0, m, n);
    }
  }
}
