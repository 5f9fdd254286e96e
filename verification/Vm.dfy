/** The virtual machine as an object whose methods update its fields, refining the step function on values. */
module Vm {
  import opened Prelude
  import opened Isa
  import M = Machine
  import opened Machine

  /** Sparse host memory keyed by byte address. */
  class Memory {
    var words: Mem

    constructor ()
      ensures words == map[]
    {
      words := map[];
    }

    method Load64(addr: u64) returns (value: u64)
      ensures value == Load(words, addr)
    {
      value := if addr in words then words[addr] else 0;
    }

    method Store64(addr: u64, value: u64)
      modifies this
      ensures words == old(words)[addr := value]
    {
      words := words[addr := value];
    }
  }

  class VM {
    const code: Code
    const mem: Memory
    const maxSteps: nat
    var regs: array<u64>
    var pc: int
    var flagZ: bool
    var flagN: bool
    var loopStack: seq<Frame>
    var inFlight: int
    var inflightCompletions: seq<int>
    var cycles: int
    var instrRetired: nat
    var halted: bool
    var err: bool
    var result: seq<u64>
    var steps: nat

    predicate Valid()
      reads this, regs
    {
      regs.Length == NUM_REGS
    }

    function Pipe(): Pipe
      reads this
    {
      M.Pipe(inFlight, inflightCompletions, cycles)
    }

    function DataView(): Data
      requires Valid()
      reads this, regs, mem
    {
      Data(regs[..], mem.words, flagZ, flagN, Pipe(), instrRetired, result)
    }

    function View(): State
      requires Valid()
      reads this, regs, mem
    {
      State(DataView(), pc, loopStack, if !halted then Running else if err then Failed else Returned)
    }

    constructor (program: Code, args: seq<int>, memory: Memory, limit: nat)
      ensures Valid() && fresh(regs) && mem == memory && code == program && maxSteps == limit && steps == 0
      ensures !halted && !err
      ensures View() == Reset(args, memory.words)
    {
      code, mem, maxSteps := program, memory, limit;
      regs := new u64[NUM_REGS](_ => 0);
      pc, flagZ, flagN, loopStack := 0, false, false, [];
      inFlight, inflightCompletions, cycles, instrRetired := 0, [], DISPATCH_BASE, 0;
      halted, err, result, steps := false, false, [0, 0, 0, 0], 0;
      new;
      var i := 0;
      while i < 8 && i < |args|
        invariant 0 <= i <= 8 && i <= |args| && Valid()
        invariant forall k :: 0 <= k < 16 ==> regs[k] == (if 1 <= k <= i then Mask64(args[k - 1]) else 0)
        modifies regs
      {
        regs[i + 1] := Mask64(args[i]);
        i := i + 1;
      }
      assert regs[..] == Reset(args, memory.words).d.regs;
    }

    method SetReg(r: reg, value: u64)
      requires Valid()
      modifies regs
      ensures Valid() && regs[..] == M.SetReg(old(regs[..]), r, value)
    {
      if r == 0 { return; }
      regs[r] := value;
    }

    /** The copy loop over the memory map. */
    method DoMemcpy(dst: u64, src: u64, length: int)
      modifies mem
      ensures mem.words == Memcpy(old(mem.words), dst, src, length)
    {
      var nWords := Min(CeilDiv(length, 8), DATA_COPY_WORD_CAP);
      var i: nat := 0;
      while i < nWords
        invariant CopyFrom(mem.words, dst, src, i, nWords) == Memcpy(old(mem.words), dst, src, length)
        decreases nWords - i
      {
        var w := mem.Load64(Mask64(src + i * 8));
        mem.Store64(Mask64(dst + i * 8), w);
        i := i + 1;
      }
    }

    /** Loop bookkeeping at the fall-through pc. */
    method ResolveLoops(fallThrough: int) returns (np: int)
      modifies this`loopStack
      ensures (loopStack, np) == Resolve(old(loopStack), fallThrough)
    {
      np := fallThrough;
      while loopStack != []
        invariant np == fallThrough
        invariant Resolve(loopStack, np) == Resolve(old(loopStack), fallThrough)
        decreases |loopStack|
      {
        var top := loopStack[|loopStack| - 1];
        if np != top.endPc { break; }
        if top.remaining > 1 {
          loopStack := loopStack[..|loopStack| - 1] + [top.(remaining := top.remaining - 1)];
          np := top.startPc;
          return;
        }
        loopStack := loopStack[..|loopStack| - 1];
      }
    }

    method Wait(threshold: int)
      modifies this`cycles, this`inFlight, this`inflightCompletions
      ensures Pipe() == DrainTo(threshold, old(Pipe()).(cycles := old(cycles) + CTRL))
    {
      cycles := cycles + CTRL;
      while inFlight > threshold && inflightCompletions != []
        invariant DrainTo(threshold, Pipe()) == DrainTo(threshold, old(Pipe()).(cycles := old(cycles) + CTRL))
        decreases |inflightCompletions|
      {
        var c := inflightCompletions[0];
        inflightCompletions := inflightCompletions[1..];
        cycles := Max(cycles, c);
        inFlight := inFlight - 1;
      }
    }

    method Return()
      requires Valid()
      modifies this`cycles, this`inFlight, this`inflightCompletions, this`result, this`halted
      ensures Pipe() == DrainAll(old(Pipe()).(cycles := old(cycles) + CTRL))
      ensures result == regs[..][1..5] && halted
    {
      cycles := cycles + CTRL;
      while inflightCompletions != []
        invariant DrainAll(Pipe()) == DrainAll(old(Pipe()).(cycles := old(cycles) + CTRL))
        decreases |inflightCompletions|
      {
        var c := inflightCompletions[0];
        inflightCompletions := inflightCompletions[1..];
        cycles := Max(cycles, c);
        inFlight := inFlight - 1;
      }
      result := [regs[1], regs[2], regs[3], regs[4]];
      halted := true;
    }

    method CopyInstr(h: Decoded, xrd: reg)
      requires Valid() && h.op.MEMCPY?
      modifies mem, regs, this`cycles, this`inFlight, this`inflightCompletions
      ensures Valid() && DataView() == CopyEffect(h, xrd, old(DataView()))
    {
      hide Memcpy, Sort, Device, LenFromReg;
      var dstAddr, srcAddr := regs[h.rs1], regs[h.rs2];
      var length := if LenFromReg(h.sub) then regs[xrd] else h.imm;
      DoMemcpy(dstAddr, srcAddr, length);
      SetReg(h.rd, 0);
      var remote := Device(dstAddr) != 0 || Device(srcAddr) != 0;
      var opCycles := (if remote then RDMA_RTT else DMA) + CeilDiv(2 * length, 121);
      if IsAsync(h.sub) {
        cycles := cycles + CTRL;
        inFlight := Min(MAX_INFLIGHT_PER_TASK, inFlight + 1);
        inflightCompletions := Sort(inflightCompletions + [cycles + opCycles]);
      } else {
        cycles := cycles + opCycles;
      }
    }

    method AtomicInstr(h: Decoded, xrd: reg)
      requires Valid() && (h.op.CAS? || h.op.CAA?)
      modifies mem, regs, this`cycles
      ensures Valid() && DataView() == Work(h, xrd, old(DataView()))
    {
      hide Device, Load, M.SetReg;
      var addr, operand, newVal := regs[h.rs1], regs[h.rs2], regs[xrd];
      var cur := mem.Load64(addr);
      SetReg(h.rd, cur);
      if h.op.CAS? {
        if cur == operand { mem.Store64(addr, newVal); }
      } else {
        mem.Store64(addr, Mask64(cur as int + operand as int));
      }
      cycles := cycles + AccessCost(addr);
    }

    method AccessInstr(h: Decoded, xrd: reg)
      requires Valid() && (h.op.LOAD? || h.op.STORE?)
      modifies mem, regs, this`cycles
      ensures Valid() && DataView() == Work(h, xrd, old(DataView()))
    {
      var addr := Mask64(regs[h.rs1] + h.imm);
      if h.op.LOAD? {
        var value := mem.Load64(addr);
        SetReg(h.rd, value);
      } else {
        mem.Store64(addr, regs[h.rs2]);
      }
      cycles := cycles + AccessCost(addr);
    }

    method ComputeInstr(h: Decoded, xrd: reg)
      requires Valid() && h.op.COMPUTE?
      modifies regs, this`cycles, this`flagZ, this`flagN
      ensures Valid() && DataView() == AluEffect(h, old(DataView()))
    {
      hide Alu;
      var v := Alu(h.sub, regs[h.rs1], regs[h.rs2], h.imm);
      SetReg(h.rd, v);
      flagZ := v == 0;
      flagN := v >= 0x8000_0000_0000_0000;
      cycles := cycles + CTRL;
    }

    /** LOOP: skip the body when the count is zero, otherwise open a frame over it. */
    method BeginLoop(h: Decoded) returns (nextPc: int)
      requires Valid() && h.op.LOOP?
      modifies this`cycles, this`loopStack
      ensures Valid() && cycles == old(cycles) + CTRL
      ensures loopStack == Enter(h, pc, regs[..], old(loopStack)) && nextPc == Arrive(h, pc, regs[..])
    {
      cycles := cycles + CTRL;
      var count := regs[h.rs1];
      var endPc := pc + 1 + h.imm;
      if count == 0 {
        nextPc := endPc;
      } else {
        loopStack := loopStack + [Frame(pc + 1, endPc, count, count)];
        nextPc := pc + 1;
      }
    }

    /** Execute the instruction at the pc; `nextPc` is where it leads before loops are resolved. */
    method Execute(h: Decoded, xrd: reg) returns (nextPc: int)
      requires Valid() && !halted && !err
      modifies this`cycles, this`inFlight, this`inflightCompletions, this`flagZ, this`flagN,
        this`loopStack, this`result, this`halted, this`err, mem, regs
      ensures Valid() && DataView() == Work(h, xrd, old(DataView()))
      ensures loopStack == Enter(h, pc, old(regs[..]), old(loopStack)) && nextPc == Arrive(h, pc, old(regs[..]))
      ensures halted == (h.op.RET? || h.op.ILLEGAL?) && err == h.op.ILLEGAL?
      ensures halted ==> loopStack == old(loopStack)
    {
      hide Memcpy, DrainAll, DrainTo, CopyEffect, AluEffect, AccessCost, Load, EffectiveAddr, Mask64, M.SetReg;
      nextPc := pc + Width(h.op);
      match h.op {
        case NOP => cycles := cycles + CTRL;
        case LOAD => AccessInstr(h, xrd);
        case STORE => AccessInstr(h, xrd);
        case COMPUTE => ComputeInstr(h, xrd);
        case JUMP =>
          cycles := cycles + CTRL;
          if regs[h.rs1] != 0 { nextPc := pc + h.imm; }
        case LOOP => nextPc := BeginLoop(h);
        case WAIT => Wait(h.imm);
        case RET => Return();
        case MEMCPY => CopyInstr(h, xrd);
        case CAS => AtomicInstr(h, xrd);
        case CAA => AtomicInstr(h, xrd);
        case ILLEGAL(_) => halted, err := true, true;
      }
    }

    /** One step; `threw` when the original throws on an undefined word. */
    method Step() returns (threw: bool)
      requires Valid() && (err ==> halted)
      modifies this, mem, regs
      ensures Valid() && (err ==> halted) && regs == old(regs)
      ensures old(halted) ==> View() == old(View()) && steps == old(steps) && !threw
      ensures !old(halted) ==> steps == old(steps) + 1 && threw == !Fetchable(code, old(pc))
      ensures !old(halted) && steps > maxSteps ==> View() == old(View()).(status := Failed)
      ensures !old(halted) && steps <= maxSteps ==>
                View() == (if threw then old(View()) else M.Step(code, old(View())))
    {
      if halted { return false; }
      steps := steps + 1;
      if steps > maxSteps {
        halted, err := true, true;
        return !Fetchable(code, pc);
      }
      if !Fetchable(code, pc) { return true; }
      threw := false;
      StepLive();
    }

    method StepLive()
      requires Valid() && !halted && !err && Fetchable(code, pc)
      modifies this`cycles, this`inFlight, this`inflightCompletions, this`flagZ, this`flagN, this`instrRetired,
        this`loopStack, this`result, this`halted, this`err, this`pc, mem, regs
      ensures Valid() && (err ==> halted) && View() == M.Step(code, old(View()))
    {
      hide At, ExtraReg, Work, Resolve, Arrive, Enter;
      var h, xrd := At(code, pc), ExtraReg(code, pc);
      var nextPc := Execute(h, xrd);
      if !halted {
        pc := ResolveLoops(nextPc);
        if pc >= |code| {
          halted, err := true, true;
        }
      }
      instrRetired := instrRetired + 1;
    }

    /**
     * Run to completion.  The result is the step function iterated as often as the step limit allows: a run still
     * alive then is aborted as failed, and one that reached an undefined word has thrown.
     */
    method Run() returns (threw: bool)
      requires Valid() && (err ==> halted) && steps <= maxSteps
      modifies this, mem, regs
      ensures Valid()
      ensures var r := M.Run(code, old(View()), maxSteps - old(steps));
              && (r.status != Running ==> View() == r && !threw)
              && (Live(code, r) ==> View() == r.(status := Failed) && !threw)
              && (r.status == Running && !Fetchable(code, r.pc) ==> threw)
    {
      hide M.Step, At;
      threw := false;
      while !halted && !threw
        invariant Valid() && (err ==> halted) && regs == old(regs)
        invariant steps <= maxSteps ==>
                    M.Run(code, View(), maxSteps - steps) == M.Run(code, old(View()), maxSteps - old(steps))
        invariant steps <= maxSteps + 1
        invariant !halted && !threw ==> steps <= maxSteps
        invariant threw ==>
          var r := M.Run(code, old(View()), maxSteps - old(steps)); r.status == Running && !Fetchable(code, r.pc)
        invariant halted && !threw ==>
          var r := M.Run(code, old(View()), maxSteps - old(steps));
          View() == r || (Live(code, r) && View() == r.(status := Failed))
        decreases maxSteps + 1 - steps
      {
        threw := Step();
      }
    }
  }
}
