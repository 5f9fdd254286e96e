/** The virtual machine as a step function on values: what one instruction does to the state. */
module Machine {
  import opened Prelude
  import opened Isa

  // ----- latency model, in cycles -----
  const DISPATCH_BASE := 2
  const CTRL := 8
  const DMA := 150
  const RDMA_RTT := 500
  const DATA_COPY_WORD_CAP := 512

  // ----- memory -----
  type Mem = map<u64, u64>

  function Load(mem: Mem, addr: u64): u64 {
    if addr in mem then mem[addr] else 0
  }

  /** The copy loop from word `i` on: it goes upward, one word at a time. */
  function CopyFrom(mem: Mem, dst: u64, src: u64, i: nat, n: int): Mem
    decreases n - i
  {
    if i >= n then mem
    else CopyFrom(mem[Mask64(dst + i * 8) := Load(mem, Mask64(src + i * 8))], dst, src, i + 1, n)
  }

  function CopyWords(length: int): int { Min(CeilDiv(length, 8), DATA_COPY_WORD_CAP) }

  function Memcpy(mem: Mem, dst: u64, src: u64, length: int): Mem {
    CopyFrom(mem, dst, src, 0, CopyWords(length))
  }

  // ----- arithmetic -----
  function Alu(sub: reg, a: u64, b: u64, imm: int): u64 {
    match sub
    case 0x0 => Mask64(a + b)
    case 0x1 => Mask64(a - b)
    case 0x2 => Bitwise(BAND, a, b)
    case 0x3 => Bitwise(BOR, a, b)
    case 0x4 => Bitwise(BXOR, a, b)
    case 0x5 => ShiftLeft(a, b)
    case 0x6 => ShiftRight(a, b)
    case 0x7 => Mask64(a * b)
    case 0x8 => Mask64(a + imm)
    case 0x9 => Bitwise(BAND, a, imm % 0x100_0000_0000)
    case 0xa => ShiftLeft(a, imm)
    case 0xb => ShiftRight(a, imm)
    case 0xc => Mask64(imm)
    case 0xd => if a == b then 1 else 0
    case 0xe => if a < b then 1 else 0
    case _ => if a >= b then 1 else 0
  }

  // ----- the completion queue of asynchronous copies -----
  predicate Sorted(q: seq<int>) {
    forall i, j :: 0 <= i < j < |q| ==> q[i] <= q[j]
  }

  function Insert(q: seq<int>, c: int): seq<int> {
    if q == [] || c <= q[0] then [c] + q else [q[0]] + Insert(q[1..], c)
  }

  /** Ascending sort. */
  function Sort(q: seq<int>): seq<int> {
    if q == [] then [] else Insert(Sort(q[1..]), q[0])
  }

  /** What draining the queue touches. */
  datatype Pipe = Pipe(inFlight: int, queue: seq<int>, cycles: int)

  /** Retire the earliest completion and wait for it. */
  function Retire(p: Pipe): Pipe
    requires p.queue != []
  {
    Pipe(p.inFlight - 1, p.queue[1..], Max(p.cycles, p.queue[0]))
  }

  /** WAIT: drain while more than `threshold` copies are counted as in flight. */
  function DrainTo(threshold: int, p: Pipe): Pipe
    decreases |p.queue|
  {
    if p.inFlight > threshold && p.queue != [] then DrainTo(threshold, Retire(p)) else p
  }

  /** RET: drain everything. */
  function DrainAll(p: Pipe): Pipe
    decreases |p.queue|
  {
    if p.queue != [] then DrainAll(Retire(p)) else p
  }

  // ----- state -----
  type Regs = s: seq<u64> | |s| == 16 witness seq(16, _ => 0)

  /** Everything but control: registers, memory, flags, timing and results. */
  datatype Data = Data(
    regs: Regs, mem: Mem, flagZ: bool, flagN: bool, pipe: Pipe, retired: nat, result: seq<u64>)

  datatype Frame = Frame(startPc: int, endPc: int, count: u64, remaining: int)

  datatype Status = Running | Returned | Failed

  datatype State = State(d: Data, pc: int, loops: seq<Frame>, status: Status)

  // ----- the effect of one instruction on data -----

  /** r0 is hard-wired to zero. */
  function SetReg(regs: Regs, r: reg, v: u64): Regs {
    if r == 0 then regs else regs[r := v]
  }

  function Spend(d: Data, cycles: int): Data {
    d.(pipe := d.pipe.(cycles := d.pipe.cycles + cycles))
  }

  function AccessCost(addr: u64): int { if Device(addr) != 0 then RDMA_RTT else DMA }

  function EffectiveAddr(base: u64, imm: int): u64 { Mask64(base + imm) }

  function CopyLength(h: Decoded, xrd: reg, regs: Regs): int {
    if LenFromReg(h.sub) then regs[xrd] else h.imm
  }

  /** Set-up latency plus ceil(length / 60.5), the quotient taken exactly. */
  function CopyCost(dst: u64, src: u64, length: int): int {
    (if Device(dst) != 0 || Device(src) != 0 then RDMA_RTT else DMA) + CeilDiv(2 * length, 121)
  }

  function Issue(p: Pipe, cost: int): Pipe {
    var now := p.cycles + CTRL;
    Pipe(Min(MAX_INFLIGHT_PER_TASK, p.inFlight + 1), Sort(p.queue + [now + cost]), now)
  }

  function CopyEffect(h: Decoded, xrd: reg, d: Data): Data {
    var dst, src := d.regs[h.rs1], d.regs[h.rs2];
    var length := CopyLength(h, xrd, d.regs);
    var cost := CopyCost(dst, src, length);
    var d' := d.(mem := Memcpy(d.mem, dst, src, length), regs := SetReg(d.regs, h.rd, 0));
    if IsAsync(h.sub) then d'.(pipe := Issue(d.pipe, cost)) else Spend(d', cost)
  }

  function AluEffect(h: Decoded, d: Data): Data {
    var v := Alu(h.sub, d.regs[h.rs1], d.regs[h.rs2], h.imm);
    Spend(d.(regs := SetReg(d.regs, h.rd, v), flagZ := v == 0, flagN := v >= 0x8000_0000_0000_0000), CTRL)
  }

  /** `xrd` is the register named in the rd slot of the second word. */
  function Work(h: Decoded, xrd: reg, d: Data): Data {
    var a, b := d.regs[h.rs1], d.regs[h.rs2];
    match h.op
    case NOP => Spend(d, CTRL)
    case LOAD =>
      var addr := EffectiveAddr(a, h.imm);
      Spend(d.(regs := SetReg(d.regs, h.rd, Load(d.mem, addr))), AccessCost(addr))
    case STORE =>
      var addr := EffectiveAddr(a, h.imm);
      Spend(d.(mem := d.mem[addr := b]), AccessCost(addr))
    case COMPUTE => AluEffect(h, d)
    case JUMP => Spend(d, CTRL)
    case LOOP => Spend(d, CTRL)
    case WAIT => var d' := Spend(d, CTRL); d'.(pipe := DrainTo(h.imm, d'.pipe))
    case RET =>
      var d' := Spend(d, CTRL);
      d'.(pipe := DrainAll(d'.pipe), result := d.regs[1..5])
    case MEMCPY => CopyEffect(h, xrd, d)
    case CAS =>
      var cur := Load(d.mem, a);
      var d' := d.(regs := SetReg(d.regs, h.rd, cur));
      Spend(if cur == b then d'.(mem := d.mem[a := d.regs[xrd]]) else d', AccessCost(a))
    case CAA =>
      var cur := Load(d.mem, a);
      Spend(d.(regs := SetReg(d.regs, h.rd, cur), mem := d.mem[a := Mask64(cur + b)]), AccessCost(a))
    case ILLEGAL(_) => d
  }

  function Effect(h: Decoded, xrd: reg, d: Data): Data {
    var d' := Work(h, xrd, d);
    d'.(retired := d'.retired + 1)
  }

  // ----- control -----

  type Code = seq<u64>

  function At(code: Code, pc: int): Decoded
    requires 0 <= pc < |code|
  {
    DecodeWord(code[pc])
  }

  /** The fetch succeeds; otherwise the original throws on an undefined word. */
  predicate Fetchable(code: Code, pc: int) {
    0 <= pc && pc < |code| && pc + Width(At(code, pc).op) <= |code|
  }

  function ExtraReg(code: Code, pc: int): reg
    requires Fetchable(code, pc)
  {
    if TwoWord(At(code, pc).op) then At(code, pc + 1).rd else 0
  }

  function EffectAt(code: Code, pc: int, d: Data): Data
    requires Fetchable(code, pc)
  {
    Effect(At(code, pc), ExtraReg(code, pc), d)
  }

  /** Loop bookkeeping at the fall-through pc: iterate the innermost frame that ends here, or pop it and look again. */
  function Resolve(loops: seq<Frame>, np: int): (seq<Frame>, int)
    decreases |loops|
  {
    if loops == [] then (loops, np)
    else
      var below, top := loops[..|loops| - 1], loops[|loops| - 1];
      if np != top.endPc then (loops, np)
      else if top.remaining > 1 then (below + [top.(remaining := top.remaining - 1)], top.startPc)
      else Resolve(below, np)
  }

  /** Arrive at `np`: resolve loops, and fail when past the last word. */
  function Settle(code: Code, loops: seq<Frame>, np: int, d: Data): State {
    var (loops', pc) := Resolve(loops, np);
    State(d, pc, loops', if pc >= |code| then Failed else Running)
  }

  /** The pc before loops are resolved: fall-through, a taken jump, or the end of a body with count zero. */
  function Arrive(h: Decoded, pc: int, regs: Regs): int {
    if h.op.JUMP? && regs[h.rs1] != 0 then pc + h.imm
    else if h.op.LOOP? && regs[h.rs1] == 0 then pc + 1 + h.imm
    else pc + Width(h.op)
  }

  /** A LOOP with a non-zero count opens a frame over its body. */
  function Enter(h: Decoded, pc: int, regs: Regs, loops: seq<Frame>): seq<Frame> {
    if h.op.LOOP? && regs[h.rs1] != 0
    then loops + [Frame(pc + 1, pc + 1 + h.imm, regs[h.rs1], regs[h.rs1])]
    else loops
  }

  function Step(code: Code, s: State): State
    requires Fetchable(code, s.pc)
  {
    var h := At(code, s.pc);
    var d := EffectAt(code, s.pc, s.d);
    match h.op
    case RET => s.(d := d, status := Returned)
    case ILLEGAL(_) => s.(d := d, status := Failed)
    case _ => Settle(code, Enter(h, s.pc, s.d.regs, s.loops), Arrive(h, s.pc, s.d.regs), d)
  }

  /** A live state can take a step. */
  predicate Live(code: Code, s: State) { s.status == Running && Fetchable(code, s.pc) }

  /** At most `n` steps, without any step limit. */
  function Run(code: Code, s: State, n: nat): State
    decreases n
  {
    if n == 0 || !Live(code, s) then s else Run(code, Step(code, s), n - 1)
  }

  lemma {:induction false} RunAdd(code: Code, s: State, m: nat, n: nat)
    ensures Run(code, s, m + n) == Run(code, Run(code, s, m), n)
    decreases m
  {
    hide Step, At;
    if m > 0 && Live(code, s) {
      RunAdd(code, Step(code, s), m - 1, n);
    }
  }

  lemma DeadStays(code: Code, s: State, n: nat)
    requires !Live(code, s)
    ensures Run(code, s, n) == s
  {
  }

  /** Arguments go to r1..r8; everything else starts at zero. */
  function Reset(args: seq<int>, mem: Mem): State {
    var regs := seq(16, i requires 0 <= i < 16 => if 1 <= i <= 8 && i <= |args| then Mask64(args[i - 1]) else 0);
    State(Data(regs, mem, false, false, Pipe(0, [], DISPATCH_BASE), 0, [0, 0, 0, 0]), 0, [], Running)
  }

  lemma ResetShape(args: seq<int>, mem: Mem)
    ensures Reset(args, mem) == State(Reset(args, mem).d, 0, [], Running)
  {
  }
}
