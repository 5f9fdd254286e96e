/**
 * What time a run takes, in cycles and by the addresses it touches: 8 for a control or COMPUTE instruction, 150 for an
 * access on device 0 and 500 for one on any other, the same and a cycle per 60.5 bytes for a copy.
 */
module Clock {
  import opened Prelude
  import opened Isa
  import opened Machine
  import opened Completion

  // ----- near and far -----

  /** An address on device 0. */
  ghost predicate Near(addr: u64) {
    exists region, offset :: MakeAddr(0, region, offset) == Ok(addr)
  }

  lemma NearIs(addr: u64)
    ensures Near(addr) <==> Device(addr) == 0
  {
    hide Device, Region, Offset, MakeAddr;
    MakeAfterSplit(addr);
    if region, offset :| MakeAddr(0, region, offset) == Ok(addr) {
      SplitAfterMake(0, region, offset);
    }
  }

  lemma AccessTime(addr: u64)
    ensures AccessCost(addr) == if Near(addr) then 150 else 500
  {
    hide Near, Device;
    NearIs(addr);
  }

  /** One copy: 150 cycles if both ends are near and 500 otherwise, and a cycle for each 60.5 bytes begun. */
  ghost function CopyTakes(dst: u64, src: u64, length: int): int {
    (if Near(dst) && Near(src) then 150 else 500) + (2 * length + 120) / 121
  }

  /** The cycles of its bytes are the fewest in which 60.5 bytes each make up the length. */
  lemma CopyTime(dst: u64, src: u64, length: int)
    ensures CopyCost(dst, src, length) == CopyTakes(dst, src, length)
    ensures var t := CopyTakes(dst, src, length) - (if Near(dst) && Near(src) then 150 else 500);
            121 * (t - 1) < 2 * length <= 121 * t
  {
    hide Near, Device;
    NearIs(dst);
    NearIs(src);
    var t := (2 * length + 120) / 121;
    DivModUnique(-2 * length, -t, 121 * t - 2 * length, 121);
  }

  // ----- one instruction -----

  /** Instructions by what they cost. */
  datatype Kind = Control | NearAccess | FarAccess | Issuing | Copying(dst: u64, src: u64, length: int) | Nothing

  ghost function Access(addr: u64): Kind { if Near(addr) then NearAccess else FarAccess }

  ghost function KindAt(code: Code, s: State): Kind
    requires Live(code, s)
  {
    var h, regs := At(code, s.pc), s.d.regs;
    match h.op
    case LOAD | STORE => Access((regs[h.rs1] + h.imm) % 0x1_0000_0000_0000_0000)
    case CAS | CAA => Access(regs[h.rs1])
    case MEMCPY =>
      if h.sub % 2 == 1 then Issuing
      else Copying(regs[h.rs1], regs[h.rs2], if h.sub / 2 % 2 == 1 then regs[ExtraReg(code, s.pc)] else h.imm)
    case ILLEGAL(_) => Nothing
    case _ => Control
  }

  /** A WAIT or RET that finds nothing outstanding does not wait. */
  predicate WaitsForNothing(code: Code, s: State)
    requires Live(code, s)
  {
    At(code, s.pc).op.WAIT? || At(code, s.pc).op.RET? ==> s.d.pipe.queue == []
  }

  ghost function Took(kind: Kind): int {
    match kind
    case Control => 8
    case NearAccess => 150
    case FarAccess => 500
    case Issuing => 8
    case Copying(dst, src, length) => CopyTakes(dst, src, length)
    case Nothing => 0
  }

  lemma StepData(code: Code, s: State)
    requires Live(code, s)
    ensures Step(code, s).d == EffectAt(code, s.pc, s.d)
  {
    hide At, EffectAt, Resolve;
  }

  lemma StepTakes(code: Code, s: State)
    requires Live(code, s) && WaitsForNothing(code, s)
    ensures Step(code, s).d.pipe.cycles == s.d.pipe.cycles + Took(KindAt(code, s))
  {
    hide At, Step, EffectAt, ExtraReg, AccessCost, CopyCost, CopyTakes, Near, Sort;
    var h := At(code, s.pc);
    StepData(code, s);
    EffectPipe(code, s.pc, s.d);
    AccessTime(EffectiveAddr(s.d.regs[h.rs1], h.imm));
    AccessTime(s.d.regs[h.rs1]);
    CopyTime(s.d.regs[h.rs1], s.d.regs[h.rs2], CopyLength(h, ExtraReg(code, s.pc), s.d.regs));
  }

  // ----- runs -----

  /** How many instructions of each kind the first `n` steps take, and the time of their blocking copies. */
  datatype Tally = Tally(control: nat, near: nat, far: nat, issued: nat, copying: int)

  ghost function Counted(kind: Kind, t: Tally): Tally {
    match kind
    case Control => t.(control := t.control + 1)
    case NearAccess => t.(near := t.near + 1)
    case FarAccess => t.(far := t.far + 1)
    case Issuing => t.(issued := t.issued + 1)
    case Copying(dst, src, length) => t.(copying := t.copying + CopyTakes(dst, src, length))
    case Nothing => t
  }

  ghost function Count(code: Code, s: State, n: nat): Tally
    decreases n
  {
    if n == 0 || !Live(code, s) then Tally(0, 0, 0, 0, 0)
    else Counted(KindAt(code, s), Count(code, Step(code, s), n - 1))
  }

  /** No step of the run waits. */
  ghost predicate NeverWaits(code: Code, s: State, n: nat) {
    forall k: nat :: k < n && Live(code, Run(code, s, k)) ==> WaitsForNothing(code, Run(code, s, k))
  }

  lemma NeverWaitsNext(code: Code, s: State, n: nat)
    requires n > 0 && NeverWaits(code, s, n) && Live(code, s)
    ensures WaitsForNothing(code, s) && NeverWaits(code, Step(code, s), n - 1)
  {
    hide At, Step, WaitsForNothing;
    assert Run(code, s, 0) == s;
    forall k: nat | k < n - 1 && Live(code, Run(code, Step(code, s), k))
      ensures WaitsForNothing(code, Run(code, Step(code, s), k))
    {
      assert Run(code, Step(code, s), k) == Run(code, s, k + 1);
    }
  }

  lemma {:induction false} RunTakes(code: Code, s: State, n: nat)
    requires NeverWaits(code, s, n)
    ensures var (t, clock) := (Count(code, s, n), Run(code, s, n).d.pipe.cycles);
            clock == s.d.pipe.cycles + 8 * (t.control + t.issued) + 150 * t.near + 500 * t.far + t.copying
    decreases n
  {
    hide At, Step, NeverWaits, KindAt, CopyTakes;
    if n > 0 && Live(code, s) {
      NeverWaitsNext(code, s, n);
      StepTakes(code, s);
      RunTakes(code, Step(code, s), n - 1);
    }
  }

  /**
   * The clock of a run that does not wait for copies: 2 to start, and then each instruction by its kind and the device
   * it addresses.
   */
  lemma ClockOverRuns(code: Code, args: seq<int>, mem: Mem, n: nat)
    requires NeverWaits(code, Reset(args, mem), n)
    ensures var (t, clock) := (Count(code, Reset(args, mem), n), Run(code, Reset(args, mem), n).d.pipe.cycles);
            clock == 2 + 8 * (t.control + t.issued) + 150 * t.near + 500 * t.far + t.copying
  {
    hide Run, Count, NeverWaits;
    RunTakes(code, Reset(args, mem), n);
  }

  /** None of the first `n` steps issues an asynchronous copy. */
  ghost predicate NeverIssues(code: Code, s: State, n: nat) {
    forall k: nat :: k < n && Live(code, Run(code, s, k)) ==> KindAt(code, Run(code, s, k)) != Issuing
  }

  lemma NeverIssuesNext(code: Code, s: State, n: nat)
    requires n > 0 && NeverIssues(code, s, n) && Live(code, s)
    ensures KindAt(code, s) != Issuing && NeverIssues(code, Step(code, s), n - 1)
  {
    hide At, Step, KindAt;
    assert Run(code, s, 0) == s;
    forall k: nat | k < n - 1 && Live(code, Run(code, Step(code, s), k))
      ensures KindAt(code, Run(code, Step(code, s), k)) != Issuing
    {
      assert Run(code, Step(code, s), k) == Run(code, s, k + 1);
    }
  }

  lemma StepKeepsEmpty(code: Code, s: State)
    requires Live(code, s) && s.d.pipe.queue == [] && KindAt(code, s) != Issuing
    ensures Step(code, s).d.pipe.queue == []
  {
    hide At, Step, EffectAt, ExtraReg, AccessCost, CopyCost, Near, Sort;
    StepData(code, s);
    EffectPipe(code, s.pc, s.d);
  }

  lemma {:induction false} NothingToWaitFor(code: Code, s: State, n: nat)
    requires s.d.pipe.queue == [] && NeverIssues(code, s, n)
    ensures NeverWaits(code, s, n) && Count(code, s, n).issued == 0
    decreases n
  {
    hide At, Step, KindAt, NeverIssues;
    if n > 0 && Live(code, s) {
      NeverIssuesNext(code, s, n);
      StepKeepsEmpty(code, s);
      NothingToWaitFor(code, Step(code, s), n - 1);
      forall k: nat | k < n && Live(code, Run(code, s, k)) ensures WaitsForNothing(code, Run(code, s, k)) {
        if k > 0 { assert Run(code, s, k) == Run(code, Step(code, s), k - 1); }
      }
    } else {
      forall k: nat | k < n ensures !Live(code, Run(code, s, k)) { DeadStays(code, s, k); }
    }
  }

  /** A run without asynchronous copies never waits, so its clock is the sum of its costs. */
  lemma ClockWithoutAsync(code: Code, args: seq<int>, mem: Mem, n: nat)
    requires NeverIssues(code, Reset(args, mem), n)
    ensures var (t, clock) := (Count(code, Reset(args, mem), n), Run(code, Reset(args, mem), n).d.pipe.cycles);
            clock == 2 + 8 * t.control + 150 * t.near + 500 * t.far + t.copying
  {
    hide Run, Count, NeverWaits, NeverIssues;
    NothingToWaitFor(code, Reset(args, mem), n);
    ClockOverRuns(code, args, mem, n);
  }

  // ----- asynchronous copies -----

  /** An asynchronous copy is over its own time after its issue, which takes 8 cycles. */
  lemma IssueTimes(code: Code, s: State)
    requires Live(code, s) && At(code, s.pc).op.MEMCPY? && KindAt(code, s) == Issuing
    ensures var (h, p, p') := (At(code, s.pc), s.d.pipe, Step(code, s).d.pipe);
            var length := if h.sub / 2 % 2 == 1 then s.d.regs[ExtraReg(code, s.pc)] else h.imm;
            var done := p.cycles + 8 + CopyTakes(s.d.regs[h.rs1], s.d.regs[h.rs2], length);
            && p'.cycles == p.cycles + 8 && multiset(p'.queue) == multiset(p.queue) + multiset{done} && Sorted(p'.queue)
  {
    hide At, Step, EffectAt, ExtraReg, CopyCost, CopyTakes, Near, Sort;
    StepData(code, s);
    EffectPipe(code, s.pc, s.d);
    CopyTime(s.d.regs[At(code, s.pc).rs1], s.d.regs[At(code, s.pc).rs2],
             CopyLength(At(code, s.pc), ExtraReg(code, s.pc), s.d.regs));
    SortSorts(s.d.pipe.queue + [s.d.pipe.cycles + CTRL + CopyCostOf(At(code, s.pc), ExtraReg(code, s.pc), s.d)]);
  }

  /** RET takes 8 cycles, or until the last outstanding copy is over. */
  lemma ReturnTimes(code: Code, s: State)
    requires Live(code, s) && At(code, s.pc).op.RET? && Sorted(s.d.pipe.queue)
    ensures var (q, p') := (s.d.pipe.queue, Step(code, s).d.pipe);
            && p'.queue == []
            && p'.cycles == (if q == [] then s.d.pipe.cycles + 8 else Max(s.d.pipe.cycles + 8, q[|q| - 1]))
  {
    hide At, Step, EffectAt, Sorted;
    StepData(code, s);
    EffectPipe(code, s.pc, s.d);
    var p := s.d.pipe.(cycles := s.d.pipe.cycles + CTRL);
    DrainAllIs(p);
    RetireManyIs(p, |p.queue|);
    assert p.queue[|p.queue|..] == [];
  }
}
