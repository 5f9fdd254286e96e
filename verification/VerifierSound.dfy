/**
 * Soundness of the verifier's abstract domain: abstract registers that every edge of the control flow respects bound
 * the registers of every run, so base registers checked against them lie in declared regions.  The verifier's own
 * linear scan is such an annotation on programs whose edges respect it.
 */
module VerifierSound {
  import opened Prelude
  import opened Isa
  import opened Machine
  import opened Verifier

  // ----- what the linear sweep sees -----

  /** The sweep from `pc` visits `t` (the end of the code counts). */
  predicate Swept(code: Code, pc: nat, t: int)
    decreases |code| - pc
  {
    pc == t || (pc < |code| && Swept(code, pc + Width(At(code, pc).op), t))
  }

  /** Abstract registers when the sweep reaches `t`. */
  function AbsFrom(code: Code, pc: nat, abs: AbsRegs, t: int): AbsRegs
    requires Swept(code, pc, t)
    decreases |code| - pc
  {
    if pc == t then abs
    else AbsFrom(code, pc + Width(At(code, pc).op), AbsStep(At(code, pc), abs), t)
  }

  function AbsAt(code: Code, man: Manifest, t: int): AbsRegs
    requires Swept(code, 0, t)
  {
    AbsFrom(code, 0, InitialAbs(man.arguments), t)
  }

  lemma {:induction false} SweptNext(code: Code, pc: nat, abs: AbsRegs, t: int)
    requires Swept(code, pc, t) && 0 <= t < |code|
    ensures var next := t + Width(At(code, t).op);
            Swept(code, pc, next) && AbsFrom(code, pc, abs, next) == AbsStep(At(code, t), AbsFrom(code, pc, abs, t))
    decreases |code| - pc
  {
    hide At, AbsStep;
    if pc != t {
      SweptNext(code, pc + Width(At(code, pc).op), AbsStep(At(code, pc), abs), t);
      SweptFits(code, pc + Width(At(code, pc).op), t);
    }
  }

  lemma {:induction false} SweptFits(code: Code, pc: nat, t: int)
    requires Swept(code, pc, t)
    ensures pc <= t
    decreases |code| - pc
  {
    hide At;
    if pc != t {
      SweptFits(code, pc + Width(At(code, pc).op), t);
    }
  }

  lemma {:induction false} ScanKeepsOk(code: Code, pc: nat, v: Scan, man: Manifest)
    requires ScanFrom(code, pc, v, man).ok
    ensures v.ok
    decreases |code| - pc
  {
    hide At, InstrOk, AbsStep;
    if !v.stopped && pc < |code| {
      var h := At(code, pc);
      ScanKeepsOk(code, pc + Width(h.op), Visit(h, pc, |code|, v, man), man);
    }
  }

  /** The scan's state when it reaches `t`, its early stop disregarded. */
  function ScanTo(code: Code, man: Manifest, pc: nat, v: Scan, t: int): Scan
    requires Swept(code, pc, t)
    decreases |code| - pc
  {
    if pc == t then v
    else ScanTo(code, man, pc + Width(At(code, pc).op), Visit(At(code, pc), pc, |code|, v, man), t)
  }

  lemma {:induction false} ScanToAbs(code: Code, man: Manifest, pc: nat, v: Scan, t: int)
    requires Swept(code, pc, t)
    ensures ScanTo(code, man, pc, v, t).abs == AbsFrom(code, pc, v.abs, t)
    decreases |code| - pc
  {
    hide At, AbsStep, InstrOk, Product, PopEnded;
    if pc != t {
      ScanToAbs(code, man, pc + Width(At(code, pc).op), Visit(At(code, pc), pc, |code|, v, man), t);
    }
  }

  /** An accepted scan passed through every visited place without stopping. */
  lemma {:induction false} AcceptedAt(code: Code, man: Manifest, pc: nat, v: Scan, t: nat)
    requires ScanFrom(code, pc, v, man).ok && !v.stopped && v.bound >= 0 && Swept(code, pc, t)
    ensures var w := ScanTo(code, man, pc, v, t);
            && !w.stopped && w.ok && w.bound >= 0 && ScanFrom(code, t, w, man) == ScanFrom(code, pc, v, man)
    decreases |code| - pc
  {
    hide At, InstrOk, AbsStep, PopEnded, Product;
    ScanKeepsOk(code, pc, v, man);
    if pc != t {
      var h := At(code, pc);
      var v' := Visit(h, pc, |code|, v, man);
      ProductPositive(PopEnded(v.frames, pc));
      ScanKeepsOk(code, pc + Width(h.op), v', man);
      AcceptedAt(code, man, pc + Width(h.op), v', t);
    }
  }

  lemma {:induction false} ProductPositive(frames: seq<LoopFrame>)
    ensures Product(frames) >= 1
  {
    if frames != [] {
      ProductPositive(frames[..|frames| - 1]);
      MulAtLeast(Product(frames[..|frames| - 1]), Max(1, frames[|frames| - 1].iters));
    }
  }

  /** Every instruction the sweep visits in an accepted program passed its checks against the registers there. */
  lemma AcceptedVisit(code: Code, man: Manifest, t: nat)
    requires Verify(code, man).ok && Swept(code, 0, t) && t < |code|
    ensures var v := ScanTo(code, man, 0, InitialScan(code, man), t);
            && v.abs == AbsAt(code, man, t) && v.bound >= 0
            && InstrOk(At(code, t), t, |code|, |PopEnded(v.frames, t)|, v.abs, man)
            && Visit(At(code, t), t, |code|, v, man).ok
            && ScanFrom(code, t + Width(At(code, t).op), Visit(At(code, t), t, |code|, v, man), man).ok
  {
    hide At, InstrOk, AbsStep, PopEnded, Product, VisitFrames;
    var v0 := InitialScan(code, man);
    AcceptedAt(code, man, 0, v0, t);
    ScanToAbs(code, man, 0, v0, t);
    var v' := Visit(At(code, t), t, |code|, ScanTo(code, man, 0, v0, t), man);
    ScanKeepsOk(code, t + Width(At(code, t).op), v', man);
  }

  // ----- meaning of abstract values -----

  predicate In(v: u64, a: AbsVal) { a.unknown || a.lo <= v <= a.hi }

  predicate Models(regs: Regs, abs: AbsRegs) {
    forall r: reg :: In(regs[r], Get(abs, r))
  }

  predicate Within(a: AbsVal, b: AbsVal) {
    b.unknown || (!a.unknown && b.lo <= a.lo && a.hi <= b.hi)
  }

  predicate Leq(a: AbsRegs, b: AbsRegs) {
    forall r: reg :: Within(Get(a, r), Get(b, r))
  }

  lemma LeqModels(regs: Regs, a: AbsRegs, b: AbsRegs)
    requires Models(regs, a) && Leq(a, b)
    ensures Models(regs, b)
  {
    forall r: reg ensures In(regs[r], Get(b, r)) {
      assert In(regs[r], Get(a, r)) && Within(Get(a, r), Get(b, r));
    }
  }

  /** Both ends of the interval wrap equally often. */
  predicate WrapTogether(lo: int, hi: int) {
    lo / 0x1_0000_0000_0000_0000 == hi / 0x1_0000_0000_0000_0000
  }

  predicate AddWrapsTogether(a: AbsVal, b: AbsVal) {
    !a.unknown && !b.unknown ==> WrapTogether(a.lo + b.lo, a.hi + b.hi)
  }

  predicate ComputeWrapsTogether(h: Decoded, abs: AbsRegs) {
    var a, b := Get(abs, h.rs1), Get(abs, h.rs2);
    && (h.sub == ADD ==> AddWrapsTogether(a, b))
    && (h.sub == ADDI ==> AddWrapsTogether(a, Const(h.imm)))
    && (h.sub == SHLI && !a.unknown ==> WrapTogether(a.lo * Pow2(h.imm % 64), a.hi * Pow2(h.imm % 64)))
  }

  lemma MaskBetween(lo: int, x: int, hi: int)
    requires lo <= x <= hi && WrapTogether(lo, hi)
    ensures Mask64(lo) <= Mask64(x) <= Mask64(hi)
  {
  }

  lemma AndSound(a: u64, imm: int)
    requires SignedImm(imm)
    ensures In(Bitwise(BAND, a, imm % 0x100_0000_0000), AbsAndi(Mask64(imm)))
  {
    hide Bits, Pow2;
    AndAtMostMask(a, imm % 0x100_0000_0000, 64);
    var field := if imm < 0 then imm + 0x100_0000_0000 else imm;
    DivModUnique(imm, if imm < 0 then -1 else 0, field, 0x100_0000_0000);
  }

  lemma ShiftSound(a: u64, lo: int, hi: int, sh: int)
    requires lo <= a <= hi && WrapTogether(lo * Pow2(sh % 64), hi * Pow2(sh % 64))
    ensures Mask64(lo * Pow2(sh % 64)) <= ShiftLeft(a, sh) <= Mask64(hi * Pow2(sh % 64))
  {
    hide Pow2;
    var p := Pow2(sh % 64);
    MulBetween(lo, a, hi, p);
    MaskBetween(lo * p, a * p, hi * p);
  }

  lemma MulBetween(lo: int, x: int, hi: int, p: nat)
    requires lo <= x <= hi
    ensures lo * p <= x * p <= hi * p
  {
  }

  lemma ComputeSound(h: Decoded, regs: Regs, abs: AbsRegs)
    requires Models(regs, abs) && ComputeWrapsTogether(h, abs) && SignedImm(h.imm)
    ensures In(Alu(h.sub, regs[h.rs1], regs[h.rs2], h.imm), AbsCompute(h.sub, Get(abs, h.rs1), Get(abs, h.rs2), h.imm))
  {
    hide Bits, Pow2, Bitwise, ShiftLeft, ShiftRight, AbsAndi, Mask64, WrapTogether;
    var a, b := Get(abs, h.rs1), Get(abs, h.rs2);
    var x, y := regs[h.rs1], regs[h.rs2];
    assert In(x, a) && In(y, b);
    if h.sub == ADD && !a.unknown && !b.unknown {
      MaskBetween(a.lo + b.lo, x + y, a.hi + b.hi);
    } else if h.sub == ADDI && !a.unknown {
      MaskBetween(a.lo + Mask64(h.imm), x + Mask64(h.imm), a.hi + Mask64(h.imm));
      MaskedSum(x, h.imm);
    } else if h.sub == ANDI {
      AndSound(x, h.imm);
    } else if h.sub == SHLI && !a.unknown {
      ShiftSound(x, a.lo, a.hi, h.imm);
    }
  }

  // ----- the side conditions -----

  /** What the linear scan takes for granted at `p`. */
  predicate EdgeOk(code: Code, man: Manifest, p: nat)
    requires p < |code| && Swept(code, 0, p)
  {
    var h := At(code, p);
    var abs := AbsAt(code, man, p);
    && (h.op.JUMP? ==> Swept(code, 0, p + h.imm) && Leq(abs, AbsAt(code, man, p + h.imm)))
    && (h.op.LOOP? ==>
          var end := p + 1 + h.imm;
          && Swept(code, 0, end) && Leq(abs, AbsAt(code, man, end))
          && Swept(code, 0, p + 1) && Leq(AbsAt(code, man, end), AbsAt(code, man, p + 1)))
    && (h.op.MEMCPY? ==> h.rd == 0)
    && (h.op.COMPUTE? ==> ComputeWrapsTogether(h, abs))
  }

  /**
   * Jumps, back edges and zero-count skips lead to places whose abstract state contains the one they leave;
   * interval ends wrap together; MEMCPY status goes to r0.
   */
  predicate EdgesOk(code: Code, man: Manifest) {
    forall p: nat :: p < |code| && Swept(code, 0, p) ==> EdgeOk(code, man, p)
  }

  /** Each register starts within the bounds of the last declaration for it. */
  predicate ArgsInBounds(regs: Regs, arguments: seq<Argument>) {
    forall i :: 0 <= i < |arguments| && 0 <= arguments[i].reg < 16
      && (forall j :: i < j < |arguments| ==> arguments[j].reg != arguments[i].reg)
      ==> arguments[i].lo <= regs[arguments[i].reg] <= arguments[i].hi
  }

  lemma {:induction false} ArgsModelled(regs: Regs, arguments: seq<Argument>, r: reg)
    requires regs[0] == 0
    requires forall i :: 0 <= i < |arguments| && arguments[i].reg == r
               && (forall j :: i < j < |arguments| ==> arguments[j].reg != r)
               ==> arguments[i].lo <= regs[r] <= arguments[i].hi
    ensures In(regs[r], Get(InitialAbs(arguments), r))
  {
    if arguments == [] {
      AllTopIsTop(16, r);
    } else {
      var last := |arguments| - 1;
      if arguments[last].reg != r {
        var rest := arguments[..last];
        forall i | 0 <= i < |rest| && rest[i].reg == r && (forall j :: i < j < |rest| ==> rest[j].reg != r)
          ensures rest[i].lo <= regs[r] <= rest[i].hi
        {
          assert rest[i] == arguments[i];
          assert forall j :: i < j < |arguments| ==> j == last || arguments[j] == rest[j];
        }
        ArgsModelled(regs, rest, r);
      }
    }
  }

  lemma {:induction false} AllTopIsTop(n: nat, r: int)
    ensures Get(AllTop(n), r) == TOP
  {
    if n > 0 {
      AllTopIsTop(n - 1, r);
    }
  }

  // ----- annotations that every step preserves -----

  type Annotation = int -> AbsRegs

  /** The abstract effect as the machine really behaves: MEMCPY writes its status. */
  function TrueStep(h: Decoded, abs: AbsRegs): AbsRegs {
    if h.op.MEMCPY? && h.rd != 0 then abs[h.rd as int := Const(0)] else AbsStep(h, abs)
  }

  /** Every edge out of `p` leads to an annotation that contains what arrives there. */
  predicate Flows(code: Code, inv: Annotation, p: nat)
    requires p < |code|
  {
    var h, abs := At(code, p), inv(p);
    var next := p + Width(h.op);
    && (!h.op.RET? && !h.op.ILLEGAL? ==> Leq(TrueStep(h, abs), inv(next)))
    && (h.op.JUMP? ==> Leq(abs, inv(p + h.imm)))
    && (h.op.LOOP? ==> Leq(abs, inv(p + 1 + h.imm)) && Leq(inv(p + 1 + h.imm), inv(p + 1)))
    && (h.op.COMPUTE? && h.rd != 0 ==> ComputeWrapsTogether(h, abs) || Get(inv(next), h.rd).unknown)
  }

  predicate Inductive(code: Code, inv: Annotation) {
    forall p: nat :: p < |code| && Swept(code, 0, p) ==> Flows(code, inv, p)
  }

  lemma InductiveAt(code: Code, inv: Annotation, p: nat)
    requires Inductive(code, inv) && p < |code| && Swept(code, 0, p)
    ensures Flows(code, inv, p)
  {
  }

  /** Jumps and loop ends lead to places the sweep visits. */
  predicate Lands(code: Code) {
    forall p: nat :: p < |code| && Swept(code, 0, p) ==> LandsAt(code, p)
  }

  predicate LandsAt(code: Code, p: nat)
    requires p < |code|
  {
    var h := At(code, p);
    (h.op.JUMP? ==> Swept(code, 0, p + h.imm)) && (h.op.LOOP? ==> Swept(code, 0, p + 1 + h.imm))
  }

  predicate FrameOk(code: Code, f: Frame) {
    var p := f.startPc - 1;
    0 <= p < |code| && Swept(code, 0, p) && At(code, p).op.LOOP? && f.endPc == p + 1 + At(code, p).imm
  }

  /** The sweep visits the pc, and the registers are within the annotation there. */
  predicate Covered(code: Code, inv: Annotation, loops: seq<Frame>, pc: int, regs: Regs) {
    && Swept(code, 0, pc) && Models(regs, inv(pc))
    && forall i :: 0 <= i < |loops| ==> FrameOk(code, loops[i])
  }

  lemma ImmSigned(code: Code, pc: int)
    requires 0 <= pc < |code|
    ensures SignedImm(At(code, pc).imm)
  {
    MaskAfterSignExtend(code[pc] % 0x100_0000_0000);
  }

  /** The only register an instruction writes is rd; only loads, atomics, COMPUTE and MEMCPY write it. */
  lemma EffectWrites(code: Code, pc: int, d: Data)
    requires Fetchable(code, pc)
    ensures WritesOnly(At(code, pc), d.regs, EffectAt(code, pc, d).regs)
  {
    hide At, Work, WritesOnly;
    WorkWritesOnly(At(code, pc), ExtraReg(code, pc), d);
  }

  predicate WritesOnly(h: Decoded, regs: Regs, regs': Regs) {
    match h.op
    case LOAD | CAS | CAA => exists v: u64 :: regs' == SetReg(regs, h.rd, v)
    case COMPUTE => regs' == SetReg(regs, h.rd, Alu(h.sub, regs[h.rs1], regs[h.rs2], h.imm))
    case MEMCPY => regs' == SetReg(regs, h.rd, 0)
    case _ => regs' == regs
  }

  lemma WorkWritesOnly(h: Decoded, xrd: reg, d: Data)
    ensures WritesOnly(h, d.regs, Work(h, xrd, d).regs)
  {
    hide SetReg, Alu, Memcpy, DrainAll, DrainTo, Issue, CopyCost, AccessCost, EffectiveAddr, CopyLength, Mask64;
    match h.op
    case LOAD => var v := Load(d.mem, EffectiveAddr(d.regs[h.rs1], h.imm));
      assert Work(h, xrd, d).regs == SetReg(d.regs, h.rd, v);
    case CAS => assert Work(h, xrd, d).regs == SetReg(d.regs, h.rd, Load(d.mem, d.regs[h.rs1]));
    case CAA => assert Work(h, xrd, d).regs == SetReg(d.regs, h.rd, Load(d.mem, d.regs[h.rs1]));
    case MEMCPY =>
    case _ =>
  }

  lemma FlowSound(code: Code, inv: Annotation, p: nat, d: Data)
    requires Fetchable(code, p) && Flows(code, inv, p) && Models(d.regs, inv(p))
    requires !At(code, p).op.RET? && !At(code, p).op.ILLEGAL?
    ensures Models(EffectAt(code, p, d).regs, inv(p + Width(At(code, p).op)))
  {
    hide At, EffectAt, Alu, AbsCompute, ComputeWrapsTogether;
    var h, abs := At(code, p), inv(p);
    ImmSigned(code, p);
    EffectWrites(code, p, d);
    if h.op.COMPUTE? && ComputeWrapsTogether(h, abs) {
      ComputeSound(h, d.regs, abs);
    }
    var next := inv(p + Width(h.op));
    var regs' := EffectAt(code, p, d).regs;
    forall r: reg ensures In(regs'[r], Get(next, r)) {
      assert In(d.regs[r], Get(abs, r)) && Within(Get(TrueStep(h, abs), r), Get(next, r));
    }
  }

  lemma {:induction false} ResolveSound(code: Code, inv: Annotation, loops: seq<Frame>, np: int, regs: Regs)
    requires Inductive(code, inv) && Covered(code, inv, loops, np, regs)
    ensures var (loops', pc) := Resolve(loops, np); Covered(code, inv, loops', pc, regs)
    decreases |loops|
  {
    hide At, Leq, Models, TrueStep, ComputeWrapsTogether, Swept, Inductive;
    if loops != [] && np == loops[|loops| - 1].endPc {
      var below, top := loops[..|loops| - 1], loops[|loops| - 1];
      assert FrameOk(code, top);
      InductiveAt(code, inv, top.startPc - 1);
      if top.remaining > 1 {
        SweptNext(code, 0, map[], top.startPc - 1);
        LeqModels(regs, inv(np), inv(top.startPc));
      } else {
        ResolveSound(code, inv, below, np, regs);
      }
    }
  }

  lemma StepSound(code: Code, inv: Annotation, s: State)
    requires Inductive(code, inv) && Lands(code) && Live(code, s) && Covered(code, inv, s.loops, s.pc, s.d.regs)
    ensures var s' := Step(code, s); s'.status == Running ==> Covered(code, inv, s'.loops, s'.pc, s'.d.regs)
  {
    hide At, Leq, Models, EffectAt, TrueStep, ComputeWrapsTogether, Swept, Inductive;
    var h := At(code, s.pc);
    var regs' := EffectAt(code, s.pc, s.d).regs;
    if !h.op.RET? && !h.op.ILLEGAL? {
      InductiveAt(code, inv, s.pc);
      assert LandsAt(code, s.pc);
      FlowSound(code, inv, s.pc, s.d);
      EffectWrites(code, s.pc, s.d);
      SweptNext(code, 0, map[], s.pc);
      var np := Arrive(h, s.pc, s.d.regs);
      if np != s.pc + Width(h.op) {
        LeqModels(s.d.regs, inv(s.pc), inv(np));
      }
      ResolveSound(code, inv, Enter(h, s.pc, s.d.regs, s.loops), np, regs');
    }
  }

  lemma {:induction false} RunCovered(code: Code, inv: Annotation, s: State, n: nat)
    requires Inductive(code, inv) && Lands(code)
    requires s.status == Running ==> Covered(code, inv, s.loops, s.pc, s.d.regs)
    ensures var t := Run(code, s, n); t.status == Running ==> Covered(code, inv, t.loops, t.pc, t.d.regs)
    decreases n
  {
    hide At, Step, Covered, Inductive, Lands;
    if n > 0 && Live(code, s) {
      StepSound(code, inv, s);
      RunCovered(code, inv, Step(code, s), n - 1);
    }
  }

  // ----- the theorem -----

  predicate InRegion(man: Manifest, v: int) {
    exists r :: r in man.regions && AbsBase(r) <= v <= AbsBase(r) + r.size
  }

  /** The base registers of the instruction about to run point into declared regions. */
  predicate BasesInRegions(code: Code, man: Manifest, s: State)
    requires Fetchable(code, s.pc)
  {
    var h := At(code, s.pc);
    && (h.op.LOAD? || h.op.STORE? || h.op.CAS? || h.op.CAA? || h.op.MEMCPY? ==> InRegion(man, s.d.regs[h.rs1]))
    && (h.op.MEMCPY? ==> InRegion(man, s.d.regs[h.rs2]))
  }

  lemma AddrOkSound(man: Manifest, abs: AbsRegs, r: reg, regs: Regs)
    requires Models(regs, abs) && AddrOk(abs, r, RegionSet(man.regions))
    ensures InRegion(man, regs[r])
  {
    hide AbsBase;
    var declared := RegionSet(man.regions);
    var av := Get(abs, r);
    assert In(regs[r], av);
    var key := if av.region.Some? then av.region.value else
      var k :| k in declared && Contains(declared[k], av.lo, av.hi); k;
    assert declared[key] in man.regions;
  }

  /** At every memory instruction the annotation keeps the base registers in declared regions. */
  predicate BasesChecked(code: Code, man: Manifest, inv: Annotation) {
    forall p: nat :: p < |code| && Swept(code, 0, p) ==> BasesCheckedAt(code, man, inv, p)
  }

  predicate BasesCheckedAt(code: Code, man: Manifest, inv: Annotation, p: nat)
    requires p < |code|
  {
    var h := At(code, p);
    && (h.op.LOAD? || h.op.STORE? || h.op.CAS? || h.op.CAA? || h.op.MEMCPY? ==>
          AddrOk(inv(p), h.rs1, RegionSet(man.regions)))
    && (h.op.MEMCPY? ==> AddrOk(inv(p), h.rs2, RegionSet(man.regions)))
  }

  /** Over every run: whatever annotation the edges respect, bases checked against it point into declared regions. */
  lemma AnnotatedRunsStayInRegions(code: Code, man: Manifest, inv: Annotation, args: seq<int>, mem: Mem, n: nat)
    requires Inductive(code, inv) && Lands(code) && BasesChecked(code, man, inv)
        && Models(Reset(args, mem).d.regs, inv(0))
    ensures var s := Run(code, Reset(args, mem), n);
            Live(code, s) ==> BasesInRegions(code, man, s)
  {
    hide At, Inductive, Lands, Run, RegionSet, InRegion, AddrOk, Models;
    RunCovered(code, inv, Reset(args, mem), n);
    var s := Run(code, Reset(args, mem), n);
    if Live(code, s) {
      var h := At(code, s.pc);
      assert BasesCheckedAt(code, man, inv, s.pc);
      if h.op.LOAD? || h.op.STORE? || h.op.CAS? || h.op.CAA? || h.op.MEMCPY? {
        AddrOkSound(man, inv(s.pc), h.rs1, s.d.regs);
      }
      if h.op.MEMCPY? {
        AddrOkSound(man, inv(s.pc), h.rs2, s.d.regs);
      }
    }
  }

  // ----- the scan's own abstract state -----

  function ScanAnnotation(code: Code, man: Manifest): Annotation {
    p => if Swept(code, 0, p) then AbsAt(code, man, p) else map[]
  }

  lemma LeqSelf(a: AbsRegs)
    ensures Leq(a, a)
  {
  }

  lemma ScanStepIs(code: Code, man: Manifest, p: nat)
    requires p < |code| && Swept(code, 0, p) && Swept(code, 0, p + Width(At(code, p).op))
    ensures AbsAt(code, man, p + Width(At(code, p).op)) == AbsStep(At(code, p), AbsAt(code, man, p))
  {
    hide At, AbsStep;
    SweptNext(code, 0, InitialAbs(man.arguments), p);
  }

  /** Whenever it is sound along every edge it is an inductive annotation. */
  lemma EdgesInductive(code: Code, man: Manifest)
    requires EdgesOk(code, man)
    ensures Inductive(code, ScanAnnotation(code, man)) && Lands(code)
  {
    hide At, AbsAt, Leq, ComputeWrapsTogether, Swept;
    var inv := ScanAnnotation(code, man);
    forall p: nat | p < |code| && Swept(code, 0, p) ensures Flows(code, inv, p) && LandsAt(code, p) {
      assert EdgeOk(code, man, p);
      SweptNext(code, 0, InitialAbs(man.arguments), p);
      ScanStepIs(code, man, p);
      LeqSelf(inv(p + Width(At(code, p).op)));
    }
  }

  /** An accepted program's bases passed their checks against the scan. */
  lemma AcceptedBases(code: Code, man: Manifest)
    requires Verify(code, man).ok
    ensures BasesChecked(code, man, ScanAnnotation(code, man))
  {
    hide At, AddrOk, RegionSet, Verify, ScanTo, Visit, ScanFrom, AbsAt, Swept;
    forall p: nat | p < |code| && Swept(code, 0, p)
      ensures BasesCheckedAt(code, man, ScanAnnotation(code, man), p)
    {
      AcceptedVisit(code, man, p);
    }
  }

  /** The instance for the verifier's scan, over every run, every number of steps and every memory. */
  lemma AcceptedRunsStayInRegions(code: Code, man: Manifest, args: seq<int>, mem: Mem, n: nat)
    requires Verify(code, man).ok && EdgesOk(code, man)
    requires ArgsInBounds(Reset(args, mem).d.regs, man.arguments)
    ensures var s := Run(code, Reset(args, mem), n);
            Live(code, s) ==> BasesInRegions(code, man, s)
  {
    hide At, EdgesOk, Verify, BasesInRegions, Run, Inductive, Lands, BasesChecked;
    InitiallyCovered(code, man, args, mem);
    EdgesInductive(code, man);
    AcceptedBases(code, man);
    AnnotatedRunsStayInRegions(code, man, ScanAnnotation(code, man), args, mem, n);
  }

  lemma InitiallyCovered(code: Code, man: Manifest, args: seq<int>, mem: Mem)
    requires ArgsInBounds(Reset(args, mem).d.regs, man.arguments)
    ensures Models(Reset(args, mem).d.regs, ScanAnnotation(code, man)(0))
    ensures Models(Reset(args, mem).d.regs, InitialAbs(man.arguments))
  {
    var regs := Reset(args, mem).d.regs;
    forall r: reg ensures In(regs[r], Get(InitialAbs(man.arguments), r)) {
      ArgsModelled(regs, man.arguments, r);
    }
  }
}
