/**
 * Why the theorems carry side conditions: for each property that does not hold of everything the original accepts,
 * a concrete program on which it fails.
 */
module SideConditions {
  import opened Prelude
  import opened Isa
  import opened Machine
  import opened Structured
  import opened Verifier
  import opened VerifierSound
  import opened StepBoundSound

  // ----- the verifier follows fall-through order -----

  /** One region, two gigabytes from address zero, no bounds on arguments. */
  const OPEN := Manifest(100, [RegionDecl(0, 0, 0x8000_0000, 0)], [])

  lemma {:induction false} OrZeros(n: nat)
    ensures Bits(BOR, 0, 0, n) == 0
  {
    if n > 0 {
      OrZeros(n - 1);
    }
  }

  lemma OpenRegion()
    ensures RegionSet(OPEN.regions) == map[(0, 0) := OPEN.regions[0]] && AbsBase(OPEN.regions[0]) == 0
  {
    OrZeros(128);
    assert OPEN.regions[..0] == [];
  }

  /** JUMP r1 over ANDI r2, r2, 255 to LOAD r3, [r2]; RET r0. */
  function SkipMask(): Code {
    [Pack(0x10, 0, 1, 0, 0, 2), Pack(0x20, 2, 2, 0, ANDI, 0xFF), Pack(0x01, 3, 2, 0, 0, 0), Pack(0x13, 0, 0, 0, 0, 0)]
  }

  lemma SkipMaskDecodes()
    ensures var code := SkipMask();
            |code| == 4 && At(code, 0) == Decoded(JUMP, 0, 1, 0, 0, 2)
              && At(code, 1) == Decoded(COMPUTE, 2, 2, 0, ANDI, 0xFF)
            && At(code, 2) == Decoded(LOAD, 3, 2, 0, 0, 0) && At(code, 3) == Decoded(RET, 0, 0, 0, 0, 0)
  {
    hide Pack, DecodeWord;
    DecodePacked(0x10, 0, 1, 0, 0, 2);
    DecodePacked(0x20, 2, 2, 0, ANDI, 0xFF);
    DecodePacked(0x01, 3, 2, 0, 0, 0);
    DecodePacked(0x13, 0, 0, 0, 0, 0);
  }

  /** One instruction passes, inside the loops that are open at it. */
  lemma VisitPasses(h: Decoded, pc: int, n: int, v: Scan, man: Manifest, frames: seq<LoopFrame>)
    requires v.ok && PopEnded(v.frames, pc) == frames && v.bound + Product(frames) <= man.maxDynamic
    requires InstrOk(h, pc, n, |frames|, v.abs, man)
    ensures var w := Visit(h, pc, n, v, man);
            && w.ok && w.bound == v.bound + Product(frames) && !w.stopped && w.abs == AbsStep(h, v.abs)
            && w.frames == VisitFrames(h, pc, frames, v.abs, man)
            && (w.sawRet <==> v.sawRet || h.op.RET?)
            && (!h.op.MEMCPY? ==> w.inFlightMax == v.inFlightMax)
  {
    hide InstrOk, AbsStep, PopEnded, Product, VisitFrames;
  }

  lemma ControlKeepsAbs(h: Decoded, abs: AbsRegs)
    requires h.op.LOOP? || h.op.NOP?
    ensures AbsStep(h, abs) == abs
  {
  }

  lemma ScanEnds(code: Code, v: Scan, man: Manifest)
    ensures ScanFrom(code, |code|, v, man) == v
  {
  }

  lemma ScanNext(code: Code, pc: nat, v: Scan, man: Manifest)
    requires pc < |code| && !v.stopped
    ensures ScanFrom(code, pc, v, man)
         == ScanFrom(code, pc + Width(At(code, pc).op), Visit(At(code, pc), pc, |code|, v, man), man)
  {
    hide At, Visit;
  }

  lemma SkipMaskAccepted()
    ensures Verify(SkipMask(), OPEN).ok
  {
    hide At, AbsBase, RegionSet, AddrOk, Visit, InitialAbs, SkipMask;
    var code := SkipMask();
    SkipMaskDecodes();
    assert |code| == 4;
    var v0 := InitialScan(code, OPEN);
    VisitPasses(At(code, 0), 0, 4, v0, OPEN, []);
    var v1 := Visit(At(code, 0), 0, 4, v0, OPEN);
    VisitPasses(At(code, 1), 1, 4, v1, OPEN, []);
    var v2 := Visit(At(code, 1), 1, 4, v1, OPEN);
    MaskedFits(v2.abs);
    VisitPasses(At(code, 2), 2, 4, v2, OPEN, []);
    var v3 := Visit(At(code, 2), 2, 4, v2, OPEN);
    VisitPasses(At(code, 3), 3, 4, v3, OPEN, []);
    var v4 := Visit(At(code, 3), 3, 4, v3, OPEN);
    ScanEnds(code, v4, OPEN);
    ScanNext(code, 3, v3, OPEN);
    ScanNext(code, 2, v2, OPEN);
    ScanNext(code, 1, v1, OPEN);
    ScanNext(code, 0, v0, OPEN);
  }

  lemma MaskedFits(abs: AbsRegs)
    requires Get(abs, 2) == AbsVal(0, 0xFF, None, false)
    ensures AddrOk(abs, 2, RegionSet(OPEN.regions))
  {
    hide AbsBase, RegionSet;
    OpenRegion();
    assert Contains(RegionSet(OPEN.regions)[(0, 0)], 0, 0xFF);
  }

  lemma JumpTaken(code: Code, s: State)
    requires Live(code, s) && At(code, s.pc).op.JUMP? && s.d.regs[At(code, s.pc).rs1] != 0
    requires s.loops == [] && s.pc + At(code, s.pc).imm < |code|
    ensures var t := Run(code, s, 1);
            t.pc == s.pc + At(code, s.pc).imm && t.status == Running && t.d.regs == s.d.regs
  {
    hide At;
    assert Run(code, s, 1) == Run(code, Step(code, s), 0);
  }

  lemma Outside(v: int)
    requires v > 0x8000_0000
    ensures !InRegion(OPEN, v)
  {
    hide AbsBase;
    OpenRegion();
  }

  /** A taken JUMP over the mask reaches the LOAD with any base: the edge conditions are needed. */
  lemma JumpSkipsMask(v: u64, mem: Mem)
    requires v > 0x8000_0000
    ensures Verify(SkipMask(), OPEN).ok && ArgsInBounds(Reset([1, v], mem).d.regs, OPEN.arguments)
    ensures var s := Run(SkipMask(), Reset([1, v], mem), 1);
            Live(SkipMask(), s) && !BasesInRegions(SkipMask(), OPEN, s)
  {
    hide At, InRegion, Verify, Run;
    SkipMaskAccepted();
    SkipMaskDecodes();
    var s0 := Reset([1, v], mem);
    assert s0.d.regs[1] == 1 && s0.d.regs[2] == v;
    JumpTaken(SkipMask(), s0);
    Outside(v);
  }

  // ----- a body that is skipped, and one that is repeated -----

  /** The region of `OPEN`; r1 at most 1. */
  const ONE_COUNT := Manifest(100, OPEN.regions, [Argument(1, 0, 1, None)])

  /** LOOP r1 { ANDI r2, r2, 255 } LOAD r3, [r2]; RET r0. */
  predicate ZeroSkip(code: Code) {
    && |code| == 4 && At(code, 0) == Decoded(LOOP, 0, 1, 0, 0, 1)
      && At(code, 1) == Decoded(COMPUTE, 2, 2, 0, ANDI, 0xFF)
    && At(code, 2) == Decoded(LOAD, 3, 2, 0, 0, 0) && At(code, 3) == Decoded(RET, 0, 0, 0, 0, 0)
  }

  lemma ZeroSkipExists() returns (code: Code)
    ensures ZeroSkip(code)
  {
    hide Pack, DecodeWord;
    DecodePacked(0x11, 0, 1, 0, 0, 1);
    DecodePacked(0x20, 2, 2, 0, ANDI, 0xFF);
    DecodePacked(0x01, 3, 2, 0, 0, 0);
    DecodePacked(0x13, 0, 0, 0, 0, 0);
    code := [Pack(0x11, 0, 1, 0, 0, 1), Pack(0x20, 2, 2, 0, ANDI, 0xFF), Pack(0x01, 3, 2, 0, 0, 0),
             Pack(0x13, 0, 0, 0, 0, 0)];
  }

  lemma OneCountKnown()
    ensures Get(InitialAbs(ONE_COUNT.arguments), 1) == AbsVal(0, 1, None, false)
  {
    hide AllTop;
    assert ONE_COUNT.arguments[..0] == [];
  }

  lemma SingleFrame(f: LoopFrame, pc: int)
    ensures PopEnded([f], pc) == (if pc >= f.endPc then [] else [f]) && Product([f]) == Max(1, f.iters)
    ensures PopEnded([], pc) == [] && Product([]) == 1 && [] + [f] == [f]
  {
    assert [f][..0] == [];
  }

  lemma ZeroSkipAccepted(code: Code)
    requires ZeroSkip(code)
    ensures Verify(code, ONE_COUNT).ok
  {
    hide At, AbsBase, RegionSet, AddrOk, Visit, InitialAbs, PopEnded, Product, ScanFrom;
    OneCountKnown();
    var f := LoopFrame(2, 1);
    SingleFrame(f, 1);
    SingleFrame(f, 2);
    SingleFrame(f, 0);
    SingleFrame(f, 3);
    var v0 := InitialScan(code, ONE_COUNT);
    VisitPasses(At(code, 0), 0, 4, v0, ONE_COUNT, []);
    var v1 := Visit(At(code, 0), 0, 4, v0, ONE_COUNT);
    VisitPasses(At(code, 1), 1, 4, v1, ONE_COUNT, [f]);
    var v2 := Visit(At(code, 1), 1, 4, v1, ONE_COUNT);
    MaskedFits(v2.abs);
    VisitPasses(At(code, 2), 2, 4, v2, ONE_COUNT, []);
    var v3 := Visit(At(code, 2), 2, 4, v2, ONE_COUNT);
    VisitPasses(At(code, 3), 3, 4, v3, ONE_COUNT, []);
    var v4 := Visit(At(code, 3), 3, 4, v3, ONE_COUNT);
    ScanEnds(code, v4, ONE_COUNT);
    ScanNext(code, 3, v3, ONE_COUNT);
    ScanNext(code, 2, v2, ONE_COUNT);
    ScanNext(code, 1, v1, ONE_COUNT);
    ScanNext(code, 0, v0, ONE_COUNT);
  }

  /** A zero count skips the mask in the body: the edge over a body is needed. */
  lemma ZeroCountSkipsMask(v: u64, mem: Mem) returns (code: Code)
    requires v > 0x8000_0000
    ensures Verify(code, ONE_COUNT).ok && ArgsInBounds(Reset([0, v], mem).d.regs, ONE_COUNT.arguments)
    ensures var s := Run(code, Reset([0, v], mem), 1); Live(code, s) && !BasesInRegions(code, ONE_COUNT, s)
  {
    hide At, InRegion, Verify, AbsBase;
    code := ZeroSkipExists();
    ZeroSkipAccepted(code);
    var s0 := Reset([0, v], mem);
    assert s0.d.regs[1] == 0 && s0.d.regs[2] == v;
    assert Run(code, s0, 1) == Run(code, Step(code, s0), 0);
    var s := Step(code, s0);
    assert s.pc == 2 && s.status == Running && s.d.regs[2] == v;
    Outside(v);
    assert !InRegion(ONE_COUNT, v) by { SameRegion(ONE_COUNT, v); }
  }

  lemma SameRegion(man: Manifest, v: int)
    requires man.regions == OPEN.regions
    ensures InRegion(man, v) == InRegion(OPEN, v)
  {
    hide AbsBase;
  }

  /** The region of `OPEN`; r1 is 2 and r2 is 0. */
  const TWICE_ROUND := Manifest(100, OPEN.regions, [Argument(1, 2, 2, None), Argument(2, 0, 0, None)])

  /** LOOP r1 { LOAD r3, [r2]; ADDI r2, r2, 2^39 - 1 } RET r0. */
  predicate Advance(code: Code) {
    && |code| == 4 && At(code, 0) == Decoded(LOOP, 0, 1, 0, 0, 2) && At(code, 1) == Decoded(LOAD, 3, 2, 0, 0, 0)
    && At(code, 2) == Decoded(COMPUTE, 2, 2, 0, ADDI, 0x7F_FFFF_FFFF) && At(code, 3) == Decoded(RET, 0, 0, 0, 0, 0)
  }

  lemma AdvanceExists() returns (code: Code)
    ensures Advance(code)
  {
    hide Pack, DecodeWord;
    DecodePacked(0x11, 0, 1, 0, 0, 2);
    DecodePacked(0x01, 3, 2, 0, 0, 0);
    DecodePacked(0x20, 2, 2, 0, ADDI, 0x7F_FFFF_FFFF);
    DecodePacked(0x13, 0, 0, 0, 0, 0);
    code := [Pack(0x11, 0, 1, 0, 0, 2), Pack(0x01, 3, 2, 0, 0, 0), Pack(0x20, 2, 2, 0, ADDI, 0x7F_FFFF_FFFF),
             Pack(0x13, 0, 0, 0, 0, 0)];
  }

  lemma TwiceRoundKnown()
    ensures Get(InitialAbs(TWICE_ROUND.arguments), 1) == AbsVal(2, 2, None, false)
    ensures Get(InitialAbs(TWICE_ROUND.arguments), 2) == AbsVal(0, 0, None, false)
  {
    hide AllTop;
    assert TWICE_ROUND.arguments[..1] == [Argument(1, 2, 2, None)];
    assert TWICE_ROUND.arguments[..1][..0] == [];
    assert InitialAbs(TWICE_ROUND.arguments[..1]) == InitialAbs([])[1 := AbsVal(2, 2, None, false)];
  }

  lemma ZeroFits(abs: AbsRegs)
    requires Get(abs, 2) == AbsVal(0, 0, None, false)
    ensures AddrOk(abs, 2, RegionSet(OPEN.regions))
  {
    hide AbsBase, RegionSet;
    OpenRegion();
    assert Contains(RegionSet(OPEN.regions)[(0, 0)], 0, 0);
  }

  lemma AdvanceAccepted(code: Code)
    requires Advance(code)
    ensures Verify(code, TWICE_ROUND).ok
  {
    hide At, AbsBase, RegionSet, AddrOk, Visit, InitialAbs, PopEnded, Product, ScanFrom;
    TwiceRoundKnown();
    var f := LoopFrame(3, 2);
    SingleFrame(f, 1);
    SingleFrame(f, 2);
    SingleFrame(f, 3);
    SingleFrame(f, 0);
    var v0 := InitialScan(code, TWICE_ROUND);
    VisitPasses(At(code, 0), 0, 4, v0, TWICE_ROUND, []);
    ControlKeepsAbs(At(code, 0), v0.abs);
    var v1 := Visit(At(code, 0), 0, 4, v0, TWICE_ROUND);
    ZeroFits(v1.abs);
    VisitPasses(At(code, 1), 1, 4, v1, TWICE_ROUND, [f]);
    var v2 := Visit(At(code, 1), 1, 4, v1, TWICE_ROUND);
    VisitPasses(At(code, 2), 2, 4, v2, TWICE_ROUND, [f]);
    var v3 := Visit(At(code, 2), 2, 4, v2, TWICE_ROUND);
    VisitPasses(At(code, 3), 3, 4, v3, TWICE_ROUND, []);
    var v4 := Visit(At(code, 3), 3, 4, v3, TWICE_ROUND);
    ScanEnds(code, v4, TWICE_ROUND);
    ScanNext(code, 3, v3, TWICE_ROUND);
    ScanNext(code, 2, v2, TWICE_ROUND);
    ScanNext(code, 1, v1, TWICE_ROUND);
    ScanNext(code, 0, v0, TWICE_ROUND);
  }

  /** Once round the body: LOAD, ADDI, and back with the base 2^39 - 1 further. */
  lemma AdvanceStep(code: Code, s: State)
    requires Advance(code) && s.pc == 1 && s.status == Running && s.loops == [Frame(1, 3, 2, 2)] && s.d.regs[2] == 0
    ensures var t := Step(code, Step(code, s));
            t.pc == 1 && t.status == Running && t.d.regs[2] == 0x7F_FFFF_FFFF
    ensures Step(code, s).pc == 2 && Step(code, s).status == Running
  {
    hide At, AccessCost, Load, EffectiveAddr;
    var f := Frame(1, 3, 2, 2);
    assert [f][..0] == [];
    var s1 := Step(code, s);
    assert s1.pc == 2 && s1.status == Running && s1.loops == [f] && s1.d.regs[2] == 0;
    assert [] + [f.(remaining := 1)] == [f.(remaining := 1)];
  }

  lemma RunThree(code: Code, s: State)
    requires Live(code, s) && Live(code, Step(code, s)) && Live(code, Step(code, Step(code, s)))
    ensures Run(code, s, 3) == Step(code, Step(code, Step(code, s)))
  {
    hide At, Step;
    var s1 := Step(code, s);
    var s2 := Step(code, s1);
    assert Run(code, s2, 1) == Run(code, Step(code, s2), 0);
    assert Run(code, s1, 2) == Run(code, s2, 1);
    assert Run(code, s, 3) == Run(code, s1, 2);
  }

  /** The second time round the LOAD has another base: the back edge is needed. */
  lemma BackEdgeMovesBase(mem: Mem) returns (code: Code)
    ensures Verify(code, TWICE_ROUND).ok && ArgsInBounds(Reset([2, 0], mem).d.regs, TWICE_ROUND.arguments)
    ensures var s := Run(code, Reset([2, 0], mem), 3); Live(code, s) && !BasesInRegions(code, TWICE_ROUND, s)
  {
    hide At, InRegion, Verify, AbsBase, Run;
    code := AdvanceExists();
    AdvanceAccepted(code);
    var s0 := Reset([2, 0], mem);
    assert s0.d.regs[1] == 2 && s0.d.regs[2] == 0;
    var s1 := Step(code, s0);
    assert s1.pc == 1 && s1.status == Running && s1.loops == [Frame(1, 3, 2, 2)] && s1.d.regs[2] == 0;
    AdvanceStep(code, s1);
    RunThree(code, s0);
    Outside(0x7F_FFFF_FFFF);
    SameRegion(TWICE_ROUND, 0x7F_FFFF_FFFF);
  }

  // ----- interval ends are masked one by one -----

  /** The region of `OPEN`, and any 64-bit value in r2. */
  const ANY_R2 := Manifest(100, OPEN.regions, [Argument(2, 0, U64_MAX, None)])

  /** ADDI r2, r2, 1; LOAD r3, [r2]; RET r0. */
  predicate Wraps(code: Code) {
    && |code| == 3 && At(code, 0) == Decoded(COMPUTE, 2, 2, 0, ADDI, 1)
    && At(code, 1) == Decoded(LOAD, 3, 2, 0, 0, 0) && At(code, 2) == Decoded(RET, 0, 0, 0, 0, 0)
  }

  lemma WrapsExists() returns (code: Code)
    ensures Wraps(code)
  {
    hide Pack, DecodeWord;
    DecodePacked(0x20, 2, 2, 0, ADDI, 1);
    DecodePacked(0x01, 3, 2, 0, 0, 0);
    DecodePacked(0x13, 0, 0, 0, 0, 0);
    code := [Pack(0x20, 2, 2, 0, ADDI, 1), Pack(0x01, 3, 2, 0, 0, 0), Pack(0x13, 0, 0, 0, 0, 0)];
  }

  /** The interval from 0 to the largest word becomes one from 1 to 0, which fits in every region. */
  lemma WrapsAccepted(code: Code)
    requires Wraps(code)
    ensures Verify(code, ANY_R2).ok
  {
    hide At, AbsBase, RegionSet, AddrOk, Visit, InitialAbs;
    var v0 := InitialScan(code, ANY_R2);
    assert Get(v0.abs, 2) == AbsVal(0, U64_MAX, None, false) by { AnyR2Known(); }
    VisitPasses(At(code, 0), 0, 3, v0, ANY_R2, []);
    var v1 := Visit(At(code, 0), 0, 3, v0, ANY_R2);
    assert Get(v1.abs, 2) == AbsVal(1, 0, None, false);
    EmptyFits(v1.abs);
    VisitPasses(At(code, 1), 1, 3, v1, ANY_R2, []);
    var v2 := Visit(At(code, 1), 1, 3, v1, ANY_R2);
    VisitPasses(At(code, 2), 2, 3, v2, ANY_R2, []);
    var v3 := Visit(At(code, 2), 2, 3, v2, ANY_R2);
    ScanEnds(code, v3, ANY_R2);
    ScanNext(code, 2, v2, ANY_R2);
    ScanNext(code, 1, v1, ANY_R2);
    ScanNext(code, 0, v0, ANY_R2);
  }

  lemma AnyR2Known()
    ensures Get(InitialAbs(ANY_R2.arguments), 2) == AbsVal(0, U64_MAX, None, false)
  {
    assert ANY_R2.arguments[..0] == [];
  }

  lemma EmptyFits(abs: AbsRegs)
    requires Get(abs, 2) == AbsVal(1, 0, None, false)
    ensures AddrOk(abs, 2, RegionSet(ANY_R2.regions))
  {
    hide AbsBase, RegionSet;
    OpenRegion();
    assert Contains(RegionSet(OPEN.regions)[(0, 0)], 1, 0);
  }

  /** The LOAD runs with a base outside the region: interval ends have to wrap together. */
  lemma WrappedIntervalUnsound(v: u64, mem: Mem) returns (code: Code)
    requires 0x8000_0000 <= v < U64_MAX
    ensures Verify(code, ANY_R2).ok && ArgsInBounds(Reset([0, v], mem).d.regs, ANY_R2.arguments)
    ensures var s := Run(code, Reset([0, v], mem), 1); Live(code, s) && !BasesInRegions(code, ANY_R2, s)
  {
    hide At, InRegion, Verify, AbsBase;
    code := WrapsExists();
    WrapsAccepted(code);
    var s0 := Reset([0, v], mem);
    assert s0.d.regs[2] == v;
    assert Run(code, s0, 1) == Run(code, Step(code, s0), 0);
    var s := Step(code, s0);
    assert s.pc == 1 && s.status == Running && s.d.regs[2] == v + 1;
    Outside(v + 1);
    assert !InRegion(ANY_R2, v + 1) by { SameRegion(ANY_R2, v + 1); }
  }

  // ----- MEMCPY writes a status register -----

  /** One region at 2^32, and r2 at its start. */
  const AT_REGION := Manifest(100, [RegionDecl(1, 0, 0x1000, 0)],
                              [Argument(2, 0x1_0000_0000, 0x1_0000_0000, Some((0, 1)))])

  /** MEMCPY r2, r2, r2, LEN=0; LOAD r3, [r2]; RET r0. */
  predicate StatusCopy(code: Code) {
    && |code| == 4 && At(code, 0) == Decoded(MEMCPY, 2, 2, 2, 0, 0)
    && At(code, 2) == Decoded(LOAD, 3, 2, 0, 0, 0) && At(code, 3) == Decoded(RET, 0, 0, 0, 0, 0)
  }

  lemma StatusExists() returns (code: Code)
    ensures StatusCopy(code)
  {
    hide Pack, DecodeWord;
    DecodePacked(0x83, 2, 2, 2, 0, 0);
    DecodePacked(0x01, 3, 2, 0, 0, 0);
    DecodePacked(0x13, 0, 0, 0, 0, 0);
    code := [Pack(0x83, 2, 2, 2, 0, 0), Pack(0x00, 0, 0, 0, 0, 0), Pack(0x01, 3, 2, 0, 0, 0),
             Pack(0x13, 0, 0, 0, 0, 0)];
  }

  lemma {:induction false} OrZero(a: nat, n: nat)
    requires a < Pow2(n)
    ensures Bits(BOR, a, 0, n) == a && Bits(BOR, 0, a, n) == a
  {
    if n > 0 {
      OrZero(a / 2, n - 1);
    }
  }

  lemma StatusRegion()
    ensures RegionSet(AT_REGION.regions) == map[(0, 1) := AT_REGION.regions[0]]
    ensures AbsBase(AT_REGION.regions[0]) == 0x1_0000_0000
  {
    hide Bits, Pow2;
    Pow2At64();
    Pow2Add(64, 64);
    assert 0x1_0000_0000 < Pow2(128);
    OrZero(0x1_0000_0000, 128);
    assert AT_REGION.regions[..0] == [];
  }

  lemma StatusAccepted(code: Code)
    requires StatusCopy(code)
    ensures Verify(code, AT_REGION).ok
  {
    hide At, AbsBase, RegionSet, AddrOk, Visit, InitialAbs;
    var v0 := InitialScan(code, AT_REGION);
    assert AddrOk(v0.abs, 2, RegionSet(AT_REGION.regions)) by { StartFits(); }
    VisitPasses(At(code, 0), 0, 4, v0, AT_REGION, []);
    var v1 := Visit(At(code, 0), 0, 4, v0, AT_REGION);
    VisitPasses(At(code, 2), 2, 4, v1, AT_REGION, []);
    var v2 := Visit(At(code, 2), 2, 4, v1, AT_REGION);
    VisitPasses(At(code, 3), 3, 4, v2, AT_REGION, []);
    var v3 := Visit(At(code, 3), 3, 4, v2, AT_REGION);
    assert v1.inFlightMax <= 32 by { OneInFlight(At(code, 0), v0); }
    ScanEnds(code, v3, AT_REGION);
    ScanNext(code, 3, v2, AT_REGION);
    ScanNext(code, 2, v1, AT_REGION);
    ScanNext(code, 0, v0, AT_REGION);
  }

  lemma OneInFlight(h: Decoded, v: Scan)
    requires v.inFlightMax == 0
    ensures Visit(h, 0, 4, v, AT_REGION).inFlightMax <= 32
  {
    hide InstrOk, AbsStep, PopEnded, Product;
  }

  lemma StartFits()
    ensures AddrOk(InitialAbs(AT_REGION.arguments), 2, RegionSet(AT_REGION.regions))
  {
    hide AbsBase, RegionSet, AllTop;
    StatusRegion();
    assert AT_REGION.arguments[..0] == [];
    assert Get(InitialAbs(AT_REGION.arguments), 2) == AbsVal(0x1_0000_0000, 0x1_0000_0000, Some((0, 1)), false);
  }

  /** The LOAD runs with base 0, outside the region: the status of a MEMCPY has to go to r0. */
  lemma StatusRegisterUnsound(mem: Mem) returns (code: Code)
    ensures var args := [0, 0x1_0000_0000];
            && Verify(code, AT_REGION).ok && ArgsInBounds(Reset(args, mem).d.regs, AT_REGION.arguments)
            && var s := Run(code, Reset(args, mem), 1); Live(code, s) && !BasesInRegions(code, AT_REGION, s)
  {
    hide At, Verify, AbsBase, Memcpy, ExtraReg;
    code := StatusExists();
    StatusAccepted(code);
    StatusRegion();
    var s0 := Reset([0, 0x1_0000_0000], mem);
    assert s0.d.regs[2] == 0x1_0000_0000;
    assert Run(code, s0, 1) == Run(code, Step(code, s0), 0);
    var s := Step(code, s0);
    assert s.pc == 2 && s.status == Running && s.d.regs[2] == 0;
  }

  // ----- a count written inside an outer loop -----

  /** Two loops, r1 is 2 and r2 is 1 at entry. */
  const TWO_COUNTS := Manifest(8, [], [Argument(1, 2, 2, None), Argument(2, 1, 1, None)])

  /** LOOP r1 { LOOP r2 { NOP } LI r2, 8 } RET r0. */
  predicate Refill(code: Code) {
    && |code| == 5 && At(code, 0) == Decoded(LOOP, 0, 1, 0, 0, 3) && At(code, 1) == Decoded(LOOP, 0, 2, 0, 0, 1)
    && At(code, 2) == Decoded(NOP, 0, 0, 0, 0, 0) && At(code, 3) == Decoded(COMPUTE, 2, 0, 0, LI, 8)
    && At(code, 4) == Decoded(RET, 0, 0, 0, 0, 0)
  }

  lemma RefillExists() returns (code: Code)
    ensures Refill(code)
  {
    hide Pack, DecodeWord;
    DecodePacked(0x11, 0, 1, 0, 0, 3);
    DecodePacked(0x11, 0, 2, 0, 0, 1);
    DecodePacked(0x00, 0, 0, 0, 0, 0);
    DecodePacked(0x20, 2, 0, 0, LI, 8);
    DecodePacked(0x13, 0, 0, 0, 0, 0);
    code := [Pack(0x11, 0, 1, 0, 0, 3), Pack(0x11, 0, 2, 0, 0, 1), Pack(0x00, 0, 0, 0, 0, 0),
             Pack(0x20, 2, 0, 0, LI, 8),
             Pack(0x13, 0, 0, 0, 0, 0)];
  }

  lemma RefillNested(code: Code)
    requires Refill(code)
    ensures WellNested(code, 2, 3) && WellNested(code, 1, 4) && WellNested(code, 0, 5)
    ensures WellNested(code, 3, 3) && WellNested(code, 3, 4) && WellNested(code, 4, 4) && WellNested(code, 4, 5)
  {
    hide At;
    assert WellNested(code, 3, 3) && WellNested(code, 4, 4) && WellNested(code, 5, 5);
    assert WellNested(code, 2, 3);
    assert WellNested(code, 3, 4) && WellNested(code, 4, 5);
    assert WellNested(code, 1, 4);
  }

  lemma CountsKnown()
    ensures Get(InitialAbs(TWO_COUNTS.arguments), 1) == AbsVal(2, 2, None, false)
    ensures Get(InitialAbs(TWO_COUNTS.arguments), 2) == AbsVal(1, 1, None, false)
  {
    hide AllTop;
    assert TWO_COUNTS.arguments[..1] == [Argument(1, 2, 2, None)];
    assert TWO_COUNTS.arguments[..1][..0] == [];
    assert InitialAbs(TWO_COUNTS.arguments[..1]) == InitialAbs([])[1 := AbsVal(2, 2, None, false)];
  }

  /** Frames of a loop around [2, 3) inside one around [1, 4). */
  lemma TwoFrames(outer: LoopFrame, inner: LoopFrame)
    requires outer == LoopFrame(4, 2) && inner == LoopFrame(3, 1)
    ensures PopEnded([], 0) == [] && PopEnded([outer], 1) == [outer] && PopEnded([outer, inner], 2) == [outer, inner]
    ensures PopEnded([outer, inner], 3) == [outer] && PopEnded([outer], 4) == []
    ensures Product([]) == 1 && Product([outer]) == 2 && Product([outer, inner]) == 2
    ensures [] + [outer] == [outer] && [outer] + [inner] == [outer, inner]
  {
    assert [outer, inner][..1] == [outer] && [outer][..0] == [];
  }

  lemma RefillAccepted(code: Code)
    requires Refill(code)
    ensures Verify(code, TWO_COUNTS).ok && Verify(code, TWO_COUNTS).staticStepBound == 8
  {
    hide At, InitialAbs, AbsStep, Visit, PopEnded, Product, ScanFrom;
    CountsKnown();
    var abs := InitialAbs(TWO_COUNTS.arguments);
    var outer, inner := LoopFrame(4, 2), LoopFrame(3, 1);
    TwoFrames(outer, inner);
    var v0 := InitialScan(code, TWO_COUNTS);
    VisitPasses(At(code, 0), 0, 5, v0, TWO_COUNTS, []);
    ControlKeepsAbs(At(code, 0), abs);
    var v1 := Visit(At(code, 0), 0, 5, v0, TWO_COUNTS);
    VisitPasses(At(code, 1), 1, 5, v1, TWO_COUNTS, [outer]);
    ControlKeepsAbs(At(code, 1), abs);
    var v2 := Visit(At(code, 1), 1, 5, v1, TWO_COUNTS);
    VisitPasses(At(code, 2), 2, 5, v2, TWO_COUNTS, [outer, inner]);
    var v3 := Visit(At(code, 2), 2, 5, v2, TWO_COUNTS);
    VisitPasses(At(code, 3), 3, 5, v3, TWO_COUNTS, [outer]);
    var v4 := Visit(At(code, 3), 3, 5, v3, TWO_COUNTS);
    VisitPasses(At(code, 4), 4, 5, v4, TWO_COUNTS, []);
    var v5 := Visit(At(code, 4), 4, 5, v4, TWO_COUNTS);
    ScanEnds(code, v5, TWO_COUNTS);
    ScanNext(code, 4, v4, TWO_COUNTS);
    ScanNext(code, 3, v3, TWO_COUNTS);
    ScanNext(code, 2, v2, TWO_COUNTS);
    ScanNext(code, 1, v1, TWO_COUNTS);
    ScanNext(code, 0, v0, TWO_COUNTS);
  }

  lemma PlainStep(code: Code, pc: int, d: Data)
    requires Refill(code) && (pc == 2 || pc == 3)
    ensures EffectAt(code, pc, d).regs == if pc == 2 then d.regs else d.regs[2 := 8]
  {
    hide At;
  }

  lemma {:induction false} NopsRun(code: Code, n: nat, d: Data)
    requires Refill(code) && WellNested(code, 2, 3)
    ensures var o := Repeat(code, 2, 3, n, d); o.stop == Through && o.steps == n && o.d.regs == d.regs
    decreases n
  {
    hide At, WellNested, EffectAt;
    RefillNested(code);
    if n > 0 {
      var d1 := EffectAt(code, 2, d);
      PlainStep(code, 2, d);
      assert Block(code, 3, 3, d1) == Outcome(d1, Through, 0);
      assert Block(code, 2, 3, d) == Outcome(d1, Through, 1);
      NopsRun(code, n - 1, d1);
    }
  }

  /** Once round the outer loop: the inner one runs r2 times, then r2 is eight. */
  lemma OnceRound(code: Code, d: Data)
    requires Refill(code)
    ensures WellNested(code, 1, 4)
    ensures Block(code, 1, 4, d).stop == Through
    ensures Block(code, 1, 4, d).steps == d.regs[2] as nat + 2
    ensures Block(code, 1, 4, d).d.regs == d.regs[2 := 8]
  {
    hide At, WellNested, EffectAt, Repeat;
    RefillNested(code);
    var d1 := EffectAt(code, 1, d);
    assert d1.regs == d.regs by { LoopStep(code, 1, d); }
    NopsRun(code, d.regs[2], d1);
    var d2 := Repeat(code, 2, 3, d.regs[2], d1).d;
    PlainStep(code, 3, d2);
    var d3 := EffectAt(code, 3, d2);
    assert Block(code, 4, 4, d3) == Outcome(d3, Through, 0);
    assert Block(code, 3, 4, d2) == Outcome(d3, Through, 1);
  }

  lemma LoopStep(code: Code, pc: int, d: Data)
    requires Refill(code) && (pc == 0 || pc == 1)
    ensures EffectAt(code, pc, d).regs == d.regs
  {
    hide At;
  }

  lemma RefillSteps(code: Code, d: Data)
    requires Refill(code) && d.regs[1] == 2 && d.regs[2] == 1
    ensures WellNested(code, 0, 5)
    ensures Block(code, 0, 5, d).stop == Halted(Returned, 4) && Block(code, 0, 5, d).steps == 15
  {
    hide At, WellNested, EffectAt;
    RefillNested(code);
    var d1 := EffectAt(code, 0, d);
    LoopStep(code, 0, d);
    OnceRound(code, d1);
    var d2 := Block(code, 1, 4, d1).d;
    OnceRound(code, d2);
    var d3 := Block(code, 1, 4, d2).d;
    assert Repeat(code, 1, 4, 0, d3) == Outcome(d3, Through, 0);
    assert Repeat(code, 1, 4, 1, d2) == Outcome(d3, Through, 10);
    assert Repeat(code, 1, 4, 2, d1) == Outcome(d3, Through, 13);
    assert Block(code, 4, 5, d3) == Outcome(EffectAt(code, 4, d3), Halted(Returned, 4), 1);
  }

  /** No count register is written before its loop, or inside it; loops around it are not looked at. */
  predicate OwnCountsUntouched(code: Code) {
    forall q: nat :: q < |code| && Swept(code, 0, q) && At(code, q).op.LOOP? ==>
      !WrittenBelow(code, At(code, q).rs1, After(code, q))
  }

  lemma RefillOwnCounts(code: Code)
    requires Refill(code)
    ensures OwnCountsUntouched(code)
  {
    hide DecodeWord;
    forall q: nat | q < |code| && Swept(code, 0, q) && At(code, q).op.LOOP?
      ensures !WrittenBelow(code, At(code, q).rs1, After(code, q))
    {
      assert q == 0 || q == 1;
      forall p: nat | p < After(code, q) && p < |code| && Swept(code, 0, p) && WritesRd(At(code, p))
        ensures At(code, p).rd != At(code, q).rs1
      {
        assert p == 3;
      }
    }
  }

  /**
   * The static bound is 8 and the run takes 15 steps, although no count register is written before or inside its
   * own loop: writes inside the loops around it have to be excluded too.
   */
  lemma OuterWritesBreakBound(mem: Mem) returns (code: Code)
    ensures Verify(code, TWO_COUNTS).ok && WellNested(code, 0, |code|) && OwnCountsUntouched(code)
    ensures ArgsInBounds(Reset([2, 1], mem).d.regs, TWO_COUNTS.arguments)
    ensures !EndsWithin(code, TWO_COUNTS, [2, 1], mem)
  {
    hide At, WellNested, Verify, Run, Block, OwnCountsUntouched, Refill;
    code := RefillExists();
    assert |code| == 5 by { RefillLength(code); }
    var s0 := Reset([2, 1], mem);
    RefillAccepted(code);
    RefillOwnCounts(code);
    RefillSteps(code, s0.d);
    FlatRefinesStructured(code, s0.d);
    BlockRetires(code, 0, 5, s0.d);
    var s8 := Run(code, s0, 8);
    RunAdd(code, s0, 8, 7);
    if s8.status != Running { DeadStays(code, s8, 7); }
  }

  lemma RefillLength(code: Code)
    requires Refill(code)
    ensures |code| == 5
  {
  }
}
