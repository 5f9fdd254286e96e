/** The static verifier: one linear scan over the decoded words with abstract registers and loop frames. */
module Verifier {
  import opened Prelude
  import opened Isa
  import opened Machine

  // ----- manifest -----

  datatype RegionDecl = RegionDecl(id: nat, device: nat, size: int, base: nat)

  datatype Argument = Argument(reg: int, lo: int, hi: int, region: Option<(nat, nat)>)

  datatype Manifest = Manifest(maxDynamic: int, regions: seq<RegionDecl>, arguments: seq<Argument>)

  // ----- abstract values -----

  /** An interval of 64-bit values, optionally tagged with a region; `unknown` marks a value nothing is known of. */
  datatype AbsVal = AbsVal(lo: int, hi: int, region: Option<(nat, nat)>, unknown: bool)

  const TOP := AbsVal(0, U64_MAX, None, true)

  function Const(v: int): AbsVal { AbsVal(Mask64(v), Mask64(v), None, false) }

  /** The two ends are masked independently. */
  function AbsAdd(a: AbsVal, b: AbsVal): AbsVal {
    if a.unknown || b.unknown then TOP
    else AbsVal(Mask64(a.lo + b.lo), Mask64(a.hi + b.hi), if a.region.Some? then a.region else b.region, false)
  }

  function AbsShl(a: AbsVal, sh: int): AbsVal {
    if a.unknown then TOP
    else AbsVal(Mask64(a.lo * Pow2(sh % 64)), Mask64(a.hi * Pow2(sh % 64)), None, false)
  }

  function AbsAndi(mask: u64): AbsVal {
    if mask == 0 then Const(0) else AbsVal(0, mask, None, false)
  }

  function AbsCompute(sub: reg, a: AbsVal, b: AbsVal, imm: int): AbsVal {
    match sub
    case 0xc => Const(imm)
    case 0x8 => AbsAdd(a, Const(imm))
    case 0x9 => AbsAndi(Mask64(imm))
    case 0xa => AbsShl(a, imm)
    case 0x0 => AbsAdd(a, b)
    case _ => TOP
  }

  type AbsRegs = map<int, AbsVal>

  function Get(abs: AbsRegs, r: int): AbsVal { if r in abs then abs[r] else TOP }

  function AllTop(n: nat): AbsRegs {
    if n == 0 then map[] else AllTop(n - 1)[n - 1 := TOP]
  }

  /** All unknown but r0, then the declared arguments; a later declaration of a register wins. */
  function InitialAbs(arguments: seq<Argument>): AbsRegs {
    if arguments == [] then AllTop(NUM_REGS)[0 := Const(0)]
    else
      var a := arguments[|arguments| - 1];
      InitialAbs(arguments[..|arguments| - 1])[a.reg := AbsVal(a.lo, a.hi, a.region, false)]
  }

  // ----- address checks -----

  /** `(device << 48) | (id << 32) | base`; over-long fields overlap. */
  function AbsBase(r: RegionDecl): nat {
    Bits(BOR, Bits(BOR, r.device * 0x1_0000_0000_0000, r.id * 0x1_0000_0000, 128), r.base, 128)
  }

  predicate Contains(r: RegionDecl, lo: int, hi: int) {
    AbsBase(r) <= lo && hi <= AbsBase(r) + r.size
  }

  /** Keyed by device and id; a later declaration of a key wins. */
  function RegionSet(regions: seq<RegionDecl>): (m: map<(nat, nat), RegionDecl>)
    ensures forall k :: k in m ==> m[k] in regions
  {
    if regions == [] then map[]
    else
      var r := regions[|regions| - 1];
      RegionSet(regions[..|regions| - 1])[(r.device, r.id) := r]
  }

  predicate AddrOk(abs: AbsRegs, r: int, declared: map<(nat, nat), RegionDecl>) {
    var av := Get(abs, r);
    && !av.unknown
    && match av.region
       case Some(key) => key in declared && Contains(declared[key], av.lo, av.hi)
       case None => exists key :: key in declared && Contains(declared[key], av.lo, av.hi)
  }

  // ----- the scan -----

  /** The end of an open loop body and the estimate of its iterations. */
  datatype LoopFrame = LoopFrame(endPc: int, iters: int)

  datatype Scan = Scan(
    ok: bool, bound: int, frames: seq<LoopFrame>, abs: AbsRegs,
    sawRet: bool, inFlight: int, inFlightMax: int, stopped: bool)

  function PopEnded(frames: seq<LoopFrame>, pc: int): (r: seq<LoopFrame>)
    ensures r <= frames
  {
    if frames != [] && pc >= frames[|frames| - 1].endPc then PopEnded(frames[..|frames| - 1], pc) else frames
  }

  function Product(frames: seq<LoopFrame>): int {
    if frames == [] then 1 else Product(frames[..|frames| - 1]) * Max(1, frames[|frames| - 1].iters)
  }

  function Estimate(abs: AbsRegs, r: int, maxDynamic: int): int {
    var av := Get(abs, r);
    Max(1, Min(if av.unknown then maxDynamic else av.hi, maxDynamic))
  }

  predicate JumpOk(h: Decoded, pc: int, n: int) { h.imm > 0 && pc + h.imm < n }

  predicate LoopOk(h: Decoded, pc: int, n: int, depth: int) {
    h.imm > 0 && pc + 1 + h.imm <= n && depth < MAX_LOOP_NEST
  }

  predicate CopyOk(h: Decoded, abs: AbsRegs, man: Manifest) {
    && AddrOk(abs, h.rs1, RegionSet(man.regions)) && AddrOk(abs, h.rs2, RegionSet(man.regions))
    && (!LenFromReg(h.sub) ==> 0 <= h.imm <= 0x1_0000_0000)
  }

  /** The checks one instruction has to pass. */
  predicate InstrOk(h: Decoded, pc: int, n: int, depth: int, abs: AbsRegs, man: Manifest) {
    match h.op
    case JUMP => JumpOk(h, pc, n)
    case LOOP => LoopOk(h, pc, n, depth)
    case MEMCPY => CopyOk(h, abs, man)
    case LOAD | STORE | CAS | CAA => AddrOk(abs, h.rs1, RegionSet(man.regions))
    case ILLEGAL(_) => false
    case _ => true
  }

  function AbsStep(h: Decoded, abs: AbsRegs): AbsRegs {
    match h.op
    case LOAD | CAS | CAA => abs[h.rd as int := TOP]
    case COMPUTE =>
      if h.rd == 0 then abs
      else abs[h.rd as int := AbsCompute(h.sub, Get(abs, h.rs1), Get(abs, h.rs2), h.imm)]
    case _ => abs
  }

  function VisitFrames(h: Decoded, pc: int, frames: seq<LoopFrame>, abs: AbsRegs, man: Manifest): seq<LoopFrame> {
    if h.op.LOOP? then frames + [LoopFrame(pc + 1 + h.imm, Estimate(abs, h.rs1, man.maxDynamic))] else frames
  }

  function Visit(h: Decoded, pc: int, n: int, v: Scan, man: Manifest): Scan {
    var frames := PopEnded(v.frames, pc);
    var bound := v.bound + Product(frames);
    var issued := Min(MAX_INFLIGHT_PER_TASK, v.inFlight + 1);
    Scan(
      v.ok && InstrOk(h, pc, n, |frames|, v.abs, man) && bound <= man.maxDynamic,
      bound,
      VisitFrames(h, pc, frames, v.abs, man),
      AbsStep(h, v.abs),
      v.sawRet || h.op.RET?,
      if h.op.WAIT? then Min(v.inFlight, h.imm) else if h.op.MEMCPY? then issued else v.inFlight,
      if h.op.MEMCPY? then Max(v.inFlightMax, issued) else v.inFlightMax,
      bound > man.maxDynamic)
  }

  function ScanFrom(code: Code, pc: nat, v: Scan, man: Manifest): Scan
    decreases |code| - pc
  {
    if v.stopped || pc >= |code| then v
    else
      var h := At(code, pc);
      ScanFrom(code, pc + Width(h.op), Visit(h, pc, |code|, v, man), man)
  }

  function InitialScan(code: Code, man: Manifest): Scan {
    Scan(|code| <= INSTR_STORE_DEPTH, 0, [], InitialAbs(man.arguments), false, 0, 0, false)
  }

  datatype Report = Report(ok: bool, staticStepBound: int, maxInflightAsync: int)

  function Verify(code: Code, man: Manifest): Report {
    var v := ScanFrom(code, 0, InitialScan(code, man), man);
    Report(v.ok && v.sawRet && v.inFlightMax <= MAX_INFLIGHT_PER_TASK, v.bound, v.inFlightMax)
  }

  // ----- the verifier as written: two loops over mutable state -----

  /** The decoding sweep. */
  function SweepFrom(code: Code, pc: nat): seq<(int, Decoded)>
    decreases |code| - pc
  {
    if pc >= |code| then [] else [(pc, At(code, pc))] + SweepFrom(code, pc + Width(At(code, pc).op))
  }

  method Decode(code: Code) returns (decoded: seq<(int, Decoded)>)
    ensures decoded == SweepFrom(code, 0)
  {
    hide DecodeWord;
    var pc: nat := 0;
    decoded := [];
    while pc < |code|
      invariant decoded + SweepFrom(code, pc) == SweepFrom(code, 0)
      decreases |code| - pc
    {
      var d := At(code, pc);
      decoded := decoded + [(pc, d)];
      pc := pc + Width(d.op);
    }
  }

  method CheckAddrReg(abs: AbsRegs, r: int, declared: map<(nat, nat), RegionDecl>) returns (ok: bool)
    ensures ok <==> AddrOk(abs, r, declared)
  {
    var av := Get(abs, r);
    if av.unknown { return false; }
    if av.region.Some? {
      return av.region.value in declared && Contains(declared[av.region.value], av.lo, av.hi);
    }
    var candidates := set key | key in declared && Contains(declared[key], av.lo, av.hi);
    if candidates == {} {
      assert forall key :: key in declared && Contains(declared[key], av.lo, av.hi) ==> key in candidates;
      return false;
    }
    var key :| key in candidates;
    return true;
  }

  /** The scan's mutable state. */
  class Scanner {
    const n: int
    const man: Manifest
    var ok: bool
    var bound: int
    var loopFrames: seq<LoopFrame>
    var absState: AbsRegs
    var sawRet: bool
    var inflightNow: int
    var inflightMax: int
    var stopped: bool

    function View(): Scan
      reads this
    {
      Scan(ok, bound, loopFrames, absState, sawRet, inflightNow, inflightMax, stopped)
    }

    constructor (code: Code, manifest: Manifest)
      ensures View() == InitialScan(code, manifest) && n == |code| && man == manifest
    {
      n, man := |code|, manifest;
      ok, bound, loopFrames, sawRet, inflightNow, inflightMax, stopped := true, 0, [], false, 0, 0, false;
      new;
      if |code| > INSTR_STORE_DEPTH { ok := false; }
      absState := map[];
      for r := 0 to NUM_REGS
        invariant absState == AllTop(r)
        invariant View() == InitialScan(code, manifest).(abs := absState)
        modifies this`absState
      {
        absState := absState[r := TOP];
      }
      absState := absState[0 := Const(0)];
      assert absState == InitialAbs([]);
      for i := 0 to |manifest.arguments|
        invariant absState == InitialAbs(manifest.arguments[..i])
        invariant View() == InitialScan(code, manifest).(abs := absState)
        modifies this`absState
      {
        var arg := manifest.arguments[i];
        assert manifest.arguments[..i + 1][..i] == manifest.arguments[..i];
        absState := absState[arg.reg := AbsVal(arg.lo, arg.hi, arg.region, false)];
      }
      assert manifest.arguments[..|manifest.arguments|] == manifest.arguments;
    }

    method PopFinished(pc: int)
      modifies this`loopFrames
      ensures loopFrames == PopEnded(old(loopFrames), pc)
    {
      while loopFrames != [] && pc >= loopFrames[|loopFrames| - 1].endPc
        invariant PopEnded(loopFrames, pc) == PopEnded(old(loopFrames), pc)
        decreases |loopFrames|
      {
        loopFrames := loopFrames[..|loopFrames| - 1];
      }
    }

    method Multiplier() returns (outer: int)
      ensures outer == Product(loopFrames)
    {
      outer := 1;
      for i := 0 to |loopFrames|
        invariant outer == Product(loopFrames[..i])
      {
        assert loopFrames[..i + 1][..i] == loopFrames[..i];
        outer := outer * Max(1, loopFrames[i].iters);
      }
      assert loopFrames[..|loopFrames|] == loopFrames;
    }

    /** The checks and the abstract effect of one instruction. */
    method CheckInstr(pc: int, d: Decoded)
      modifies this`ok, this`loopFrames, this`absState, this`sawRet, this`inflightNow, this`inflightMax
      ensures ok == (old(ok) && InstrOk(d, pc, n, |old(loopFrames)|, old(absState), man))
      ensures loopFrames == VisitFrames(d, pc, old(loopFrames), old(absState), man)
      ensures absState == AbsStep(d, old(absState))
      ensures sawRet == (old(sawRet) || d.op.RET?)
      ensures !d.op.WAIT? && !d.op.MEMCPY? ==> inflightNow == old(inflightNow) && inflightMax == old(inflightMax)
      ensures d.op.WAIT? ==> inflightNow == Min(old(inflightNow), d.imm) && inflightMax == old(inflightMax)
      ensures d.op.MEMCPY? ==>
                && inflightNow == Min(MAX_INFLIGHT_PER_TASK, old(inflightNow) + 1)
                && inflightMax == Max(old(inflightMax), inflightNow)
    {
      hide AbsCompute, AddrOk, RegionSet, LenFromReg;
      var declared := RegionSet(man.regions);
      if d.op == JUMP {
        if d.imm <= 0 { ok := false; }
        if pc + d.imm >= n { ok := false; }
      } else if d.op == LOOP {
        if d.imm <= 0 { ok := false; }
        if pc + 1 + d.imm > n { ok := false; }
        if |loopFrames| >= MAX_LOOP_NEST { ok := false; }
        var cntAv := Get(absState, d.rs1);
        var iters := if cntAv.unknown then man.maxDynamic else cntAv.hi;
        iters := Max(1, Min(iters, man.maxDynamic));
        loopFrames := loopFrames + [LoopFrame(pc + 1 + d.imm, iters)];
      } else if d.op == RET {
        sawRet := true;
      } else if d.op == WAIT {
        inflightNow := Min(inflightNow, d.imm);
      } else if d.op == MEMCPY {
        inflightNow := Min(MAX_INFLIGHT_PER_TASK, inflightNow + 1);
        inflightMax := Max(inflightMax, inflightNow);
        var dst := CheckAddrReg(absState, d.rs1, declared);
        var src := CheckAddrReg(absState, d.rs2, declared);
        if !dst || !src { ok := false; }
        if !LenFromReg(d.sub) && (d.imm < 0 || d.imm > 0x1_0000_0000) { ok := false; }
      } else if d.op == LOAD || d.op == STORE {
        var base := CheckAddrReg(absState, d.rs1, declared);
        if !base { ok := false; }
        if d.op == LOAD { absState := absState[d.rd as int := TOP]; }
      } else if d.op == CAS || d.op == CAA {
        var base := CheckAddrReg(absState, d.rs1, declared);
        if !base { ok := false; }
        absState := absState[d.rd as int := TOP];
      } else if d.op == COMPUTE {
        var v := AbsCompute(d.sub, Get(absState, d.rs1), Get(absState, d.rs2), d.imm);
        if d.rd != 0 { absState := absState[d.rd as int := v]; }
      } else if d.op != NOP {
        ok := false;
      }
    }

    /** One turn of the scanning loop. */
    method VisitInstr(pc: int, d: Decoded)
      modifies this
      ensures View() == Visit(d, pc, n, old(View()), man)
    {
      hide InstrOk, AbsStep, PopEnded, Product, VisitFrames;
      PopFinished(pc);
      var outer := Multiplier();
      bound := bound + outer;
      CheckInstr(pc, d);
      stopped := bound > man.maxDynamic;
      if stopped { ok := false; }
    }
  }

  /** The verifier computes `Verify`. */
  method RunVerifier(code: Code, man: Manifest) returns (report: Report)
    ensures report == Verify(code, man)
  {
    var decoded := Decode(code);
    var scan := new Scanner(code, man);
    hide At, Visit, InitialScan;
    var i: nat, pc: nat := 0, 0;
    while i < |decoded| && !scan.stopped
      invariant 0 <= i <= |decoded| && decoded[i..] == SweepFrom(code, pc)
      invariant fresh(scan) && scan.n == |code| && scan.man == man
      invariant ScanFrom(code, pc, scan.View(), man) == ScanFrom(code, 0, InitialScan(code, man), man)
      decreases |decoded| - i
    {
      var (at, d) := decoded[i];
      assert decoded[i] == decoded[i..][0] == (pc, At(code, pc));
      assert decoded[i + 1..] == decoded[i..][1..];
      scan.VisitInstr(at, d);
      i, pc := i + 1, pc + Width(d.op);
    }
    var ok := scan.ok;
    if !scan.sawRet { ok := false; }
    if scan.inflightMax > MAX_INFLIGHT_PER_TASK { ok := false; }
    report := Report(ok, scan.bound, scan.inflightMax);
  }
}
