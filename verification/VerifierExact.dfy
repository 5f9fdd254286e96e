/**
 * What the verifier accepts, from both sides: how precise its intervals are, and the exact condition under which it
 * accepts a well-nested program.
 */
module VerifierExact {
  import opened Prelude
  import opened BitExact
  import opened Isa
  import opened Machine
  import opened Structured
  import opened LoopShape
  import opened Verifier
  import opened VerifierSound
  import opened StepBound

  // ----- the abstract operations lose nothing they need not -----

  /** An interval of words. */
  predicate Proper(a: AbsVal) { !a.unknown && 0 <= a.lo <= a.hi <= U64_MAX }

  /** The ends of `r` are the least and the greatest result on words of the two operands. */
  ghost predicate Tight(r: AbsVal, sub: reg, a: AbsVal, b: AbsVal, imm: int) {
    && (exists x: u64, y: u64 :: In(x, a) && In(y, b) && Alu(sub, x, y, imm) == r.lo)
    && (exists x: u64, y: u64 :: In(x, a) && In(y, b) && Alu(sub, x, y, imm) == r.hi)
    && (forall x: u64, y: u64 :: In(x, a) && In(y, b) ==> r.lo <= Alu(sub, x, y, imm) <= r.hi)
  }

  /** The result is known exactly for these operations, on known operands where the operation reads them. */
  lemma KnownExactly(sub: reg, a: AbsVal, b: AbsVal, imm: int)
    ensures !AbsCompute(sub, a, b, imm).unknown <==>
              || sub == LI || sub == ANDI
              || ((sub == ADDI || sub == SHLI) && !a.unknown)
              || (sub == ADD && !a.unknown && !b.unknown)
  {
    hide Pow2, Mask64;
  }

  /** A region tag survives an addition: of the register for ADDI, of the left operand or else the right for ADD. */
  lemma TagKept(a: AbsVal, b: AbsVal, imm: int)
    requires !a.unknown && !b.unknown
    ensures AbsCompute(ADDI, a, b, imm).region == a.region
    ensures AbsCompute(ADD, a, b, imm).region == if a.region.Some? then a.region else b.region
    ensures forall sub: reg :: sub != ADDI && sub != ADD ==> AbsCompute(sub, a, b, imm).region == None
  {
    hide Pow2, Mask64;
  }

  lemma TightBy(r: AbsVal, sub: reg, a: AbsVal, b: AbsVal, imm: int, x: u64, y: u64, x': u64, y': u64)
    requires In(x, a) && In(y, b) && Alu(sub, x, y, imm) == r.lo
    requires In(x', a) && In(y', b) && Alu(sub, x', y', imm) == r.hi
    requires forall v: u64, w: u64 :: In(v, a) && In(w, b) ==> r.lo <= Alu(sub, v, w, imm) <= r.hi
    ensures Tight(r, sub, a, b, imm)
  {
    hide Alu, In;
  }

  lemma AddTight(a: AbsVal, b: AbsVal, imm: int)
    requires Proper(a) && Proper(b) && WrapTogether(a.lo + b.lo, a.hi + b.hi)
    ensures Tight(AbsCompute(ADD, a, b, imm), ADD, a, b, imm)
  {
    hide Tight, Mask64, WrapTogether;
    forall v: u64, w: u64 | In(v, a) && In(w, b)
      ensures Mask64(a.lo + b.lo) <= Alu(ADD, v, w, imm) <= Mask64(a.hi + b.hi)
    {
      MaskBetween(a.lo + b.lo, v + w, a.hi + b.hi);
    }
    TightBy(AbsCompute(ADD, a, b, imm), ADD, a, b, imm, a.lo, b.lo, a.hi, b.hi);
  }

  lemma AddImmTight(a: AbsVal, b: AbsVal, imm: int)
    requires Proper(a) && WrapTogether(a.lo + imm, a.hi + imm) && exists y: u64 :: In(y, b)
    ensures Tight(AbsCompute(ADDI, a, b, imm), ADDI, a, b, imm)
  {
    hide Tight, Mask64, WrapTogether;
    var y: u64 :| In(y, b);
    MaskedSum(a.lo, imm);
    MaskedSum(a.hi, imm);
    forall v: u64, w: u64 | In(v, a) && In(w, b)
      ensures Mask64(a.lo + imm) <= Alu(ADDI, v, w, imm) <= Mask64(a.hi + imm)
    {
      MaskBetween(a.lo + imm, v + imm, a.hi + imm);
    }
    TightBy(AbsCompute(ADDI, a, b, imm), ADDI, a, b, imm, a.lo, y, a.hi, y);
  }

  lemma ShiftTight(a: AbsVal, b: AbsVal, imm: int)
    requires Proper(a) && WrapTogether(a.lo * Pow2(imm % 64), a.hi * Pow2(imm % 64)) && exists y: u64 :: In(y, b)
    ensures Tight(AbsCompute(SHLI, a, b, imm), SHLI, a, b, imm)
  {
    hide Tight, Mask64, WrapTogether, Pow2;
    var y: u64 :| In(y, b);
    forall v: u64, w: u64 | In(v, a) && In(w, b)
      ensures Mask64(a.lo * Pow2(imm % 64)) <= Alu(SHLI, v, w, imm) <= Mask64(a.hi * Pow2(imm % 64))
    {
      ShiftSound(v, a.lo, a.hi, imm);
    }
    TightBy(AbsCompute(SHLI, a, b, imm), SHLI, a, b, imm, a.lo, y, a.hi, y);
  }

  lemma LoadImmTight(a: AbsVal, b: AbsVal, imm: int)
    requires (exists x: u64 :: In(x, a)) && exists y: u64 :: In(y, b)
    ensures Tight(AbsCompute(LI, a, b, imm), LI, a, b, imm)
  {
    hide Tight, Mask64;
    var x: u64 :| In(x, a);
    var y: u64 :| In(y, b);
    TightBy(AbsCompute(LI, a, b, imm), LI, a, b, imm, x, y, x, y);
  }

  /** Unknown, or an interval with a word in it. */
  predicate Inhabited(a: AbsVal) { a.unknown || Proper(a) }

  lemma SomeWord(a: AbsVal)
    requires Inhabited(a)
    ensures exists x: u64 :: In(x, a)
  {
    var w := if a.unknown then 0 else a.lo;
    assert In(w, a);
  }

  lemma ImmWraps(a: AbsVal, imm: int)
    requires !a.unknown && AddWrapsTogether(a, Const(imm))
    ensures WrapTogether(a.lo + imm, a.hi + imm)
  {
    var q := imm / 0x1_0000_0000_0000_0000;
    assert imm == q * 0x1_0000_0000_0000_0000 + Mask64(imm);
    MoreWhole(a.lo + Mask64(imm), q);
    MoreWhole(a.hi + Mask64(imm), q);
  }

  lemma MoreWhole(x: int, q: int)
    ensures (x + q * 0x1_0000_0000_0000_0000) / 0x1_0000_0000_0000_0000 == x / 0x1_0000_0000_0000_0000 + q
  {
    var d, r := x / 0x1_0000_0000_0000_0000, x % 0x1_0000_0000_0000_0000;
    assert x + q * 0x1_0000_0000_0000_0000 == (d + q) * 0x1_0000_0000_0000_0000 + r;
    DivModUnique(x + q * 0x1_0000_0000_0000_0000, d + q, r, 0x1_0000_0000_0000_0000);
  }

  /**
   * The converse of soundness: whenever both interval ends wrap together, the result on known operands is the smallest
   * interval around what the machine computes.
   */
  lemma ComputeTight(h: Decoded, abs: AbsRegs)
    requires h.sub in {LI, ADDI, SHLI, ADD} && ComputeWrapsTogether(h, abs)
    requires Inhabited(Get(abs, h.rs1)) && Inhabited(Get(abs, h.rs2))
    requires h.sub != LI ==> !Get(abs, h.rs1).unknown
    requires h.sub == ADD ==> !Get(abs, h.rs2).unknown
    ensures var a, b := Get(abs, h.rs1), Get(abs, h.rs2);
            Tight(AbsCompute(h.sub, a, b, h.imm), h.sub, a, b, h.imm)
  {
    hide Tight, AbsCompute, Pow2, Alu, Mask64;
    var a, b := Get(abs, h.rs1), Get(abs, h.rs2);
    SomeWord(a);
    SomeWord(b);
    if h.sub == LI {
      LoadImmTight(a, b, h.imm);
    } else if h.sub == ADDI {
      ImmWraps(a, h.imm);
      AddImmTight(a, b, h.imm);
    } else if h.sub == SHLI {
      ShiftTight(a, b, h.imm);
    } else {
      AddTight(a, b, h.imm);
    }
  }

  /** ANDI knows nothing of its operand: the result is from zero to the mask, whatever the operand. */
  lemma MaskTight(a: AbsVal, b: AbsVal, imm: int)
    requires 0 <= imm < 0x80_0000_0000
    ensures var r := AbsCompute(ANDI, a, b, imm); r.lo == 0 && r.hi == imm && Tight(r, ANDI, TOP, TOP, imm)
  {
    hide Tight, Bitwise, In;
    assert In(0, TOP) && In(imm, TOP) by { Everything(0); Everything(imm); }
    MaskEnds(imm);
    forall v: u64, w: u64 ensures 0 <= Alu(ANDI, v, w, imm) <= imm { MaskBounds(v, imm); }
    TightBy(AbsCompute(ANDI, a, b, imm), ANDI, TOP, TOP, imm, 0, 0, imm, 0);
  }

  lemma Everything(x: u64)
    ensures In(x, TOP)
  {
  }

  lemma MaskEnds(m: u64)
    ensures Bitwise(BAND, 0, m) == 0 && Bitwise(BAND, m, m) == m
  {
    hide Bitwise;
    LogicSums(0, m);
    LogicSums(m, m);
    SameBits(m);
    NoBits(m);
  }

  lemma SameBits(m: u64)
    ensures Bitwise(BXOR, m, m) == 0
  {
    hide Bits;
    Pow2At64();
    XorSelf(m, 64);
  }

  lemma {:induction false} XorSelf(a: nat, n: nat)
    ensures Bits(BXOR, a, a, n) == 0
  {
    if n > 0 { XorSelf(a / 2, n - 1); }
  }

  lemma NoBits(m: u64)
    ensures Bitwise(BAND, 0, m) == 0
  {
    hide Bits;
    Pow2At64();
    ZeroAnd(m, 64);
  }

  lemma {:induction false} ZeroAnd(a: nat, n: nat)
    ensures Bits(BAND, 0, a, n) == 0
  {
    if n > 0 { ZeroAnd(a / 2, n - 1); }
  }

  lemma MaskBounds(v: u64, m: u64)
    ensures Bitwise(BAND, v, m) <= m
  {
    hide Bits;
    Pow2At64();
    AndAtMostMask(v, m, 64);
  }

  // ----- address checks -----

  /** Where a region starts in the unified address space. */
  function Start(r: RegionDecl): nat {
    if MakeAddr(r.device, r.id, r.base).Ok? then MakeAddr(r.device, r.id, r.base).value else AbsBase(r)
  }

  /** Declaration `i` is the last of its device and id. */
  predicate InForce(regions: seq<RegionDecl>, i: nat)
    requires i < |regions|
  {
    forall j :: i < j < |regions| ==> (regions[j].device, regions[j].id) != (regions[i].device, regions[i].id)
  }

  /** An address is accepted if it is known to lie in its own region, or in some region when it has none. */
  ghost predicate AddressPasses(regions: seq<RegionDecl>, a: AbsVal) {
    !a.unknown &&
    exists i: nat :: i < |regions| && InForce(regions, i)
      && (a.region.Some? ==> a.region.value == (regions[i].device, regions[i].id))
      && Start(regions[i]) <= a.lo && a.hi <= Start(regions[i]) + regions[i].size
  }

  lemma {:induction false} DeclaredIs(regions: seq<RegionDecl>, i: nat)
    requires i < |regions| && InForce(regions, i)
    ensures var key := (regions[i].device, regions[i].id);
            key in RegionSet(regions) && RegionSet(regions)[key] == regions[i]
  {
    var n := |regions| - 1;
    if i < n {
      assert regions[i] == regions[..n][i];
      assert InForce(regions[..n], i) by {
        forall j | i < j < n
          ensures (regions[..n][j].device, regions[..n][j].id) != (regions[i].device, regions[i].id)
        {
          assert regions[..n][j] == regions[j];
        }
      }
      DeclaredIs(regions[..n], i);
    }
  }

  lemma {:induction false} KeyDeclared(regions: seq<RegionDecl>, key: (nat, nat)) returns (i: nat)
    requires key in RegionSet(regions)
    ensures i < |regions| && InForce(regions, i) && RegionSet(regions)[key] == regions[i]
    ensures key == (regions[i].device, regions[i].id)
  {
    var n := |regions| - 1;
    if (regions[n].device, regions[n].id) == key {
      i := n;
    } else {
      i := KeyDeclared(regions[..n], key);
      forall j | i < j < |regions| ensures (regions[j].device, regions[j].id) != key {
        if j < n { assert regions[j] == regions[..n][j]; }
      }
    }
  }

  lemma StartIs(r: RegionDecl)
    ensures AbsBase(r) == Start(r)
  {
    hide Bits;
    if MakeAddr(r.device, r.id, r.base).Ok? {
      FieldWidths();
      var high, middle := r.device * 0x1_0000_0000_0000, r.id * 0x1_0000_0000;
      DivModUnique(high, r.device, 0, 0x1_0000_0000_0000);
      JoinedFields(high, middle, 48);
      DivModUnique(high + middle, r.device * 0x1_0000 + r.id, 0, 0x1_0000_0000);
      JoinedFields(high + middle, r.base, 32);
    }
  }

  lemma FieldWidths()
    ensures Pow2(32) == 0x1_0000_0000 && Pow2(48) == 0x1_0000_0000_0000
  {
    assert Pow2(8) == 0x100;
    Pow2Add(8, 8);
    Pow2Add(16, 16);
    Pow2Add(32, 16);
  }

  /** Fields in disjoint bits add up. */
  lemma JoinedFields(a: u64, b: u64, k: nat)
    requires b < Pow2(k) && a % Pow2(k) == 0
    ensures Bits(BOR, a, b, 128) == a + b
  {
    hide Bits, Pow2;
    Pow2At64();
    Pow2Add(64, 64);
    AndOrSum(a, b, 128);
    DisjointAnd(a, b, k, 128);
  }

  lemma {:induction false} DisjointAnd(a: nat, b: nat, k: nat, n: nat)
    requires b < Pow2(k) && a % Pow2(k) == 0
    ensures Bits(BAND, a, b, n) == 0
    decreases n
  {
    hide Pow2;
    if k == 0 {
      Pow2Next(0);
      AndZero(a, n);
    } else if n > 0 {
      Pow2Next(k - 1);
      HalfReduced(a, Pow2(k - 1));
      DisjointAnd(a / 2, b / 2, k - 1, n - 1);
    }
  }

  /** What the check of a base register decides. */
  lemma AddressChecked(abs: AbsRegs, r: reg, regions: seq<RegionDecl>)
    ensures AddrOk(abs, r, RegionSet(regions)) <==> AddressPasses(regions, Get(abs, r))
  {
    hide RegionSet, AbsBase, Start, InForce;
    var av, declared := Get(abs, r), RegionSet(regions);
    if AddrOk(abs, r, declared) {
      var key: (nat, nat);
      if av.region.Some? {
        key := av.region.value;
      } else {
        key :| key in declared && Contains(declared[key], av.lo, av.hi);
      }
      var i := KeyDeclared(regions, key);
      StartIs(regions[i]);
    }
    if AddressPasses(regions, av) {
      var i: nat :| i < |regions| && InForce(regions, i)
        && (av.region.Some? ==> av.region.value == (regions[i].device, regions[i].id))
        && Start(regions[i]) <= av.lo && av.hi <= Start(regions[i]) + regions[i].size;
      DeclaredIs(regions, i);
      StartIs(regions[i]);
      assert Contains(declared[(regions[i].device, regions[i].id)], av.lo, av.hi);
    }
  }

  // ----- acceptance -----

  /** What has to hold of the instruction at a swept place of a well-nested program. */
  ghost predicate Passes(code: Code, man: Manifest, q: nat)
    requires WellNested(code, 0, |code|) && q < |code| && Swept(code, 0, q)
  {
    var (h, abs) := (At(code, q), AbsAt(code, man, q));
    match h.op
    case JUMP => 0 < h.imm < |code| - q
    case LOOP => 0 < h.imm < |code| - q && |Enclosing(code, 0, |code|, q)| < 8
    case LOAD | STORE | CAS | CAA => AddressPasses(man.regions, Get(abs, h.rs1))
    case MEMCPY =>
      && AddressPasses(man.regions, Get(abs, h.rs1)) && AddressPasses(man.regions, Get(abs, h.rs2))
      && (h.sub / 2 % 2 == 0 ==> 0 <= h.imm <= 0x1_0000_0000)
    case ILLEGAL(_) => false
    case _ => true
  }

  /** The program fits, returns somewhere, costs at most maxDynamic steps and passes every check. */
  ghost predicate Acceptable(code: Code, man: Manifest)
    requires WellNested(code, 0, |code|)
  {
    && |code| <= 1024
    && (exists q: nat :: q < |code| && Swept(code, 0, q) && At(code, q).op.RET?)
    && Cost(code, man, 0, |code|) <= man.maxDynamic
    && forall q: nat :: q < |code| && Swept(code, 0, q) ==> Passes(code, man, q)
  }

  lemma CheckPasses(code: Code, man: Manifest, q: nat)
    requires WellNested(code, 0, |code|) && q < |code| && Swept(code, 0, q)
    ensures InstrOk(At(code, q), q, |code|, |Enclosing(code, 0, |code|, q)|, AbsAt(code, man, q), man)
       <==> Passes(code, man, q)
  {
    hide At, WellNested, Enclosing, AbsAt, AddrOk, RegionSet, AddressPasses;
    var (h, abs) := (At(code, q), AbsAt(code, man, q));
    AddressChecked(abs, h.rs1, man.regions);
    AddressChecked(abs, h.rs2, man.regions);
  }

  /** What the sweep visits in a block are its items. */
  lemma {:induction false} SweptItem(code: Code, lo: nat, hi: int, q: nat)
    requires WellNested(code, lo, hi) && Swept(code, lo, q) && q < hi
    ensures Item(code, lo, hi, q)
    decreases hi - lo
  {
    hide At;
    SweptFits(code, lo, q);
    if q != lo {
      var next := After(code, lo);
      if At(code, lo).op.LOOP? && q < next {
        SweptItem(code, lo + 1, next, q);
      } else {
        if At(code, lo).op.LOOP? {
          BlockSwept(code, lo + 1, next);
          SweptBetween(code, lo + 1, next, q);
        }
        SweptItem(code, next, hi, q);
      }
    }
  }

  /** Of two places the sweep visits the later one is visited from the earlier. */
  lemma {:induction false} SweptBetween(code: Code, pc: nat, m: nat, t: nat)
    requires Swept(code, pc, m) && Swept(code, pc, t) && m <= t
    ensures Swept(code, m, t)
    decreases |code| - pc
  {
    hide At;
    SweptFits(code, pc, m);
    if pc != m {
      SweptBetween(code, pc + Width(At(code, pc).op), m, t);
    }
  }

  lemma {:induction false} BoundGrows(code: Code, man: Manifest, pc: nat, v: Scan, t: int)
    requires Swept(code, pc, t)
    ensures ScanTo(code, man, pc, v, t).bound >= v.bound
    decreases |code| - pc
  {
    hide At, InstrOk, AbsStep, PopEnded, Product, VisitFrames;
    if pc != t {
      ProductPositive(PopEnded(v.frames, pc));
      BoundGrows(code, man, pc + Width(At(code, pc).op), Visit(At(code, pc), pc, |code|, v, man), t);
    }
  }

  lemma {:induction false} ReturnSeen(code: Code, man: Manifest, pc: nat, v: Scan, t: int)
    requires Swept(code, pc, t)
    ensures ScanTo(code, man, pc, v, t).sawRet <==>
              v.sawRet || exists q: nat :: q < t && q < |code| && Swept(code, pc, q) && At(code, q).op.RET?
    decreases |code| - pc
  {
    hide At, InstrOk, AbsStep, PopEnded, Product, VisitFrames;
    SweptFits(code, pc, t);
    if pc == t {
      forall q: nat | q < t && Swept(code, pc, q) ensures false { SweptFits(code, pc, q); }
    } else {
      var next := pc + Width(At(code, pc).op);
      var v' := Visit(At(code, pc), pc, |code|, v, man);
      ReturnSeen(code, man, next, v', t);
      SweptFits(code, next, t);
      assert v'.sawRet <==> v.sawRet || At(code, pc).op.RET?;
      assert Swept(code, pc, pc);
      forall q: nat | q < t && q < |code| ensures Swept(code, pc, q) <==> q == pc || Swept(code, next, q) {
      }
    }
  }

  lemma {:induction false} FewInFlight(code: Code, man: Manifest, pc: nat, v: Scan)
    requires v.inFlightMax <= 32
    ensures ScanFrom(code, pc, v, man).inFlightMax <= 32
    decreases |code| - pc
  {
    hide At, InstrOk, AbsStep, PopEnded, Product, VisitFrames;
    if !v.stopped && pc < |code| {
      FewInFlight(code, man, pc + Width(At(code, pc).op), Visit(At(code, pc), pc, |code|, v, man));
    }
  }

  /** The scan goes through to the end when nothing is wrong on the way. */
  lemma {:induction false} ScanGoesThrough(code: Code, man: Manifest, pc: nat, v: Scan)
    requires WellNested(code, 0, |code|) && Swept(code, 0, pc) && Swept(code, pc, |code|)
    requires v == ScanTo(code, man, 0, InitialScan(code, man), pc) && v.ok && !v.stopped
    requires ScanTo(code, man, pc, v, |code|).bound <= man.maxDynamic
    requires forall q: nat :: q < |code| && Swept(code, 0, q) ==> Passes(code, man, q)
    ensures ScanFrom(code, pc, v, man) == ScanTo(code, man, pc, v, |code|) && ScanFrom(code, pc, v, man).ok
    decreases |code| - pc
  {
    hide At, InstrOk, AbsStep, PopEnded, Product, VisitFrames, WellNested, Passes, InitialScan, Enclosing, AbsFrom;
    if pc < |code| {
      var v0 := InitialScan(code, man);
      var next := pc + Width(At(code, pc).op);
      var v' := Visit(At(code, pc), pc, |code|, v, man);
      InstrPasses(code, man, pc, v);
      SweptNext(code, 0, v0.abs, pc);
      SweptFits(code, next, |code|);
      BoundGrows(code, man, next, v', |code|);
      ScanToSplit(code, man, 0, v0, pc, next);
      ScanGoesThrough(code, man, next, v');
    }
  }

  lemma InstrPasses(code: Code, man: Manifest, q: nat, v: Scan)
    requires WellNested(code, 0, |code|) && Swept(code, 0, q) && q < |code|
    requires v == ScanTo(code, man, 0, InitialScan(code, man), q) && Passes(code, man, q)
    ensures InstrOk(At(code, q), q, |code|, |PopEnded(v.frames, q)|, v.abs, man)
  {
    hide At, InstrOk, WellNested, Passes, Enclosing, AbsFrom, Item, ScanTo;
    ScanPlace(code, man, q);
    CheckPasses(code, man, q);
  }

  /** What the scan holds at a swept place: the abstract registers and as many frames as there are loops around it. */
  lemma ScanPlace(code: Code, man: Manifest, q: nat)
    requires WellNested(code, 0, |code|) && Swept(code, 0, q) && q < |code|
    ensures var v := ScanTo(code, man, 0, InitialScan(code, man), q);
            v.abs == AbsAt(code, man, q) && |PopEnded(v.frames, q)| == |Enclosing(code, 0, |code|, q)|
  {
    hide At, WellNested, Enclosing, Item, ScanTo;
    var v0 := InitialScan(code, man);
    ScanToAbs(code, man, 0, v0, q);
    SweptItem(code, 0, |code|, q);
    ScanDepth(code, man, 0, |code|, v0, [], q);
  }

  /**
   * The verdict, exactly: a well-nested program is accepted if and only if it fits the instruction store, returns
   * somewhere, costs no more than maxDynamic steps, jumps and loops forward and inside, nests at most eight loops and
   * has every base register in a declared region.
   */
  lemma AcceptedIff(code: Code, man: Manifest)
    requires WellNested(code, 0, |code|)
    ensures Verify(code, man).ok <==> Acceptable(code, man)
  {
    hide At, WellNested, Cost, Passes, ScanTo, ScanFrom, Visit, InitialAbs, Enclosing;
    var v0 := InitialScan(code, man);
    BlockSwept(code, 0, |code|);
    ReturnSeen(code, man, 0, v0, |code|);
    ScanWhole(code, man);
    FewInFlight(code, man, 0, v0);
    if Verify(code, man).ok {
      BoundIsCost(code, man);
      AcceptedAt(code, man, 0, v0, |code|);
      ScanKeepsOk(code, 0, v0, man);
      assert ScanFrom(code, |code|, ScanTo(code, man, 0, v0, |code|), man) == ScanTo(code, man, 0, v0, |code|) by {
        ScanOver(code, man, ScanTo(code, man, 0, v0, |code|));
      }
      forall q: nat | q < |code| && Swept(code, 0, q) ensures Passes(code, man, q) {
        AcceptedVisit(code, man, q);
        ScanPlace(code, man, q);
        CheckPasses(code, man, q);
      }
    }
    if Acceptable(code, man) {
      assert v0 == ScanTo(code, man, 0, v0, 0) by { ScanNothing(code, man, v0); }
      ScanGoesThrough(code, man, 0, v0);
    }
  }

  lemma ScanOver(code: Code, man: Manifest, v: Scan)
    ensures ScanFrom(code, |code|, v, man) == v
  {
  }

  lemma ScanNothing(code: Code, man: Manifest, v: Scan)
    ensures Swept(code, 0, 0) && ScanTo(code, man, 0, v, 0) == v
  {
  }

  /** Scanned to the end, a well-nested program has its cost as bound. */
  lemma ScanWhole(code: Code, man: Manifest)
    requires WellNested(code, 0, |code|)
    ensures Swept(code, 0, |code|)
    ensures ScanTo(code, man, 0, InitialScan(code, man), |code|).bound == Cost(code, man, 0, |code|)
  {
    hide At, WellNested, Cost, ScanTo, InitialAbs;
    ScanNothing(code, man, InitialScan(code, man));
    ScanBlock(code, man, 0, |code|, InitialScan(code, man), []);
  }
}
