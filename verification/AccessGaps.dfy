/**
 * What the verifier does not look at.  It checks base registers only, with the upper end of a region included: for
 * offsets, copy extents and that end, accepted programs whose edges respect the scan, and exactly when their
 * accesses stay inside.
 */
module AccessGaps {
  import opened Prelude
  import opened Isa
  import opened Machine
  import opened Copy
  import opened Footprint
  import opened Verifier
  import opened VerifierSound
  import opened AccessSound
  import opened SideConditions

  // ----- a load at an offset -----

  /** The two gigabytes of `OPEN`; r2 at most `top`. */
  function Bounded(top: nat): Manifest { Manifest(100, OPEN.regions, [Argument(2, 0, top, None)]) }

  lemma BoundedKnown(top: nat)
    ensures Get(InitialAbs(Bounded(top).arguments), 2) == AbsVal(0, top, None, false)
  {
    hide AllTop;
    assert Bounded(top).arguments[..0] == [];
  }

  lemma BoundedFits(top: nat)
    requires top <= 0x8000_0000
    ensures AddrOk(InitialAbs(Bounded(top).arguments), 2, RegionSet(OPEN.regions))
  {
    hide AbsBase, RegionSet, InitialAbs;
    BoundedKnown(top);
    OpenRegion();
    assert Contains(RegionSet(OPEN.regions)[(0, 0)], 0, top);
  }

  /** The words inside the two gigabytes. */
  lemma OpenDeclares(top: nat, a: u64)
    ensures Declared(Bounded(top), a) <==> a <= 0x7FFF_FFF8
  {
    hide AbsBase;
    OpenRegion();
    assert OPEN.regions[0] in Bounded(top).regions;
  }

  /** LOAD r3, [r2 + imm]; RET r0. */
  predicate Reader(code: Code, imm: int) {
    |code| == 2 && At(code, 0) == Decoded(LOAD, 3, 2, 0, 0, imm) && At(code, 1) == Decoded(RET, 0, 0, 0, 0, 0)
  }

  lemma ReaderExists(imm: int) returns (code: Code)
    requires SignedImm(imm)
    ensures Reader(code, imm)
  {
    hide Pack, DecodeWord, EncodeWord;
    DecodeAfterEncode(0x01, 3, 2, 0, 0, imm);
    DecodePacked(0x13, 0, 0, 0, 0, 0);
    code := [EncodeWord(0x01, 3, 2, 0, 0, imm).value, Pack(0x13, 0, 0, 0, 0, 0)];
  }

  lemma ReaderAccepted(code: Code, imm: int, top: nat)
    requires Reader(code, imm) && top <= 0x8000_0000
    ensures Verify(code, Bounded(top)).ok && EdgesOk(code, Bounded(top))
  {
    hide At, AbsBase, RegionSet, AddrOk, Visit, InitialAbs;
    var man := Bounded(top);
    var v0 := InitialScan(code, man);
    BoundedFits(top);
    VisitPasses(At(code, 0), 0, 2, v0, man, []);
    var v1 := Visit(At(code, 0), 0, 2, v0, man);
    VisitPasses(At(code, 1), 1, 2, v1, man, []);
    var v2 := Visit(At(code, 1), 1, 2, v1, man);
    ScanEnds(code, v2, man);
    ScanNext(code, 1, v1, man);
    ScanNext(code, 0, v0, man);
    forall p: nat | p < |code| && Swept(code, 0, p) ensures EdgeOk(code, man, p) {
      assert p == 0 || p == 1;
    }
  }

  lemma ArgR2(v: u64, top: nat, mem: Mem)
    requires v <= top
    ensures ArgsInBounds(Reset([0, v], mem).d.regs, Bounded(top).arguments) && Reset([0, v], mem).d.regs[2] == v
  {
  }

  /**
   * The offset of a LOAD is not checked: with the base at the last word of the region every offset is accepted, and
   * the access stays inside exactly for the offsets from the start of the region up to 0.
   */
  lemma OffsetUnchecked(imm: int, mem: Mem) returns (code: Code)
    requires SignedImm(imm)
    ensures Reader(code, imm) && Verify(code, Bounded(0x7FFF_FFF8)).ok && EdgesOk(code, Bounded(0x7FFF_FFF8))
    ensures var s := Reset([0, 0x7FFF_FFF8], mem);
            && ArgsInBounds(s.d.regs, Bounded(0x7FFF_FFF8).arguments) && Live(code, s)
            && (AccessesDeclared(code, Bounded(0x7FFF_FFF8), s) <==> -0x7FFF_FFF8 <= imm <= 0)
  {
    hide At, Verify, EdgesOk, Declared;
    code := ReaderExists(imm);
    ReaderAccepted(code, imm, 0x7FFF_FFF8);
    ArgR2(0x7FFF_FFF8, 0x7FFF_FFF8, mem);
    OneWord(code, Bounded(0x7FFF_FFF8), Reset([0, 0x7FFF_FFF8], mem));
    OpenDeclares(0x7FFF_FFF8, EffectiveAddr(0x7FFF_FFF8, imm));
  }

  /** Checking the offset as well would have accepted exactly one: the condition on accesses holds only without one. */
  lemma OffsetConditionDecides(code: Code, imm: int)
    requires Reader(code, imm) && SignedImm(imm)
    ensures AccessesOk(code, Bounded(0x7FFF_FFF8), ScanAnnotation(code, Bounded(0x7FFF_FFF8))) <==> imm == 0
  {
    hide At, AbsBase, InitialAbs, ExtraReg;
    var man := Bounded(0x7FFF_FFF8);
    var inv := ScanAnnotation(code, man);
    BoundedKnown(0x7FFF_FFF8);
    OpenRegion();
    var av := AbsVal(0, 0x7FFF_FFF8, None, false);
    assert Get(inv(0), 2) == av;
    assert FitsSome(man, av, imm, 1) <==> imm == 0 by {
      assert man.regions == [OPEN.regions[0]] && AbsBase(OPEN.regions[0]) == 0;
      assert imm == 0 ==> Fits(OPEN.regions[0], av, imm, 1) && OPEN.regions[0] in man.regions;
    }
    assert AccessOk(At(code, 0), ExtraReg(code, 0), inv(0), man) <==> imm == 0;
    forall p: nat | p < |code| && Swept(code, 0, p) && Fetchable(code, p) && imm == 0
      ensures AccessOk(At(code, p), ExtraReg(code, p), inv(p), man)
    {
      assert p == 0 || p == 1;
    }
    assert Swept(code, 0, 0) && Fetchable(code, 0);
  }

  /** A LOAD touches one word. */
  lemma OneWord(code: Code, man: Manifest, s: State)
    requires Fetchable(code, s.pc) && At(code, s.pc).op.LOAD?
    ensures AccessesDeclared(code, man, s)
        <==> Declared(man, EffectiveAddr(s.d.regs[At(code, s.pc).rs1], At(code, s.pc).imm))
  {
    hide At, Declared, EffectiveAddr;
    var a := EffectiveAddr(s.d.regs[At(code, s.pc).rs1], At(code, s.pc).imm);
    assert Touches(At(code, s.pc), ExtraReg(code, s.pc), s.d.regs, a);
  }

  /**
   * The end of a region counts as inside: r2 may be bounded by it, and the load, whose base every theorem on bases
   * covers, is inside exactly when eight bytes are left.
   */
  lemma EndIncluded(v: u64, mem: Mem) returns (code: Code)
    requires v <= 0x8000_0000
    ensures Reader(code, 0) && Verify(code, Bounded(0x8000_0000)).ok && EdgesOk(code, Bounded(0x8000_0000))
    ensures var s := Reset([0, v], mem);
            && ArgsInBounds(s.d.regs, Bounded(0x8000_0000).arguments) && Live(code, s)
            && (AccessesDeclared(code, Bounded(0x8000_0000), s) <==> v + 8 <= 0x8000_0000)
  {
    hide At, Verify, EdgesOk, Declared;
    code := ReaderExists(0);
    ReaderAccepted(code, 0, 0x8000_0000);
    ArgR2(v, 0x8000_0000, mem);
    OneWord(code, Bounded(0x8000_0000), Reset([0, v], mem));
    OpenDeclares(0x8000_0000, EffectiveAddr(v, 0));
  }

  // ----- the extent of a copy -----

  /** MEMCPY r0, r2, r2 of `len` bytes, or with flag 2 as many as r4 says; RET r0. */
  predicate Copier(code: Code, flags: reg, len: int) {
    && |code| == 3 && At(code, 0) == Decoded(MEMCPY, 0, 2, 2, flags, len)
    && At(code, 1).rd == 4 && At(code, 2) == Decoded(RET, 0, 0, 0, 0, 0)
  }

  lemma CopierExists(flags: reg, len: int) returns (code: Code)
    requires SignedImm(len)
    ensures Copier(code, flags, len)
  {
    hide Pack, DecodeWord, EncodeWord;
    DecodeAfterEncode(0x83, 0, 2, 2, flags, len);
    DecodePacked(0x00, 4, 0, 0, 0, 0);
    DecodePacked(0x13, 0, 0, 0, 0, 0);
    code := [EncodeWord(0x83, 0, 2, 2, flags, len).value, Pack(0x00, 4, 0, 0, 0, 0), Pack(0x13, 0, 0, 0, 0, 0)];
  }

  lemma CopierAccepted(code: Code, flags: reg, len: int)
    requires Copier(code, flags, len) && (!LenFromReg(flags) ==> 0 <= len <= 0x1_0000_0000)
    ensures Verify(code, Bounded(0x7FFF_FFF8)).ok && EdgesOk(code, Bounded(0x7FFF_FFF8))
  {
    hide At, AbsBase, RegionSet, AddrOk, Visit, InitialAbs, LenFromReg;
    var man := Bounded(0x7FFF_FFF8);
    var v0 := InitialScan(code, man);
    BoundedFits(0x7FFF_FFF8);
    VisitPasses(At(code, 0), 0, 3, v0, man, []);
    var v1 := Visit(At(code, 0), 0, 3, v0, man);
    VisitPasses(At(code, 2), 2, 3, v1, man, []);
    var v2 := Visit(At(code, 2), 2, 3, v1, man);
    assert v1.inFlightMax <= 32 by { FirstInFlight(At(code, 0), v0, man); }
    ScanEnds(code, v2, man);
    ScanNext(code, 2, v1, man);
    ScanNext(code, 0, v0, man);
    forall p: nat | p < |code| && Swept(code, 0, p) ensures EdgeOk(code, man, p) {
      assert p == 0 || p == 2 by { assert !Swept(code, 2, 1); }
    }
  }

  lemma FirstInFlight(h: Decoded, v: Scan, man: Manifest)
    requires v.inFlightMax == 0
    ensures Visit(h, 0, 3, v, man).inFlightMax <= 32
  {
    hide InstrOk, AbsStep, PopEnded, Product;
  }

  /** A copy of one word at a time from the last word of the region stays inside up to eight bytes. */
  lemma CopyFromLastWord(code: Code, flags: reg, len: int, s: State)
    requires Copier(code, flags, len) && s.pc == 0 && s.d.regs[2] == 0x7FFF_FFF8
    ensures Fetchable(code, 0)
    ensures AccessesDeclared(code, Bounded(0x7FFF_FFF8), s) <==> CopyLength(At(code, 0), 4, s.d.regs) <= 8
  {
    hide At, Declared, CopyLength;
    var man, length := Bounded(0x7FFF_FFF8), CopyLength(At(code, 0), 4, s.d.regs);
    assert ExtraReg(code, 0) == 4;
    OpenDeclares(0x7FFF_FFF8, 0x7FFF_FFF8);
    OpenDeclares(0x7FFF_FFF8, 0x8000_0000);
    if length > 8 {
      assert DstWord(0x7FFF_FFF8, 1) == 0x8000_0000;
      assert Touches(At(code, 0), 4, s.d.regs, DstWord(0x7FFF_FFF8, 1));
    } else {
      assert CopyWords(length) <= 1;
      assert DstWord(0x7FFF_FFF8, 0) == 0x7FFF_FFF8;
    }
  }

  /**
   * The extent of a copy is not checked: any immediate length up to 2^32 is accepted at the last word of the region,
   * and the copy stays inside exactly up to eight bytes.
   */
  lemma ExtentUnchecked(len: nat, mem: Mem) returns (code: Code)
    requires len <= 0x1_0000_0000
    ensures Copier(code, 0, len) && Verify(code, Bounded(0x7FFF_FFF8)).ok && EdgesOk(code, Bounded(0x7FFF_FFF8))
    ensures var s := Reset([0, 0x7FFF_FFF8], mem);
            && ArgsInBounds(s.d.regs, Bounded(0x7FFF_FFF8).arguments) && Live(code, s)
            && (AccessesDeclared(code, Bounded(0x7FFF_FFF8), s) <==> len <= 8)
  {
    hide At, Verify, EdgesOk, Declared, AccessesDeclared;
    code := CopierExists(0, len);
    CopierAccepted(code, 0, len);
    ArgR2(0x7FFF_FFF8, 0x7FFF_FFF8, mem);
    CopyFromLastWord(code, 0, len, Reset([0, 0x7FFF_FFF8], mem));
  }

  /** A length in a register is not constrained at all. */
  lemma LengthRegisterUnchecked(len: u64, mem: Mem) returns (code: Code)
    ensures Copier(code, 2, 0) && Verify(code, Bounded(0x7FFF_FFF8)).ok && EdgesOk(code, Bounded(0x7FFF_FFF8))
    ensures var s := Reset([0, 0x7FFF_FFF8, 0, len], mem);
            && ArgsInBounds(s.d.regs, Bounded(0x7FFF_FFF8).arguments) && Live(code, s)
            && (AccessesDeclared(code, Bounded(0x7FFF_FFF8), s) <==> len <= 8)
  {
    hide At, Verify, EdgesOk, Declared, AccessesDeclared;
    code := CopierExists(2, 0);
    CopierAccepted(code, 2, 0);
    CopyFromLastWord(code, 2, 0, Reset([0, 0x7FFF_FFF8, 0, len], mem));
  }

  // ----- a shipped operator -----

  /** The manifest of sw/operators/graph_walk.toml: one region of two gigabytes, a start node and a depth. */
  const GRAPH := Manifest(
    1024, OPEN.regions, [Argument(1, 0, 0x7FFF_FFF8, Some((0, 0))), Argument(2, 0, 64, None)])

  /** LOOP r2 { LOAD r1, [r1 + 8]; ANDI r1, r1, 0x7FFFFFF8 } ADDI r2, r1, 0; LOAD r1, [r1]; RET r1. */
  predicate GraphWalk(code: Code) {
    && |code| == 6 && At(code, 0) == Decoded(LOOP, 0, 2, 0, 0, 2) && At(code, 1) == Decoded(LOAD, 1, 1, 0, 0, 8)
    && At(code, 2) == Decoded(COMPUTE, 1, 1, 0, ANDI, 0x7FFF_FFF8) && At(code, 3) == Decoded(COMPUTE, 2, 1, 0, ADDI, 0)
    && At(code, 4) == Decoded(LOAD, 1, 1, 0, 0, 0) && At(code, 5) == Decoded(RET, 0, 1, 0, 0, 0)
  }

  lemma GraphWalkExists() returns (code: Code)
    ensures GraphWalk(code)
  {
    hide Pack, DecodeWord;
    DecodePacked(0x11, 0, 2, 0, 0, 2);
    DecodePacked(0x01, 1, 1, 0, 0, 8);
    DecodePacked(0x20, 1, 1, 0, ANDI, 0x7FFF_FFF8);
    DecodePacked(0x20, 2, 1, 0, ADDI, 0);
    DecodePacked(0x01, 1, 1, 0, 0, 0);
    DecodePacked(0x13, 0, 1, 0, 0, 0);
    code := [Pack(0x11, 0, 2, 0, 0, 2), Pack(0x01, 1, 1, 0, 0, 8), Pack(0x20, 1, 1, 0, ANDI, 0x7FFF_FFF8),
             Pack(0x20, 2, 1, 0, ADDI, 0), Pack(0x01, 1, 1, 0, 0, 0), Pack(0x13, 0, 1, 0, 0, 0)];
  }

  lemma GraphKnown()
    ensures Get(InitialAbs(GRAPH.arguments), 1) == AbsVal(0, 0x7FFF_FFF8, Some((0, 0)), false)
    ensures Get(InitialAbs(GRAPH.arguments), 2) == AbsVal(0, 64, None, false)
  {
    hide AllTop;
    assert GRAPH.arguments[..1] == [GRAPH.arguments[0]];
    assert GRAPH.arguments[..1][..0] == [];
    assert InitialAbs(GRAPH.arguments[..1]) == InitialAbs([])[1 := AbsVal(0, 0x7FFF_FFF8, Some((0, 0)), false)];
  }

  lemma NodeFits(abs: AbsRegs)
    requires Get(abs, 1) in {AbsVal(0, 0x7FFF_FFF8, None, false), AbsVal(0, 0x7FFF_FFF8, Some((0, 0)), false)}
    ensures AddrOk(abs, 1, RegionSet(OPEN.regions))
  {
    hide AbsBase, RegionSet;
    OpenRegion();
    assert Contains(RegionSet(OPEN.regions)[(0, 0)], 0, 0x7FFF_FFF8);
  }

  lemma GraphWalkAccepted(code: Code)
    requires GraphWalk(code)
    ensures Verify(code, GRAPH).ok
  {
    hide At, AbsBase, RegionSet, AddrOk, Visit, InitialAbs, PopEnded, Product, ScanFrom, AbsAdd;
    GraphKnown();
    var f := LoopFrame(3, 64);
    SingleFrame(f, 0);
    SingleFrame(f, 1);
    SingleFrame(f, 2);
    SingleFrame(f, 3);
    SingleFrame(f, 4);
    SingleFrame(f, 5);
    var v0 := InitialScan(code, GRAPH);
    VisitPasses(At(code, 0), 0, 6, v0, GRAPH, []);
    ControlKeepsAbs(At(code, 0), v0.abs);
    var v1 := Visit(At(code, 0), 0, 6, v0, GRAPH);
    NodeFits(v1.abs);
    VisitPasses(At(code, 1), 1, 6, v1, GRAPH, [f]);
    var v2 := Visit(At(code, 1), 1, 6, v1, GRAPH);
    VisitPasses(At(code, 2), 2, 6, v2, GRAPH, [f]);
    var v3 := Visit(At(code, 2), 2, 6, v2, GRAPH);
    VisitPasses(At(code, 3), 3, 6, v3, GRAPH, []);
    var v4 := Visit(At(code, 3), 3, 6, v3, GRAPH);
    NodeFits(v4.abs);
    VisitPasses(At(code, 4), 4, 6, v4, GRAPH, []);
    var v5 := Visit(At(code, 4), 4, 6, v4, GRAPH);
    VisitPasses(At(code, 5), 5, 6, v5, GRAPH, []);
    var v6 := Visit(At(code, 5), 5, 6, v5, GRAPH);
    ScanEnds(code, v6, GRAPH);
    ScanNext(code, 5, v5, GRAPH);
    ScanNext(code, 4, v4, GRAPH);
    ScanNext(code, 3, v3, GRAPH);
    ScanNext(code, 2, v2, GRAPH);
    ScanNext(code, 1, v1, GRAPH);
    ScanNext(code, 0, v0, GRAPH);
  }

  lemma GraphWalkEdges(code: Code)
    requires GraphWalk(code)
    ensures EdgesOk(code, GRAPH)
  {
    hide At, InitialAbs, AbsFrom, AbsAdd;
    GraphKnown();
    var abs := InitialAbs(GRAPH.arguments);
    SweptNext(code, 0, abs, 0);
    SweptNext(code, 0, abs, 1);
    SweptNext(code, 0, abs, 2);
    assert AbsAt(code, GRAPH, 0) == abs by { ScanStart(code, abs); }
    forall p: nat | p < |code| && Swept(code, 0, p) ensures EdgeOk(code, GRAPH, p) {
      assert p < 6;
      if p == 3 {
        assert Get(AbsAt(code, GRAPH, 3), 1) == AbsVal(0, 0x7FFF_FFF8, None, false);
      }
    }
  }

  lemma ScanStart(code: Code, abs: AbsRegs)
    ensures Swept(code, 0, 0) && AbsFrom(code, 0, abs, 0) == abs
  {
  }

  /**
   * The shipped graph_walk under its own manifest: the link of a node is the word after it, so for every depth the
   * first hop stays inside the pool exactly when the start node is not the pool's last word.
   */
  lemma GraphWalkReadsPastPool(start: u64, depth: u64, mem: Mem) returns (code: Code)
    requires start <= 0x7FFF_FFF8 && 1 <= depth <= 64
    ensures GraphWalk(code) && Verify(code, GRAPH).ok && EdgesOk(code, GRAPH)
    ensures ArgsInBounds(Reset([start, depth], mem).d.regs, GRAPH.arguments)
    ensures var s := Run(code, Reset([start, depth], mem), 1);
            Live(code, s) && (AccessesDeclared(code, GRAPH, s) <==> start + 16 <= 0x8000_0000)
  {
    hide At, Verify, EdgesOk, Declared;
    code := GraphWalkExists();
    GraphWalkAccepted(code);
    GraphWalkEdges(code);
    var s0 := Reset([start, depth], mem);
    assert s0.d.regs[1] == start && s0.d.regs[2] == depth;
    assert Run(code, s0, 1) == Run(code, Step(code, s0), 0);
    var s := Step(code, s0);
    assert s.pc == 1 && s.status == Running && s.d.regs == s0.d.regs;
    OneWord(code, GRAPH, s);
    OpenDeclares(0, EffectiveAddr(start, 8));
    assert Declared(GRAPH, EffectiveAddr(start, 8)) == Declared(Bounded(0), EffectiveAddr(start, 8)) by {
      SameDeclared(GRAPH, Bounded(0), EffectiveAddr(start, 8));
    }
  }

  lemma SameDeclared(m1: Manifest, m2: Manifest, a: int)
    requires m1.regions == m2.regions
    ensures Declared(m1, a) == Declared(m2, a)
  {
    hide WordInside;
  }
}
