/**
 * The shipped operators: their words as web/src/engine/golden.json has them, and the verifier's verdict on the
 * page-table walk under its own manifest.
 */
module Shipped {
  import opened Prelude
  import opened Isa
  import opened Machine
  import opened Structured
  import opened Verifier
  import opened VerifierSound
  import opened StepBound
  import opened SideConditions
  import opened VerifierExact

  // ----- encodings -----

  /** `i` is encoded as `w`, its second word, if it has one, naming register `x`. */
  predicate EncodesAs(i: Instr, w: u64, x: reg) {
    Encode(i) == Ok([w] + if TwoWord(i.op) then [x * 0x10_0000_0000_0000] else [])
  }

  function Plain(op: LegalOp, rd: reg, rs1: reg, rs2: reg, sub: reg, imm: int): Instr {
    Instr(op, rd, rs1, rs2, sub, imm, if TwoWord(op) then Some(Extra(0, 0, 0, 0, 0)) else None)
  }

  lemma EncodedAs(i: Instr, w: u64, x: reg)
    requires 0 <= i.imm < 0x80_0000_0000 && (TwoWord(i.op) ==> i.extra == Some(Extra(x, 0, 0, 0, 0)))
    requires w == CodeOf(i.op) * 0x100_0000_0000_0000 + i.rd * 0x10_0000_0000_0000 + i.rs1 * 0x1_0000_0000_0000
                  + i.rs2 * 0x1000_0000_0000 + i.sub * 0x100_0000_0000 + i.imm
    ensures EncodesAs(i, w, x)
  {
    var second := x * 0x10_0000_0000_0000;
    if TwoWord(i.op) {
      assert EncodeWord(0, x, 0, 0, 0, 0) == Ok(second);
      assert [w] + [second] == [w, second];
    } else {
      assert [w] + [] == [w];
    }
  }

  lemma GoldenCompute()
    ensures EncodesAs(Plain(COMPUTE, 4, 1, 0, SHRI, 30), 0x2041_0b00_0000_001e, 0)
    ensures EncodesAs(Plain(COMPUTE, 4, 4, 0, ANDI, 0x1FF), 0x2044_0900_0000_01ff, 0)
    ensures EncodesAs(Plain(COMPUTE, 4, 4, 0, SHLI, 3), 0x2044_0a00_0000_0003, 0)
    ensures EncodesAs(Plain(COMPUTE, 5, 2, 4, ADD, 0), 0x2052_4000_0000_0000, 0)
    ensures EncodesAs(Plain(COMPUTE, 10, 9, 11, EQ, 0), 0x20a9_bd00_0000_0000, 0)
    ensures EncodesAs(Plain(COMPUTE, 1, 0, 0, LI, 0xDEAD), 0x2010_0c00_0000_dead, 0)
    ensures EncodesAs(Plain(COMPUTE, 2, 12, 0, ADDI, 0), 0x202c_0800_0000_0000, 0)
  {
    hide EncodesAs;
    EncodedAs(Plain(COMPUTE, 4, 1, 0, SHRI, 30), 0x2041_0b00_0000_001e, 0);
    EncodedAs(Plain(COMPUTE, 4, 4, 0, ANDI, 0x1FF), 0x2044_0900_0000_01ff, 0);
    EncodedAs(Plain(COMPUTE, 4, 4, 0, SHLI, 3), 0x2044_0a00_0000_0003, 0);
    EncodedAs(Plain(COMPUTE, 5, 2, 4, ADD, 0), 0x2052_4000_0000_0000, 0);
    EncodedAs(Plain(COMPUTE, 10, 9, 11, EQ, 0), 0x20a9_bd00_0000_0000, 0);
    EncodedAs(Plain(COMPUTE, 1, 0, 0, LI, 0xDEAD), 0x2010_0c00_0000_dead, 0);
    EncodedAs(Plain(COMPUTE, 2, 12, 0, ADDI, 0), 0x202c_0800_0000_0000, 0);
  }

  lemma GoldenAccess()
    ensures EncodesAs(Plain(LOAD, 1, 1, 0, 0, 8), 0x0111_0000_0000_0008, 0)
    ensures EncodesAs(Plain(STORE, 0, 2, 3, 0, 0), 0x0202_3000_0000_0000, 0)
    ensures EncodesAs(Plain(MEMCPY, 2, 3, 5, 0, 4096), 0x8323_5000_0000_1000, 0)
    ensures EncodesAs(Plain(MEMCPY, 13, 4, 2, 1, 8), 0x83d4_2100_0000_0008, 0)
    ensures EncodesAs(Instr(CAS, 9, 1, 7, 0, 0, Some(Extra(8, 0, 0, 0, 0))), 0x8491_7000_0000_0000, 8)
  {
    hide EncodesAs;
    EncodedAs(Plain(LOAD, 1, 1, 0, 0, 8), 0x0111_0000_0000_0008, 0);
    EncodedAs(Plain(STORE, 0, 2, 3, 0, 0), 0x0202_3000_0000_0000, 0);
    EncodedAs(Plain(MEMCPY, 2, 3, 5, 0, 4096), 0x8323_5000_0000_1000, 0);
    EncodedAs(Plain(MEMCPY, 13, 4, 2, 1, 8), 0x83d4_2100_0000_0008, 0);
    EncodedAs(Instr(CAS, 9, 1, 7, 0, 0, Some(Extra(8, 0, 0, 0, 0))), 0x8491_7000_0000_0000, 8);
  }

  lemma GoldenControl()
    ensures EncodesAs(Plain(JUMP, 0, 10, 0, 0, 3), 0x100a_0000_0000_0003, 0)
    ensures EncodesAs(Plain(LOOP, 0, 2, 0, 0, 2), 0x1102_0000_0000_0002, 0)
    ensures EncodesAs(Plain(WAIT, 0, 0, 0, 0, 0), 0x1200_0000_0000_0000, 0)
    ensures EncodesAs(Plain(RET, 0, 1, 0, 0, 0), 0x1301_0000_0000_0000, 0)
  {
    hide EncodesAs;
    EncodedAs(Plain(JUMP, 0, 10, 0, 0, 3), 0x100a_0000_0000_0003, 0);
    EncodedAs(Plain(LOOP, 0, 2, 0, 0, 2), 0x1102_0000_0000_0002, 0);
    EncodedAs(Plain(WAIT, 0, 0, 0, 0, 0), 0x1200_0000_0000_0000, 0);
    EncodedAs(Plain(RET, 0, 1, 0, 0, 0), 0x1301_0000_0000_0000, 0);
  }

  /** One instruction of each kind the shipped operators contain, and its words. */
  lemma GoldenEncodings()
    ensures EncodesAs(Plain(COMPUTE, 4, 1, 0, SHRI, 30), 0x2041_0b00_0000_001e, 0)
    ensures EncodesAs(Plain(COMPUTE, 4, 4, 0, ANDI, 0x1FF), 0x2044_0900_0000_01ff, 0)
    ensures EncodesAs(Plain(COMPUTE, 4, 4, 0, SHLI, 3), 0x2044_0a00_0000_0003, 0)
    ensures EncodesAs(Plain(COMPUTE, 5, 2, 4, ADD, 0), 0x2052_4000_0000_0000, 0)
    ensures EncodesAs(Plain(COMPUTE, 10, 9, 11, EQ, 0), 0x20a9_bd00_0000_0000, 0)
    ensures EncodesAs(Plain(COMPUTE, 1, 0, 0, LI, 0xDEAD), 0x2010_0c00_0000_dead, 0)
    ensures EncodesAs(Plain(COMPUTE, 2, 12, 0, ADDI, 0), 0x202c_0800_0000_0000, 0)
    ensures EncodesAs(Plain(LOAD, 1, 1, 0, 0, 8), 0x0111_0000_0000_0008, 0)
    ensures EncodesAs(Plain(STORE, 0, 2, 3, 0, 0), 0x0202_3000_0000_0000, 0)
    ensures EncodesAs(Plain(JUMP, 0, 10, 0, 0, 3), 0x100a_0000_0000_0003, 0)
    ensures EncodesAs(Plain(LOOP, 0, 2, 0, 0, 2), 0x1102_0000_0000_0002, 0)
    ensures EncodesAs(Plain(WAIT, 0, 0, 0, 0, 0), 0x1200_0000_0000_0000, 0)
    ensures EncodesAs(Plain(RET, 0, 1, 0, 0, 0), 0x1301_0000_0000_0000, 0)
    ensures EncodesAs(Plain(MEMCPY, 2, 3, 5, 0, 4096), 0x8323_5000_0000_1000, 0)
    ensures EncodesAs(Plain(MEMCPY, 13, 4, 2, 1, 8), 0x83d4_2100_0000_0008, 0)
    ensures EncodesAs(Instr(CAS, 9, 1, 7, 0, 0, Some(Extra(8, 0, 0, 0, 0))), 0x8491_7000_0000_0000, 8)
  {
    hide EncodesAs;
    GoldenCompute();
    GoldenAccess();
    GoldenControl();
  }

  // ----- the page-table walk -----

  const PAGE_WALK: Code := seq(22, q => PageWord(q))

  function PageWord(q: int): u64 {
    match q
    case 0 => 0x2041_0b00_0000_001e
    case 1 => 0x2044_0900_0000_01ff
    case 2 => 0x2044_0a00_0000_0003
    case 3 => 0x2052_4000_0000_0000
    case 4 => 0x0155_0000_0000_0000
    case 5 => 0x2055_0900_1fff_fff8
    case 6 => 0x2041_0b00_0000_0015
    case 7 => 0x2044_0900_0000_01ff
    case 8 => 0x2044_0a00_0000_0003
    case 9 => 0x2055_4000_0000_0000
    case 10 => 0x0155_0000_0000_0000
    case 11 => 0x2055_0900_1fff_fff8
    case 12 => 0x2041_0b00_0000_000c
    case 13 => 0x2044_0900_0000_01ff
    case 14 => 0x2044_0a00_0000_0003
    case 15 => 0x2055_4000_0000_0000
    case 16 => 0x0155_0000_0000_0000
    case 17 => 0x2055_0900_7fff_f000
    case 18 => 0x2015_0800_0000_0000
    case 19 => 0x8323_5000_0000_1000
    case 20 => 0x0000_0000_0000_0000
    case _ => 0x1301_0000_0000_0000
  }

  /** The manifest of sw/operators/page_table_walk.toml. */
  const PAGE := Manifest(
    256, OPEN.regions,
    [Argument(1, 0, 0xFFFF_FFFF_FFFF, None), Argument(2, 0, 0x1000_0000, Some((0, 0))),
     Argument(3, 0, 0x7000_0000, Some((0, 0)))])

  /** Three levels: index bits, table entry, mask. */
  function LevelInstr(k: nat, q: nat): Decoded
    requires k < 3 && q < 6
  {
    match q
    case 0 => Decoded(COMPUTE, 4, 1, 0, SHRI, 30 - 9 * k)
    case 1 => Decoded(COMPUTE, 4, 4, 0, ANDI, 0x1FF)
    case 2 => Decoded(COMPUTE, 4, 4, 0, SHLI, 3)
    case 3 => Decoded(COMPUTE, 5, if k == 0 then 2 else 5, 4, ADD, 0)
    case 4 => Decoded(LOAD, 5, 5, 0, 0, 0)
    case _ => Decoded(COMPUTE, 5, 5, 0, ANDI, if k == 2 then 0x7FFF_F000 else 0x1FFF_FFF8)
  }

  function PageInstr(q: nat): Decoded {
    if q < 18 then LevelInstr(q / 6, q % 6)
    else if q == 18 then Decoded(COMPUTE, 1, 5, 0, ADDI, 0)
    else if q == 19 then Decoded(MEMCPY, 2, 3, 5, 0, 4096)
    else if q == 20 then Decoded(NOP, 0, 0, 0, 0, 0)
    else Decoded(RET, 0, 1, 0, 0, 0)
  }

  /** The word of the given fields decodes to them. */
  lemma DecodedAs(d: Decoded, w: u64)
    requires !d.op.ILLEGAL? && 0 <= d.imm < 0x80_0000_0000
    requires w == CodeOf(d.op) * 0x100_0000_0000_0000 + d.rd * 0x10_0000_0000_0000 + d.rs1 * 0x1_0000_0000_0000
                  + d.rs2 * 0x1000_0000_0000 + d.sub * 0x100_0000_0000 + d.imm
    ensures DecodeWord(w) == d
  {
    hide DecodeWord;
    DecodePacked(CodeOf(d.op), d.rd, d.rs1, d.rs2, d.sub, d.imm);
  }

  lemma LevelDecodes(k: nat)
    requires k < 3
    ensures forall q: nat :: q < 6 ==> DecodeWord(PageWord(6 * k + q)) == LevelInstr(k, q)
  {
    hide DecodeWord;
    forall q: nat | q < 6 ensures DecodeWord(PageWord(6 * k + q)) == LevelInstr(k, q) { LevelDecodesAt(k, q); }
  }

  lemma LevelDecodesAt(k: nat, q: nat)
    requires k < 3 && q < 6
    ensures DecodeWord(PageWord(6 * k + q)) == LevelInstr(k, q)
  {
    hide DecodeWord;
    DecodedAs(LevelInstr(k, q), PageWord(6 * k + q));
  }

  lemma TailDecodes(q: nat)
    requires 18 <= q < 22
    ensures DecodeWord(PageWord(q)) == PageInstr(q)
  {
    hide DecodeWord;
    DecodedAs(PageInstr(q), PageWord(q));
  }

  lemma PageDecodes(q: nat)
    requires q < 22
    ensures At(PAGE_WALK, q) == PageInstr(q)
  {
    hide DecodeWord, LevelInstr;
    if q < 18 {
      LevelDecodes(q / 6);
      assert q == 6 * (q / 6) + q % 6;
    } else {
      TailDecodes(q);
    }
  }

  function Upto(hi: int): AbsVal { AbsVal(0, hi, None, false) }

  function InDram(hi: int): AbsVal { AbsVal(0, hi, Some((0, 0)), false) }

  /** What the scan knows at each place: the table and the buffer, and the index, entry and base of the level. */
  predicate Known(abs: AbsRegs, q: nat) {
    && Get(abs, 2) == InDram(0x1000_0000) && Get(abs, 3) == InDram(0x7000_0000)
    && (q < 18 && q % 6 == 2 ==> Get(abs, 4) == Upto(511))
    && (q < 18 && q % 6 == 3 ==> Get(abs, 4) == Upto(4088))
    && (q < 18 && q % 6 == 4 ==> Get(abs, 5) == if q < 6 then InDram(0x1000_0FF8) else Upto(0x2000_0FF0))
    && (6 <= q < 18 && q % 6 <= 3 ==> Get(abs, 5) == Upto(0x1FFF_FFF8))
    && (q >= 18 ==> Get(abs, 5) == Upto(0x7FFF_F000))
  }

  lemma KnownNext(abs: AbsRegs, q: nat)
    requires q < 22 && q != 20 && Known(abs, q)
    ensures Known(AbsStep(PageInstr(q), abs), q + Width(PageInstr(q).op))
  {
    hide AbsCompute;
    if q < 18 {
      LevelComputes(q / 6, abs);
    }
  }

  /** The abstract operations of one level on what is known there. */
  lemma LevelComputes(k: nat, abs: AbsRegs)
    requires k < 3
    ensures forall a, b :: AbsCompute(ANDI, a, b, 0x1FF) == Upto(511)
    ensures forall a, b :: AbsCompute(ANDI, a, b, 0x1FFF_FFF8) == Upto(0x1FFF_FFF8)
    ensures forall a, b :: AbsCompute(ANDI, a, b, 0x7FFF_F000) == Upto(0x7FFF_F000)
    ensures forall b :: AbsCompute(SHLI, Upto(511), b, 3) == Upto(4088)
    ensures AbsCompute(ADD, InDram(0x1000_0000), Upto(4088), 0) == InDram(0x1000_0FF8)
    ensures AbsCompute(ADD, Upto(0x1FFF_FFF8), Upto(4088), 0) == Upto(0x2000_0FF0)
  {
    assert Pow2(3) == 8;
  }

  lemma {:induction false} KnownFrom(pc: nat, abs: AbsRegs, t: nat)
    requires pc != 20 && Known(abs, pc) && Swept(PAGE_WALK, pc, t) && t <= 22
    ensures Known(AbsFrom(PAGE_WALK, pc, abs, t), t) && t != 20
    decreases 22 - pc
  {
    hide At, AbsStep, Known, PageInstr;
    SweptFits(PAGE_WALK, pc, t);
    if pc < t {
      var next := pc + Width(At(PAGE_WALK, pc).op);
      PageDecodes(pc);
      KnownNext(abs, pc);
      assert next != 20 by { PageWidths(pc); }
      KnownFrom(next, AbsStep(At(PAGE_WALK, pc), abs), t);
    }
  }

  lemma PageWidths(q: nat)
    requires q < 22 && q != 20
    ensures Width(PageInstr(q).op) == (if q == 19 then 2 else 1)
    ensures !PageInstr(q).op.LOOP? && !PageInstr(q).op.JUMP?
  {
  }

  lemma KnownAtEntry()
    ensures Known(InitialAbs(PAGE.arguments), 0)
  {
    hide AllTop;
    var args := PAGE.arguments;
    assert args[..2] == [args[0], args[1]] && args[..2][..1] == [args[0]] && args[..1][..0] == [];
    assert args[..1] == [args[0]];
  }

  /** A program without control transfers is well nested and costs a step an instruction. */
  lemma {:induction false} StraightBlock(pc: nat)
    requires pc <= 22 && pc != 20
    ensures WellNested(PAGE_WALK, pc, 22) && Cost(PAGE_WALK, PAGE, pc, 22) <= 22 - pc
    decreases 22 - pc
  {
    hide At;
    if pc < 22 {
      PageDecodes(pc);
      PageWidths(pc);
      StraightBlock(pc + Width(At(PAGE_WALK, pc).op));
    }
  }

  lemma DramPasses(a: AbsVal)
    requires !a.unknown && a.lo == 0 && a.hi <= 0x7FFF_FFFF && a.region in {None, Some((0, 0))}
    ensures AddressPasses(PAGE.regions, a)
  {
    assert InForce(PAGE.regions, 0) && Start(PAGE.regions[0]) == 0;
  }

  lemma PagePasses(q: nat)
    requires q < 22 && Swept(PAGE_WALK, 0, q) && WellNested(PAGE_WALK, 0, 22)
    ensures Passes(PAGE_WALK, PAGE, q)
  {
    hide At, WellNested, AddressPasses, AbsFrom, InitialAbs;
    KnownAtEntry();
    KnownFrom(0, InitialAbs(PAGE.arguments), q);
    PageDecodes(q);
    PageWidths(q);
    var abs := AbsAt(PAGE_WALK, PAGE, q);
    if q < 18 && q % 6 == 4 { DramPasses(Get(abs, 5)); }
    if q == 19 { DramPasses(Get(abs, 3)); DramPasses(Get(abs, 5)); }
  }

  /** The shipped page-table walk is accepted under its own manifest. */
  lemma PageWalkAccepted()
    ensures Verify(PAGE_WALK, PAGE).ok
  {
    hide At, WellNested, Passes, Verify, Cost;
    StraightBlock(0);
    forall q: nat | q < 22 && Swept(PAGE_WALK, 0, q) ensures Passes(PAGE_WALK, PAGE, q) { PagePasses(q); }
    assert Swept(PAGE_WALK, 0, 21) && At(PAGE_WALK, 21).op.RET? by { PageReturns(0); PageDecodes(21); }
    AcceptedIff(PAGE_WALK, PAGE);
  }

  lemma {:induction false} PageReturns(pc: nat)
    requires pc <= 21 && pc != 20
    ensures Swept(PAGE_WALK, pc, 21)
    decreases 21 - pc
  {
    hide At;
    if pc < 21 {
      PageDecodes(pc);
      PageWidths(pc);
      PageReturns(pc + Width(At(PAGE_WALK, pc).op));
    }
  }
}
