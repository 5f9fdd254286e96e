/** The instruction set: opcodes, limits, word packing and unified addresses. */
module Isa {
  import opened Prelude

  datatype Op =
    | NOP | LOAD | STORE | JUMP | LOOP | WAIT | RET | COMPUTE | MEMCPY | CAS | CAA
    | ILLEGAL(code: int)

  const NUM_REGS := 16
  const INSTR_STORE_DEPTH := 1024
  const MAX_LOOP_NEST := 8
  const MAX_INFLIGHT_PER_TASK := 32

  // COMPUTE sub-opcodes
  const ADD: nat := 0x0
  const SUB: nat := 0x1
  const AND: nat := 0x2
  const OR: nat := 0x3
  const XOR: nat := 0x4
  const SHL: nat := 0x5
  const SHR: nat := 0x6
  const MUL: nat := 0x7
  const ADDI: nat := 0x8
  const ANDI: nat := 0x9
  const SHLI: nat := 0xa
  const SHRI: nat := 0xb
  const LI: nat := 0xc
  const EQ: nat := 0xd
  const LT: nat := 0xe
  const GE: nat := 0xf

  // MEMCPY flag bits, carried in the sub field
  predicate IsAsync(sub: nat) { sub % 2 == 1 }

  predicate LenFromReg(sub: nat) { sub / 2 % 2 == 1 }

  type reg = r: int | 0 <= r < 16

  type byte = b: int | 0 <= b < 256

  function OpOf(code: byte): Op {
    match code
    case 0x00 => NOP
    case 0x01 => LOAD
    case 0x02 => STORE
    case 0x10 => JUMP
    case 0x11 => LOOP
    case 0x12 => WAIT
    case 0x13 => RET
    case 0x20 => COMPUTE
    case 0x83 => MEMCPY
    case 0x84 => CAS
    case 0x85 => CAA
    case _ => ILLEGAL(code)
  }

  function CodeOf(op: Op): int {
    match op
    case NOP => 0x00
    case LOAD => 0x01
    case STORE => 0x02
    case JUMP => 0x10
    case LOOP => 0x11
    case WAIT => 0x12
    case RET => 0x13
    case COMPUTE => 0x20
    case MEMCPY => 0x83
    case CAS => 0x84
    case CAA => 0x85
    case ILLEGAL(code) => code
  }

  predicate TwoWord(op: Op) { op.MEMCPY? || op.CAS? || op.CAA? }

  function Width(op: Op): (w: int)
    ensures w == 1 || w == 2
  {
    if TwoWord(op) then 2 else 1
  }

  // ----- packing -----

  datatype Decoded = Decoded(op: Op, rd: reg, rs1: reg, rs2: reg, sub: reg, imm: int)

  /** The range the encoder accepts: its upper half decodes as a negative number. */
  predicate EncodableImm(imm: int) { -0x80_0000_0000 <= imm <= 0xFF_FFFF_FFFF }

  /** The range a 40-bit field carries faithfully. */
  predicate SignedImm(imm: int) { -0x80_0000_0000 <= imm < 0x80_0000_0000 }

  /** The shifted fields occupy disjoint bits, so `|` is `+`. */
  function Pack(code: byte, rd: reg, rs1: reg, rs2: reg, sub: reg, field: int): (w: u64)
    requires 0 <= field < 0x100_0000_0000
  {
    code * 0x100_0000_0000_0000 + rd * 0x10_0000_0000_0000 + rs1 * 0x1_0000_0000_0000
    + rs2 * 0x1000_0000_0000 + sub * 0x100_0000_0000 + field
  }

  function EncodeWord(code: int, rd: int, rs1: int, rs2: int, sub: int, imm: int): Result<u64> {
    if !(0 <= code <= 0xFF) then Err
    else if !(0 <= rd < NUM_REGS) then Err
    else if !(0 <= rs1 < NUM_REGS) then Err
    else if !(0 <= rs2 < NUM_REGS) then Err
    else if !(0 <= sub <= 0xF) then Err
    else if !EncodableImm(imm) then Err
    else Ok(Pack(code, rd, rs1, rs2, sub, imm % 0x100_0000_0000))
  }

  function SignExtend40(field: int): int {
    if field / 0x80_0000_0000 % 2 == 1 then field - 0x100_0000_0000 else field
  }

  function DecodeWord(word: u64): Decoded {
    Decoded(
      OpOf(word / 0x100_0000_0000_0000 % 0x100),
      word / 0x10_0000_0000_0000 % 0x10,
      word / 0x1_0000_0000_0000 % 0x10,
      word / 0x1000_0000_0000 % 0x10,
      word / 0x100_0000_0000 % 0x10,
      SignExtend40(word % 0x100_0000_0000))
  }

  /** Sign extension undoes the masking of a signed immediate; the encoder's upper half comes back 2^40 lower. */
  lemma SignExtendAfterMask(imm: int)
    requires EncodableImm(imm)
    ensures SignExtend40(imm % 0x100_0000_0000) == FieldImm(imm)
  {
    var field := if imm < 0 then imm + 0x100_0000_0000 else imm;
    DivModUnique(imm, if imm < 0 then -1 else 0, field, 0x100_0000_0000);
    var high := if field < 0x80_0000_0000 then 0 else 1;
    DivModUnique(field, high, field - high * 0x80_0000_0000, 0x80_0000_0000);
  }

  lemma MaskAfterSignExtend(field: int)
    requires 0 <= field < 0x100_0000_0000
    ensures SignedImm(SignExtend40(field)) && SignExtend40(field) % 0x100_0000_0000 == field
  {
    var high := if field < 0x80_0000_0000 then 0 else 1;
    DivModUnique(field, high, field - high * 0x80_0000_0000, 0x80_0000_0000);
    DivModUnique(field - high * 0x100_0000_0000, -high, field, 0x100_0000_0000);
  }

  lemma OpCodeRoundTrip(code: byte)
    ensures CodeOf(OpOf(code)) == code
  {
  }

  lemma FieldsOfPack(code: byte, rd: reg, rs1: reg, rs2: reg, sub: reg, field: int)
    requires 0 <= field < 0x100_0000_0000
    ensures var w := Pack(code, rd, rs1, rs2, sub, field);
            && w / 0x100_0000_0000_0000 == code
            && w / 0x10_0000_0000_0000 % 0x10 == rd
            && w / 0x1_0000_0000_0000 % 0x10 == rs1
            && w / 0x1000_0000_0000 % 0x10 == rs2
            && w / 0x100_0000_0000 % 0x10 == sub
            && w % 0x100_0000_0000 == field
  {
    var w := Pack(code, rd, rs1, rs2, sub, field);
    var top := code * 0x1_0000 + rd * 0x1000 + rs1 * 0x100 + rs2 * 0x10 + sub;
    DivModUnique(w, top, field, 0x100_0000_0000);
    QuarterFields(code, rd, rs1, rs2, sub);
    DivTwice(w, 0x100_0000_0000, 0x10);
    DivTwice(w, 0x100_0000_0000, 0x100);
    DivTwice(w, 0x100_0000_0000, 0x1000);
    DivTwice(w, 0x100_0000_0000, 0x1_0000);
  }

  lemma DecodePacked(code: byte, rd: reg, rs1: reg, rs2: reg, sub: reg, field: int)
    requires 0 <= field < 0x100_0000_0000
    ensures DecodeWord(Pack(code, rd, rs1, rs2, sub, field))
         == Decoded(OpOf(code), rd, rs1, rs2, sub, SignExtend40(field))
  {
    FieldsOfPack(code, rd, rs1, rs2, sub, field);
  }

  /** Decoding an encoded word gives its fields back; the immediate comes back exactly when it is signed. */
  lemma DecodeAfterEncode(code: byte, rd: reg, rs1: reg, rs2: reg, sub: reg, imm: int)
    requires EncodableImm(imm)
    ensures EncodeWord(code, rd, rs1, rs2, sub, imm).Ok?
    ensures var d := DecodeWord(EncodeWord(code, rd, rs1, rs2, sub, imm).value);
            && d.op == OpOf(code) && d.rd == rd && d.rs1 == rs1 && d.rs2 == rs2 && d.sub == sub
            && d.imm == FieldImm(imm)
  {
    hide Pack, DecodeWord;
    SignExtendAfterMask(imm);
    DecodePacked(code, rd, rs1, rs2, sub, imm % 0x100_0000_0000);
  }

  lemma QuarterFields(code: byte, rd: reg, rs1: reg, rs2: reg, sub: reg)
    ensures var top := code * 0x1_0000 + rd * 0x1000 + rs1 * 0x100 + rs2 * 0x10 + sub;
            && top / 0x1_0000 == code && top / 0x1000 % 0x10 == rd && top / 0x100 % 0x10 == rs1
            && top / 0x10 % 0x10 == rs2 && top % 0x10 == sub
  {
    var q3 := code * 0x10 + rd;
    var q2 := q3 * 0x10 + rs1;
    var q1 := q2 * 0x10 + rs2;
    var top := q1 * 0x10 + sub;
    DivModUnique(q3, code, rd, 0x10);
    DivModUnique(q2, q3, rs1, 0x10);
    DivModUnique(q1, q2, rs2, 0x10);
    DivModUnique(top, q1, sub, 0x10);
    DivTwice(top, 0x10, 0x10);
    DivTwice(top, 0x100, 0x10);
    DivTwice(top, 0x1000, 0x10);
  }

  /** Encoding the fields of any 64-bit word, opcode byte included, rebuilds the word. */
  lemma EncodeAfterDecode(word: u64)
    ensures var d := DecodeWord(word);
            EncodeWord(CodeOf(d.op), d.rd, d.rs1, d.rs2, d.sub, d.imm) == Ok(word)
  {
    OpCodeRoundTrip(word / 0x100_0000_0000_0000 % 0x100);
    DivTwice(word, 0x100_0000_0000, 0x10);
    DivTwice(word, 0x100_0000_0000, 0x100);
    DivTwice(word, 0x100_0000_0000, 0x1000);
    DivTwice(word, 0x100_0000_0000, 0x1_0000);
    assert word == 0x100_0000_0000 * (word / 0x100_0000_0000) + word % 0x100_0000_0000;
    FieldsRebuild(word / 0x100_0000_0000);
    MaskAfterSignExtend(word % 0x100_0000_0000);
  }

  lemma FieldsRebuild(top: int)
    requires 0 <= top < 0x100_0000
    ensures top == top / 0x1_0000 * 0x1_0000 + top / 0x1000 % 0x10 * 0x1000 + top / 0x100 % 0x10 * 0x100
                   + top / 0x10 % 0x10 * 0x10 + top % 0x10
    ensures top / 0x1_0000 < 0x100
  {
    DivTwice(top, 0x10, 0x10);
    DivTwice(top, 0x100, 0x10);
    DivTwice(top, 0x1000, 0x10);
  }

  // ----- unified addresses: device (16) | region (16) | offset (32) -----

  function MakeAddr(device: int, region: int, offset: int): Result<u64> {
    if !(0 <= device < 0x1_0000) then Err
    else if !(0 <= region < 0x1_0000) then Err
    else if !(0 <= offset < 0x1_0000_0000) then Err
    else Ok(device * 0x1_0000_0000_0000 + region * 0x1_0000_0000 + offset)
  }

  function Device(addr: u64): nat { addr / 0x1_0000_0000_0000 % 0x1_0000 }

  function Region(addr: u64): nat { addr / 0x1_0000_0000 % 0x1_0000 }

  function Offset(addr: u64): nat { addr % 0x1_0000_0000 }

  lemma SplitAfterMake(device: int, region: int, offset: int)
    ensures MakeAddr(device, region, offset).Ok? <==>
              0 <= device < 0x1_0000 && 0 <= region < 0x1_0000 && 0 <= offset < 0x1_0000_0000
    ensures MakeAddr(device, region, offset).Ok? ==>
              var addr := MakeAddr(device, region, offset).value;
              Device(addr) == device && Region(addr) == region && Offset(addr) == offset
  {
    if MakeAddr(device, region, offset).Ok? {
      var addr := MakeAddr(device, region, offset).value;
      var top := device * 0x1_0000 + region;
      DivModUnique(top, device, region, 0x1_0000);
      DivModUnique(addr, top, offset, 0x1_0000_0000);
      DivTwice(addr, 0x1_0000_0000, 0x1_0000);
    }
  }

  lemma MakeAfterSplit(addr: u64)
    ensures MakeAddr(Device(addr), Region(addr), Offset(addr)) == Ok(addr)
  {
    DivTwice(addr, 0x1_0000_0000, 0x1_0000);
  }

  // ----- assembled instructions -----

  /** The operands of a second word. */
  datatype Extra = Extra(rd: reg, rs1: reg, rs2: reg, sub: reg, imm: int)

  /** The opcodes that have a mnemonic. */
  type LegalOp = op: Op | !op.ILLEGAL? witness NOP

  datatype Instr = Instr(op: LegalOp, rd: reg, rs1: reg, rs2: reg, sub: reg, imm: int, extra: Option<Extra>)

  /** The words of one instruction. */
  function Encode(i: Instr): Result<seq<u64>> {
    var head :- EncodeWord(CodeOf(i.op), i.rd, i.rs1, i.rs2, i.sub, i.imm);
    if !TwoWord(i.op) then Ok([head])
    else if i.extra.None? then Err
    else
      var x := i.extra.value;
      var second :- EncodeWord(0, x.rd, x.rs1, x.rs2, x.sub, x.imm);
      Ok([head, second])
  }

  /** What a 40-bit field makes of an immediate the encoder accepts. */
  function FieldImm(imm: int): int { if SignedImm(imm) then imm else imm - 0x100_0000_0000 }

  /** What the decoder sees of an instruction's first word. */
  function Seen(i: Instr): Decoded { Decoded(i.op, i.rd, i.rs1, i.rs2, i.sub, FieldImm(i.imm)) }

  function ExtraRd(i: Instr): reg { if TwoWord(i.op) && i.extra.Some? then i.extra.value.rd else 0 }

  /** An encoded instruction has its own width and decodes to its own fields, the immediate wherever it is signed. */
  lemma EncodeFaithful(i: Instr)
    requires Encode(i).Ok?
    ensures |Encode(i).value| == Width(i.op) && EncodableImm(i.imm)
    ensures DecodeWord(Encode(i).value[0]) == Seen(i)
    ensures TwoWord(i.op)
        ==> DecodeWord(Encode(i).value[1]).rd == ExtraRd(i) && DecodeWord(Encode(i).value[1]).op == NOP
  {
    DecodeAfterEncode(CodeOf(i.op), i.rd, i.rs1, i.rs2, i.sub, i.imm);
    if TwoWord(i.op) {
      var x := i.extra.value;
      DecodeAfterEncode(0, x.rd, x.rs1, x.rs2, x.sub, x.imm);
    }
  }
}
