/** The words of memory an instruction touches: it changes no other, and no other decides what it does. */
module Footprint {
  import opened Prelude
  import opened Isa
  import opened Machine
  import opened Copy

  /** The instruction reads or writes the word at `a`; `xrd` is the register named in its second word. */
  predicate Touches(h: Decoded, xrd: reg, regs: Regs, a: u64) {
    match h.op
    case LOAD | STORE => a == EffectiveAddr(regs[h.rs1], h.imm)
    case CAS | CAA => a == regs[h.rs1]
    case MEMCPY =>
      exists i :: 0 <= i < CopyWords(CopyLength(h, xrd, regs))
        && (a == DstWord(regs[h.rs1], i) || a == DstWord(regs[h.rs2], i))
    case _ => false
  }

  /** A word not touched keeps its value. */
  lemma WorkFrame(h: Decoded, xrd: reg, d: Data, a: u64)
    requires !Touches(h, xrd, d.regs, a)
    ensures Load(Work(h, xrd, d).mem, a) == Load(d.mem, a)
  {
    hide Alu, Memcpy, DrainAll, DrainTo, Issue, CopyCost, AccessCost, EffectiveAddr, CopyLength, Mask64, CopyWords,
         DstWord;
    if h.op.MEMCPY? {
      CopyFrame(d.mem, d.regs[h.rs1], d.regs[h.rs2], CopyLength(h, xrd, d.regs), a);
    }
  }

  predicate SameAt(m1: Mem, m2: Mem, a: u64) { Load(m1, a) == Load(m2, a) }

  lemma {:induction false} CopyDepends(m1: Mem, m2: Mem, dst: u64, src: u64, i: nat, n: int, a: u64)
    requires forall j :: i <= j < n ==> SameAt(m1, m2, DstWord(src, j))
    requires SameAt(m1, m2, a)
    ensures SameAt(CopyFrom(m1, dst, src, i, n), CopyFrom(m2, dst, src, i, n), a)
    decreases n - i
  {
    if i < n {
      assert SameAt(m1, m2, DstWord(src, i));
      var v := Load(m1, DstWord(src, i));
      CopyDepends(m1[DstWord(dst, i) := v], m2[DstWord(dst, i) := v], dst, src, i + 1, n, a);
    }
  }

  /** Instructions that touch no memory. */
  lemma PlainDepends(h: Decoded, xrd: reg, d: Data, mem: Mem)
    requires !h.op.LOAD? && !h.op.STORE? && !h.op.CAS? && !h.op.CAA? && !h.op.MEMCPY?
    ensures Work(h, xrd, d.(mem := mem)) == Work(h, xrd, d).(mem := mem) && Work(h, xrd, d).mem == d.mem
  {
    hide CopyEffect, AluEffect, DrainAll, DrainTo, SetReg, AccessCost, EffectiveAddr, Mask64, Load;
    match h.op
    case COMPUTE => AluEffectDepends(h, d, mem);
    case _ =>
  }

  lemma AluEffectDepends(h: Decoded, d: Data, mem: Mem)
    ensures AluEffect(h, d.(mem := mem)) == AluEffect(h, d).(mem := mem) && AluEffect(h, d).mem == d.mem
  {
    hide Alu, SetReg;
  }

  lemma CopyEffectDepends(h: Decoded, xrd: reg, d: Data, mem: Mem)
    ensures var length := CopyLength(h, xrd, d.regs);
            && CopyEffect(h, xrd, d).mem == Memcpy(d.mem, d.regs[h.rs1], d.regs[h.rs2], length)
            && CopyEffect(h, xrd, d.(mem := mem))
            == CopyEffect(h, xrd, d).(mem := Memcpy(mem, d.regs[h.rs1], d.regs[h.rs2], length))
  {
    hide Memcpy, Issue, CopyCost, CopyLength, SetReg;
  }

  /** On memories alike in every touched word an instruction has the same effect on everything else. */
  lemma WorkAlike(h: Decoded, xrd: reg, d: Data, mem: Mem)
    requires forall t: u64 :: Touches(h, xrd, d.regs, t) ==> SameAt(d.mem, mem, t)
    ensures var one, two := Work(h, xrd, d), Work(h, xrd, d.(mem := mem)); two == one.(mem := two.mem)
  {
    hide CopyEffect, AluEffect, DrainAll, DrainTo, AccessCost, EffectiveAddr, CopyLength, Mask64, CopyWords, DstWord,
         SetReg;
    match h.op
    case LOAD | STORE => assert SameAt(d.mem, mem, EffectiveAddr(d.regs[h.rs1], h.imm));
    case CAS | CAA => assert SameAt(d.mem, mem, d.regs[h.rs1]);
    case MEMCPY => CopyEffectDepends(h, xrd, d, mem);
    case _ => PlainDepends(h, xrd, d, mem);
  }

  /** It leaves them alike wherever they were. */
  lemma WorkDepends(h: Decoded, xrd: reg, d: Data, mem: Mem, a: u64)
    requires forall t: u64 :: Touches(h, xrd, d.regs, t) ==> SameAt(d.mem, mem, t)
    requires SameAt(d.mem, mem, a)
    ensures SameAt(Work(h, xrd, d).mem, Work(h, xrd, d.(mem := mem)).mem, a)
  {
    hide CopyEffect, AluEffect, DrainAll, DrainTo, CopyFrom, AccessCost, EffectiveAddr, CopyLength, Mask64,
         CopyWords, DstWord, SetReg;
    match h.op
    case LOAD | STORE => assert SameAt(d.mem, mem, EffectiveAddr(d.regs[h.rs1], h.imm));
    case CAS | CAA => assert SameAt(d.mem, mem, d.regs[h.rs1]);
    case MEMCPY =>
      var n := CopyWords(CopyLength(h, xrd, d.regs));
      forall j | 0 <= j < n ensures SameAt(d.mem, mem, DstWord(d.regs[h.rs2], j)) {
        assert Touches(h, xrd, d.regs, DstWord(d.regs[h.rs2], j));
      }
      CopyDepends(d.mem, mem, d.regs[h.rs1], d.regs[h.rs2], 0, n, a);
      CopyEffectDepends(h, xrd, d, mem);
    case _ => PlainDepends(h, xrd, d, mem);
  }
}
