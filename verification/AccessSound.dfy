/**
 * Memory safety of whole runs: when at every memory instruction the bytes it can reach, offsets and copy extents
 * included, fit in a declared region, every access of every run lies in one.  Then nothing outside the regions
 * changes, and nothing outside them has an influence.
 */
module AccessSound {
  import opened Prelude
  import opened Isa
  import opened Machine
  import opened Copy
  import opened Footprint
  import opened Verifier
  import opened VerifierSound

  // ----- when all words an interval reaches lie in a region -----

  /** The eight bytes at `a` lie in the region. */
  predicate WordInside(r: RegionDecl, a: int) { AbsBase(r) <= a && a + 8 <= AbsBase(r) + r.size }

  predicate Declared(man: Manifest, a: int) { exists r :: r in man.regions && WordInside(r, a) }

  /** From the first word at the lower end to the last at the upper end: they wrap together and lie in the region. */
  predicate Fits(r: RegionDecl, av: AbsVal, off: int, words: int) {
    words <= 0 ||
    (&& !av.unknown
     && var first, last := av.lo + off, av.hi + off + 8 * (words - 1);
        && WrapTogether(first, last) && AbsBase(r) <= Mask64(first) && Mask64(last) + 8 <= AbsBase(r) + r.size)
  }

  /** Word `i` from offset `off` of `v`. */
  function WordAt(v: u64, off: int, i: int): u64 { EffectiveAddr(v, off + 8 * i) }

  /** `words` consecutive words from offset `off` of any value in the interval lie in the region. */
  ghost predicate AllInside(r: RegionDecl, lo: int, hi: int, off: int, words: int) {
    forall v: u64, i: int :: lo <= v <= hi && 0 <= i < words ==> WordInside(r, WordAt(v, off, i))
  }

  lemma FitsInside(r: RegionDecl, av: AbsVal, off: int, words: int, v: u64, i: int)
    requires Fits(r, av, off, words) && In(v, av) && 0 <= i < words
    ensures WordInside(r, WordAt(v, off, i))
  {
    hide AbsBase, Mask64, WrapTogether;
    var first, last := av.lo + off, av.hi + off + 8 * (words - 1);
    MaskBetween(first, v + (off + 8 * i), last);
  }

  /** If the words do not wrap together, one of them is outside. */
  lemma {:induction false} WrapEscapes(r: RegionDecl, lo: int, hi: int, off: int, words: nat) returns (v: u64, i: nat)
    requires 0 <= lo <= hi <= U64_MAX && words > 0 && AbsBase(r) + r.size <= 0x1_0000_0000_0000_0000
    requires r.size < 0x1_0000_0000_0000_0000 && !WrapTogether(lo + off, hi + off + 8 * (words - 1))
    ensures lo <= v <= hi && i < words && !WordInside(r, WordAt(v, off, i))
    decreases words
  {
    hide AbsBase;
    var m := 0x1_0000_0000_0000_0000;
    i := words - 1;
    var a, b := lo + off + 8 * i, hi + off + 8 * i;
    var k := b / m;
    if a / m != k {
      v := k * m - 1 - off - 8 * i;
      DivModUnique(k * m - 1, k - 1, m - 1, m);
    } else if (a - 8) / m == k {
      BetweenBlocks(a - 8, b - 8, b);
      v, i := WrapEscapes(r, lo, hi, off, words - 1);
    } else if !WordInside(r, WordAt(lo, off, i)) {
      v := lo;
    } else {
      v, i := lo, words - 2;
      LastWordBefore(a);
    }
  }

  lemma BetweenBlocks(a: int, x: int, b: int)
    requires a <= x <= b && WrapTogether(a, b)
    ensures WrapTogether(a, x)
  {
  }

  /** The word before a crossing ends past the crossing, or exactly there and the next one is at 0. */
  lemma LastWordBefore(a: int)
    requires (a - 8) / 0x1_0000_0000_0000_0000 != a / 0x1_0000_0000_0000_0000
    ensures Mask64(a - 8) + 8 == 0x1_0000_0000_0000_0000 + Mask64(a)
  {
  }

  /**
   * The condition is exact, wrap-around included: all words the interval reaches lie in the region precisely when it
   * holds, for every region that ends within the address space and is not all of it.
   */
  lemma FitsExactly(r: RegionDecl, av: AbsVal, off: int, words: nat)
    requires !av.unknown && 0 <= av.lo <= av.hi <= U64_MAX && words > 0
    requires AbsBase(r) + r.size <= 0x1_0000_0000_0000_0000 && r.size < 0x1_0000_0000_0000_0000
    ensures Fits(r, av, off, words) <==> AllInside(r, av.lo, av.hi, off, words)
  {
    hide AbsBase, Mask64, WrapTogether;
    if Fits(r, av, off, words) {
      forall v: u64, i: int | av.lo <= v <= av.hi && 0 <= i < words ensures WordInside(r, WordAt(v, off, i)) {
        FitsInside(r, av, off, words, v, i);
      }
    }
    if AllInside(r, av.lo, av.hi, off, words) {
      if !WrapTogether(av.lo + off, av.hi + off + 8 * (words - 1)) {
        var v, i := WrapEscapes(r, av.lo, av.hi, off, words);
      }
      assert WordInside(r, WordAt(av.lo, off, 0));
      assert WordInside(r, WordAt(av.hi, off, words - 1));
    }
  }

  /** Without wrap-around it compares the two ends of the bytes reached with those of the region. */
  lemma FitsPlainly(r: RegionDecl, av: AbsVal, off: int, words: nat)
    requires !av.unknown && words > 0 && av.lo <= av.hi
    requires 0 <= av.lo + off && av.hi + off + 8 * words <= 0x1_0000_0000_0000_0000
    ensures Fits(r, av, off, words) <==>
              AbsBase(r) <= av.lo + off && av.hi + off + 8 * words <= AbsBase(r) + r.size
  {
    hide AbsBase;
  }

  // ----- the condition on a program -----

  /** The words a MEMCPY can copy, from its immediate or from what is known of its length register. */
  function CopyExtent(h: Decoded, xrd: reg, abs: AbsRegs): int {
    if !LenFromReg(h.sub) then CopyWords(h.imm)
    else if Get(abs, xrd).unknown then DATA_COPY_WORD_CAP
    else CopyWords(Get(abs, xrd).hi)
  }

  predicate FitsSome(man: Manifest, av: AbsVal, off: int, words: int) {
    words <= 0 || exists r :: r in man.regions && Fits(r, av, off, words)
  }

  predicate AccessOk(h: Decoded, xrd: reg, abs: AbsRegs, man: Manifest) {
    match h.op
    case LOAD | STORE => FitsSome(man, Get(abs, h.rs1), h.imm, 1)
    case CAS | CAA => FitsSome(man, Get(abs, h.rs1), 0, 1)
    case MEMCPY =>
      var words := CopyExtent(h, xrd, abs);
      FitsSome(man, Get(abs, h.rs1), 0, words) && FitsSome(man, Get(abs, h.rs2), 0, words)
    case _ => true
  }

  predicate AccessesOk(code: Code, man: Manifest, inv: Annotation) {
    forall p: nat :: p < |code| && Swept(code, 0, p) && Fetchable(code, p) ==>
      AccessOk(At(code, p), ExtraReg(code, p), inv(p), man)
  }

  lemma CopyWordsGrow(a: int, b: int)
    requires a <= b
    ensures CopyWords(a) <= CopyWords(b) <= DATA_COPY_WORD_CAP
  {
  }

  lemma ExtentCovers(h: Decoded, xrd: reg, regs: Regs, abs: AbsRegs)
    requires Models(regs, abs)
    ensures CopyWords(CopyLength(h, xrd, regs)) <= CopyExtent(h, xrd, abs)
  {
    hide CopyWords;
    assert In(regs[xrd], Get(abs, xrd));
    CopyWordsGrow(regs[xrd], if Get(abs, xrd).unknown then regs[xrd] else Get(abs, xrd).hi);
  }

  lemma SomeInside(man: Manifest, av: AbsVal, off: int, words: int, v: u64, i: int)
    requires FitsSome(man, av, off, words) && In(v, av) && 0 <= i < words
    ensures Declared(man, WordAt(v, off, i))
  {
    hide Fits, WordInside;
    var r :| r in man.regions && Fits(r, av, off, words);
    FitsInside(r, av, off, words, v, i);
  }

  /** One instruction: what it touches is declared. */
  lemma TouchedDeclared(h: Decoded, xrd: reg, regs: Regs, abs: AbsRegs, man: Manifest, a: u64)
    requires Models(regs, abs) && AccessOk(h, xrd, abs, man) && Touches(h, xrd, regs, a)
    ensures Declared(man, a)
  {
    hide FitsSome, Declared, CopyWords, CopyLength, CopyExtent, Mask64, DstWord, Get, WordAt, LenFromReg;
    assert In(regs[h.rs1], Get(abs, h.rs1)) && In(regs[h.rs2], Get(abs, h.rs2));
    match h.op
    case LOAD | STORE =>
      SomeInside(man, Get(abs, h.rs1), h.imm, 1, regs[h.rs1], 0);
      WordZero(regs[h.rs1], h.imm);
    case CAS | CAA =>
      SomeInside(man, Get(abs, h.rs1), 0, 1, regs[h.rs1], 0);
      WordZero(regs[h.rs1], 0);
    case MEMCPY => CopiedDeclared(h, xrd, regs, abs, man, a);
  }

  lemma WordZero(v: u64, off: int)
    ensures WordAt(v, off, 0) == EffectiveAddr(v, off) && EffectiveAddr(v, 0) == v
  {
  }

  lemma CopiedDeclared(h: Decoded, xrd: reg, regs: Regs, abs: AbsRegs, man: Manifest, a: u64)
    requires h.op.MEMCPY? && Models(regs, abs) && AccessOk(h, xrd, abs, man) && Touches(h, xrd, regs, a)
    ensures Declared(man, a)
  {
    hide FitsSome, Declared, CopyWords, CopyLength, CopyExtent, Mask64, Get, LenFromReg;
    assert In(regs[h.rs1], Get(abs, h.rs1)) && In(regs[h.rs2], Get(abs, h.rs2));
    ExtentCovers(h, xrd, regs, abs);
    var i :| 0 <= i < CopyWords(CopyLength(h, xrd, regs))
      && (a == DstWord(regs[h.rs1], i) || a == DstWord(regs[h.rs2], i));
    var words := CopyExtent(h, xrd, abs);
    var base := if a == DstWord(regs[h.rs1], i) then h.rs1 else h.rs2;
    SomeInside(man, Get(abs, base), 0, words, regs[base], i);
  }

  // ----- the theorems -----

  /** The instruction about to run touches only declared words. */
  ghost predicate AccessesDeclared(code: Code, man: Manifest, s: State)
    requires Fetchable(code, s.pc)
  {
    forall a: u64 :: Touches(At(code, s.pc), ExtraReg(code, s.pc), s.d.regs, a) ==> Declared(man, a)
  }

  lemma CoveredAccesses(code: Code, man: Manifest, inv: Annotation, s: State)
    requires AccessesOk(code, man, inv) && Live(code, s) && Covered(code, inv, s.loops, s.pc, s.d.regs)
    ensures AccessesDeclared(code, man, s)
  {
    hide At, ExtraReg, AccessOk, Touches, Declared, Models, Swept;
    forall a: u64 | Touches(At(code, s.pc), ExtraReg(code, s.pc), s.d.regs, a) ensures Declared(man, a) {
      TouchedDeclared(At(code, s.pc), ExtraReg(code, s.pc), s.d.regs, inv(s.pc), man, a);
    }
  }

  /** What an annotation needs to bound the accesses of a run from `s`. */
  predicate Guards(code: Code, man: Manifest, inv: Annotation, s: State) {
    Inductive(code, inv) && Lands(code) && AccessesOk(code, man, inv)
    && (s.status == Running ==> Covered(code, inv, s.loops, s.pc, s.d.regs))
  }

  lemma GuardsNext(code: Code, man: Manifest, inv: Annotation, s: State)
    requires Guards(code, man, inv, s) && Live(code, s)
    ensures Guards(code, man, inv, Step(code, s)) && AccessesDeclared(code, man, s)
  {
    hide At, Step, Covered, Inductive, Lands, AccessesOk, AccessesDeclared;
    StepSound(code, inv, s);
    CoveredAccesses(code, man, inv, s);
  }

  /** Every access of every run lies in a declared region. */
  lemma {:induction false} AccessesStayDeclared(code: Code, man: Manifest, inv: Annotation, s: State, n: nat)
    requires Guards(code, man, inv, s)
    ensures var t := Run(code, s, n); Live(code, t) ==> AccessesDeclared(code, man, t)
    decreases n
  {
    hide At, Step, Guards, AccessesDeclared;
    if Live(code, s) {
      GuardsNext(code, man, inv, s);
      if n > 0 { AccessesStayDeclared(code, man, inv, Step(code, s), n - 1); }
    }
  }

  /** One step changes no undeclared word. */
  lemma StepFrame(code: Code, man: Manifest, s: State, a: u64)
    requires Live(code, s) && AccessesDeclared(code, man, s) && !Declared(man, a)
    ensures Load(Step(code, s).d.mem, a) == Load(s.d.mem, a)
  {
    hide At, ExtraReg, Work, Touches, Declared, Resolve;
    WorkFrame(At(code, s.pc), ExtraReg(code, s.pc), s.d, a);
  }

  /** No run changes a word outside the declared regions. */
  lemma {:induction false} UndeclaredUnchanged(code: Code, man: Manifest, inv: Annotation, s: State, n: nat, a: u64)
    requires Guards(code, man, inv, s) && !Declared(man, a)
    ensures Load(Run(code, s, n).d.mem, a) == Load(s.d.mem, a)
    decreases n
  {
    hide At, Step, Guards, AccessesDeclared, Declared, Load;
    if n > 0 && Live(code, s) {
      GuardsNext(code, man, inv, s);
      StepFrame(code, man, s, a);
      UndeclaredUnchanged(code, man, inv, Step(code, s), n - 1, a);
    }
  }

  /** The memories hold the same in every declared word. */
  ghost predicate Alike(man: Manifest, m1: Mem, m2: Mem) { forall a: u64 :: Declared(man, a) ==> SameAt(m1, m2, a) }

  /** The states differ in nothing but undeclared words. */
  ghost predicate SameRun(man: Manifest, s: State, t: State) {
    t == s.(d := s.d.(mem := t.d.mem)) && Alike(man, s.d.mem, t.d.mem)
  }

  lemma StepIsolated(code: Code, man: Manifest, s: State, t: State)
    requires Live(code, s) && AccessesDeclared(code, man, s) && SameRun(man, s, t)
    ensures Live(code, t) && SameRun(man, Step(code, s), Step(code, t))
  {
    hide At, ExtraReg, Work, Touches, Declared, Settle, Load, EffectAt, Enter, Arrive;
    var one, two := EffectAt(code, s.pc, s.d), EffectAt(code, s.pc, t.d);
    assert t.d == s.d.(mem := t.d.mem);
    EffectIsolated(code, man, s, t.d.mem);
    assert two == one.(mem := two.mem) && Alike(man, one.mem, two.mem);
    SettleAlike(code, Enter(At(code, s.pc), s.pc, s.d.regs, s.loops), Arrive(At(code, s.pc), s.pc, s.d.regs), one, two);
  }

  lemma EffectIsolated(code: Code, man: Manifest, s: State, mem: Mem)
    requires Live(code, s) && AccessesDeclared(code, man, s) && Alike(man, s.d.mem, mem)
    ensures var one, two := EffectAt(code, s.pc, s.d), EffectAt(code, s.pc, s.d.(mem := mem));
            two == one.(mem := two.mem) && Alike(man, one.mem, two.mem)
  {
    hide At, ExtraReg, Work, Touches, Declared, Load;
    var h, x := At(code, s.pc), ExtraReg(code, s.pc);
    WorkAlike(h, x, s.d, mem);
    forall a: u64 | Declared(man, a) ensures SameAt(Work(h, x, s.d).mem, Work(h, x, s.d.(mem := mem)).mem, a) {
      WorkDepends(h, x, s.d, mem, a);
    }
  }

  lemma SettleAlike(code: Code, loops: seq<Frame>, np: int, d: Data, e: Data)
    ensures Settle(code, loops, np, e) == Settle(code, loops, np, d).(d := e) && Settle(code, loops, np, d).d == d
  {
    hide Resolve;
  }

  /** Undeclared words have no influence: registers, results, timing and declared memory are the same without them. */
  lemma {:induction false} RunsIsolated(code: Code, man: Manifest, inv: Annotation, s: State, t: State, n: nat)
    requires Guards(code, man, inv, s) && SameRun(man, s, t)
    ensures SameRun(man, Run(code, s, n), Run(code, t, n))
    decreases n
  {
    hide At, Step, Guards, AccessesDeclared, Alike;
    if n > 0 && Live(code, s) {
      GuardsNext(code, man, inv, s);
      StepIsolated(code, man, s, t);
      RunsIsolated(code, man, inv, Step(code, s), Step(code, t), n - 1);
    }
  }

  // ----- the instance for the verifier's scan -----

  /** The three theorems from entry, the scan's own state as annotation. */
  lemma ScannedRunsAreSafe(code: Code, man: Manifest, args: seq<int>, mem: Mem, n: nat)
    requires EdgesOk(code, man) && ArgsInBounds(Reset(args, mem).d.regs, man.arguments)
    requires AccessesOk(code, man, ScanAnnotation(code, man))
    ensures var s := Run(code, Reset(args, mem), n);
            && (Live(code, s) ==> AccessesDeclared(code, man, s))
            && (forall a: u64 :: !Declared(man, a) ==> Load(s.d.mem, a) == Load(mem, a))
            && forall other: Mem :: Alike(man, mem, other) ==> SameRun(man, s, Run(code, Reset(args, other), n))
  {
    hide At, Run, EdgesOk, AccessesOk, AccessesDeclared, Declared, Load, Alike, Inductive, Lands, Models;
    var inv, s0 := ScanAnnotation(code, man), Reset(args, mem);
    EdgesInductive(code, man);
    InitiallyCovered(code, man, args, mem);
    assert Guards(code, man, inv, s0);
    AccessesStayDeclared(code, man, inv, s0, n);
    forall a: u64 | !Declared(man, a) ensures Load(Run(code, s0, n).d.mem, a) == Load(mem, a) {
      UndeclaredUnchanged(code, man, inv, s0, n, a);
    }
    forall other: Mem | Alike(man, mem, other)
      ensures SameRun(man, Run(code, s0, n), Run(code, Reset(args, other), n)) {
      RunsIsolated(code, man, inv, s0, Reset(args, other), n);
    }
  }
}
