/** The loop stack of a running well-nested program is exactly the list of loops around its pc. */
module LoopShape {
  import opened Machine
  import opened Structured

  /** Bodies of the loops around `pc` within the block [lo, hi), outermost first. */
  function Enclosing(code: Code, lo: int, hi: int, pc: int): seq<(int, int)>
    requires WellNested(code, lo, hi)
    decreases hi - lo
  {
    if lo == hi || pc <= lo then []
    else if pc >= After(code, lo) then Enclosing(code, After(code, lo), hi, pc)
    else if At(code, lo).op.LOOP? then [(lo + 1, After(code, lo))] + Enclosing(code, lo + 1, After(code, lo), pc)
    else []
  }

  function Spans(loops: seq<Frame>): (r: seq<(int, int)>)
    ensures |r| == |loops|
  {
    seq(|loops|, i requires 0 <= i < |loops| => (loops[i].startPc, loops[i].endPc))
  }

  /** The innermost open block. */
  function Inner(code: Code, loops: seq<Frame>): (int, int) {
    if loops == [] then (0, |code|) else (loops[|loops| - 1].startPc, loops[|loops| - 1].endPc)
  }

  predicate IsLoopBody(code: Code, f: Frame) {
    && 0 <= f.startPc - 1 < |code| && At(code, f.startPc - 1).op.LOOP? && f.endPc == After(code, f.startPc - 1)
    && f.startPc < f.endPc && 1 <= f.remaining <= f.count
  }

  /** `pc` is an item boundary of the innermost open block, which is the body of a LOOP of the block around it. */
  predicate Inside(code: Code, loops: seq<Frame>, pc: int)
    decreases |loops|
  {
    var (lo, hi) := Inner(code, loops);
    && WellNested(code, lo, hi)
    && OnChain(code, lo, hi, pc)
    && (loops != [] ==>
          var below := loops[..|loops| - 1];
          && IsLoopBody(code, loops[|loops| - 1])
          && lo - 1 < Inner(code, below).1
          && Inside(code, below, lo - 1))
  }

  lemma {:induction false} ChainExtends(code: Code, lo: int, hi: int, pc: int, t: int)
    requires WellNested(code, lo, hi) && OnChain(code, lo, hi, pc) && pc < hi
    requires 0 <= pc < |code| ==> OnChain(code, After(code, pc), hi, t)
    ensures OnChain(code, lo, hi, t)
    decreases hi - lo
  {
    if lo != pc {
      ChainExtends(code, After(code, lo), hi, pc, t);
    }
  }

  lemma {:induction false} ResolveStaysInside(code: Code, loops: seq<Frame>, np: int)
    requires Inside(code, loops, np)
    ensures var (loops', pc) := Resolve(loops, np);
            && Inside(code, loops', pc)
            && (pc < Inner(code, loops').1 || (loops' == [] && pc == |code|))
    decreases |loops|
  {
    hide At;
    var (lo, hi) := Inner(code, loops);
    ChainNested(code, lo, hi, np);
    if loops != [] && np == hi {
      var below, top := loops[..|loops| - 1], loops[|loops| - 1];
      if top.remaining > 1 {
        var again := below + [top.(remaining := top.remaining - 1)];
        assert again[..|again| - 1] == below;
      } else {
        var (lo', hi') := Inner(code, below);
        assert WellNested(code, lo', hi');
        ChainNested(code, lo', hi', lo - 1);
        ChainExtends(code, lo', hi', lo - 1, np);
        ResolveStaysInside(code, below, np);
      }
    }
  }

  lemma EnterStaysInside(code: Code, s: State)
    requires Live(code, s) && Inside(code, s.loops, s.pc) && s.pc < Inner(code, s.loops).1
    requires !At(code, s.pc).op.RET? && !At(code, s.pc).op.ILLEGAL?
    ensures var h := At(code, s.pc);
            Inside(code, Enter(h, s.pc, s.d.regs, s.loops), Arrive(h, s.pc, s.d.regs))
  {
    hide At, Step;
    var h := At(code, s.pc);
    var (lo, hi) := Inner(code, s.loops);
    var np := Arrive(h, s.pc, s.d.regs);
    ChainNested(code, lo, hi, s.pc);
    if h.op.LOOP? && s.d.regs[h.rs1] != 0 {
      var pushed := Enter(h, s.pc, s.d.regs, s.loops);
      assert pushed[..|pushed| - 1] == s.loops;
    } else {
      ChainExtends(code, lo, hi, s.pc, np);
    }
  }

  /** Invariant of every reachable state that is still running. */
  lemma {:induction false} RunStaysInside(code: Code, s: State, n: nat)
    requires s.status == Running ==> Inside(code, s.loops, s.pc) && s.pc < Inner(code, s.loops).1
    ensures var t := Run(code, s, n);
            t.status == Running ==> Inside(code, t.loops, t.pc) && t.pc < Inner(code, t.loops).1
    decreases n
  {
    hide At, EffectAt, Inside, Inner;
    if n > 0 && Live(code, s) {
      var h := At(code, s.pc);
      if !h.op.RET? && !h.op.ILLEGAL? {
        EnterStaysInside(code, s);
        ResolveStaysInside(code, Enter(h, s.pc, s.d.regs, s.loops), Arrive(h, s.pc, s.d.regs));
      }
      RunStaysInside(code, Step(code, s), n - 1);
    }
  }

  // ----- the frames, read off the program text -----

  /** An instruction starts at `q` somewhere in the block [lo, hi), loop bodies included. */
  predicate Item(code: Code, lo: int, hi: int, q: int)
    requires WellNested(code, lo, hi)
    decreases hi - lo
  {
    && lo < hi
    && (|| q == lo
        || (q >= After(code, lo) && Item(code, After(code, lo), hi, q))
        || (lo < q < After(code, lo) && At(code, lo).op.LOOP? && Item(code, lo + 1, After(code, lo), q)))
  }

  lemma {:induction false} ItemFits(code: Code, lo: int, hi: int, q: int)
    requires WellNested(code, lo, hi) && Item(code, lo, hi, q)
    ensures 0 <= lo <= q < hi <= |code| && Fetchable(code, q) && q < After(code, q) <= hi
    ensures At(code, q).op.LOOP? ==> q + 1 < After(code, q) && WellNested(code, q + 1, After(code, q))
    decreases hi - lo
  {
    hide At;
    if q >= After(code, lo) {
      ItemFits(code, After(code, lo), hi, q);
    } else if q > lo {
      ItemFits(code, lo + 1, After(code, lo), q);
    }
  }

  lemma {:induction false} ChainIsItem(code: Code, lo: int, hi: int, pc: int)
    requires WellNested(code, lo, hi) && OnChain(code, lo, hi, pc)
    ensures Enclosing(code, lo, hi, pc) == []
    ensures pc < hi ==> Item(code, lo, hi, pc)
    decreases hi - lo
  {
    hide At;
    if lo != pc {
      ChainNested(code, After(code, lo), hi, pc);
      ChainIsItem(code, After(code, lo), hi, pc);
    }
  }

  lemma {:induction false} EnclosingInBody(code: Code, lo: int, hi: int, q: int, pc: int)
    requires WellNested(code, lo, hi) && Item(code, lo, hi, q) && 0 <= q < |code| && At(code, q).op.LOOP?
    requires q < pc < After(code, q)
    ensures WellNested(code, q + 1, After(code, q))
    ensures Enclosing(code, lo, hi, pc)
         == Enclosing(code, lo, hi, q) + [(q + 1, After(code, q))] + Enclosing(code, q + 1, After(code, q), pc)
    ensures Item(code, q + 1, After(code, q), pc) ==> Item(code, lo, hi, pc)
    decreases hi - lo
  {
    hide At;
    ItemFits(code, lo, hi, q);
    if q >= After(code, lo) {
      EnclosingInBody(code, After(code, lo), hi, q, pc);
    } else if q > lo {
      ItemFits(code, lo + 1, After(code, lo), q);
      EnclosingInBody(code, lo + 1, After(code, lo), q, pc);
    }
  }

  lemma {:induction false} InsideIsEnclosing(code: Code, loops: seq<Frame>, pc: int)
    requires WellNested(code, 0, |code|) && Inside(code, loops, pc) && pc < Inner(code, loops).1
    ensures Spans(loops) == Enclosing(code, 0, |code|, pc) && Item(code, 0, |code|, pc)
    decreases |loops|
  {
    hide At;
    var (lo, hi) := Inner(code, loops);
    ChainIsItem(code, lo, hi, pc);
    if loops != [] {
      var below, top := loops[..|loops| - 1], loops[|loops| - 1];
      InsideIsEnclosing(code, below, lo - 1);
      ChainNested(code, lo, hi, pc);
      EnclosingInBody(code, 0, |code|, lo - 1, pc);
      assert Spans(loops) == Spans(below) + [(lo, hi)];
    }
  }

  /**
   * The main result: while a well-nested program runs, its pc is at an instruction, its frames are exactly the
   * loops around the pc, outermost first, and each has between one and count iterations left.
   */
  lemma FramesAreEnclosingLoops(code: Code, args: seq<int>, mem: Mem, n: nat)
    requires WellNested(code, 0, |code|) && code != []
    ensures var s := Run(code, Reset(args, mem), n);
            s.status == Running ==>
              && Item(code, 0, |code|, s.pc)
              && Spans(s.loops) == Enclosing(code, 0, |code|, s.pc)
              && forall i :: 0 <= i < |s.loops| ==> 1 <= s.loops[i].remaining <= s.loops[i].count
  {
    hide At, Run, Item, WellNested, Enclosing;
    var s := Run(code, Reset(args, mem), n);
    RunStaysInside(code, Reset(args, mem), n);
    if s.status == Running {
      InsideIsEnclosing(code, s.loops, s.pc);
      InsideRemaining(code, s.loops, s.pc);
    }
  }

  lemma {:induction false} InsideRemaining(code: Code, loops: seq<Frame>, pc: int)
    requires Inside(code, loops, pc)
    ensures forall i :: 0 <= i < |loops| ==> 1 <= loops[i].remaining <= loops[i].count
    decreases |loops|
  {
    hide At;
    if loops != [] {
      var below := loops[..|loops| - 1];
      InsideRemaining(code, below, loops[|loops| - 1].startPc - 1);
      assert forall i :: 0 <= i < |below| ==> loops[i] == below[i];
    }
  }
}
