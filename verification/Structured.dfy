/**
 * Structured loops: a semantics in which LOOP runs its body exactly count times, and the proof that the
 * flat loop stack of the machine computes the same on every well-nested program.
 */
module Structured {
  import opened Isa
  import opened Machine

  /** The item after the one at `pc`, a loop body being part of its LOOP. */
  function After(code: Code, pc: int): int
    requires 0 <= pc < |code|
  {
    var h := At(code, pc);
    if h.op.LOOP? then pc + 1 + h.imm else pc + Width(h.op)
  }

  /** `t` is an item boundary of the block [lo, hi), its end included. */
  predicate OnChain(code: Code, lo: int, hi: int, t: int)
    decreases hi - lo
  {
    lo == t || (0 <= lo < hi <= |code| && After(code, lo) > lo && OnChain(code, After(code, lo), hi, t))
  }

  /**
   * [lo, hi) is a sequence of items: loop bodies nest and are not empty, and every JUMP goes forward to an
   * item boundary of its own block, neither into a loop body nor out of the one around it.
   */
  predicate WellNested(code: Code, lo: int, hi: int)
    decreases hi - lo
  {
    lo == hi ||
    (&& 0 <= lo < hi <= |code| && Fetchable(code, lo) && lo < After(code, lo) <= hi
     && (At(code, lo).op.LOOP? ==> lo + 1 < After(code, lo) && WellNested(code, lo + 1, After(code, lo)))
     && (At(code, lo).op.JUMP? ==> OnChain(code, lo + 1, hi, lo + At(code, lo).imm))
     && WellNested(code, After(code, lo), hi))
  }

  lemma {:induction false} ChainNested(code: Code, lo: int, hi: int, t: int)
    requires WellNested(code, lo, hi) && OnChain(code, lo, hi, t)
    ensures lo <= t <= hi && WellNested(code, t, hi)
    decreases hi - lo
  {
    if lo != t {
      ChainNested(code, After(code, lo), hi, t);
    }
  }

  type Final = s: Status | s != Running witness Returned

  datatype Stop = Through | Halted(status: Final, pc: int)

  datatype Outcome = Outcome(d: Data, stop: Stop, steps: nat)

  /** `n` steps, then `o`. */
  function Tick(n: nat, o: Outcome): Outcome { o.(steps := n + o.steps) }

  /** Run the block [lo, hi) from `lo` to its end. */
  function Block(code: Code, lo: int, hi: int, d: Data): Outcome
    requires WellNested(code, lo, hi)
    decreases hi - lo, 0
  {
    hide EffectAt, DecodeWord;
    if lo == hi then Outcome(d, Through, 0)
    else
      var h := At(code, lo);
      var d' := EffectAt(code, lo, d);
      match h.op
      case RET => Outcome(d', Halted(Returned, lo), 1)
      case ILLEGAL(_) => Outcome(d', Halted(Failed, lo), 1)
      case LOOP =>
        var loop := Tick(1, Repeat(code, lo + 1, After(code, lo), d.regs[h.rs1], d'));
        if loop.stop.Halted? then loop else Tick(loop.steps, Block(code, After(code, lo), hi, loop.d))
      case JUMP =>
        ChainNested(code, lo + 1, hi, lo + h.imm);
        Tick(1, Block(code, Arrive(h, lo, d.regs), hi, d'))
      case _ => Tick(1, Block(code, After(code, lo), hi, d'))
  }

  /** Run the body [lo, hi) exactly `n` times. */
  function Repeat(code: Code, lo: int, hi: int, n: nat, d: Data): Outcome
    requires WellNested(code, lo, hi)
    decreases hi - lo, n + 1
  {
    if n == 0 then Outcome(d, Through, 0)
    else
      var once := Block(code, lo, hi, d);
      if once.stop.Halted? then once else Tick(once.steps, Repeat(code, lo, hi, n - 1, once.d))
  }

  /**
   * Machine state `s` is where outcome `o` of a block ending at `hi` leaves the machine with `loops` open around it.
   */
  predicate Agrees(code: Code, s: State, loops: seq<Frame>, hi: int, o: Outcome) {
    match o.stop
    case Through => s == Settle(code, loops, hi, o.d)
    case Halted(status, pc) => s.d == o.d && s.status == status && s.pc == pc
  }

  lemma {:induction false} FlatBlockRuns(code: Code, loops: seq<Frame>, lo: int, hi: int, d: Data)
    requires WellNested(code, lo, hi)
    requires loops == [] || hi <= loops[|loops| - 1].endPc
    ensures var o := Block(code, lo, hi, d);
            Agrees(code, Run(code, Settle(code, loops, lo, d), o.steps), loops, hi, o)
    decreases hi - lo, 1
  {
    hide At, EffectAt, Settle, Step;
    if lo < hi {
      var s := State(d, lo, loops, Running);
      SettleInside(code, loops, lo, d);
      var h := At(code, lo);
      var d' := EffectAt(code, lo, d);
      if h.op.LOOP? {
        var loop := Tick(1, Repeat(code, lo + 1, After(code, lo), d.regs[h.rs1], d'));
        LoopRuns(code, loops, lo, d);
        if loop.stop.Through? {
          FlatBlockRuns(code, loops, After(code, lo), hi, loop.d);
          RunAdd(code, s, loop.steps, Block(code, After(code, lo), hi, loop.d).steps);
        }
      } else if h.op.RET? || h.op.ILLEGAL? {
        HaltRuns(code, loops, lo, hi, d);
      } else {
        PlainBlock(code, lo, hi, d);
        FlatBlockRuns(code, loops, Arrive(h, lo, d.regs), hi, d');
        PlainStep(code, s);
      }
    }
  }

  lemma HaltRuns(code: Code, loops: seq<Frame>, lo: int, hi: int, d: Data)
    requires WellNested(code, lo, hi) && lo < hi && (At(code, lo).op.RET? || At(code, lo).op.ILLEGAL?)
    ensures var o := Block(code, lo, hi, d);
            Agrees(code, Run(code, State(d, lo, loops, Running), o.steps), loops, hi, o)
  {
    hide At, EffectAt, Settle, Step;
    HaltStep(code, State(d, lo, loops, Running));
  }

  lemma PlainBlock(code: Code, lo: int, hi: int, d: Data)
    requires WellNested(code, lo, hi) && lo < hi
    requires var op := At(code, lo).op; !op.RET? && !op.ILLEGAL? && !op.LOOP?
    ensures var next := Arrive(At(code, lo), lo, d.regs);
            && lo < next <= hi && WellNested(code, next, hi)
            && Block(code, lo, hi, d) == Tick(1, Block(code, next, hi, EffectAt(code, lo, d)))
  {
    hide At, EffectAt;
    var h := At(code, lo);
    if h.op.JUMP? { ChainNested(code, lo + 1, hi, lo + h.imm); }
  }

  lemma PlainStep(code: Code, s: State)
    requires Fetchable(code, s.pc)
    requires var op := At(code, s.pc).op; !op.RET? && !op.ILLEGAL? && !op.LOOP?
    ensures Step(code, s) == Settle(code, s.loops, Arrive(At(code, s.pc), s.pc, s.d.regs), EffectAt(code, s.pc, s.d))
  {
    hide At, EffectAt, Settle;
  }

  lemma HaltStep(code: Code, s: State)
    requires Fetchable(code, s.pc)
    requires var op := At(code, s.pc).op; op.RET? || op.ILLEGAL?
    ensures var op := At(code, s.pc).op;
            Step(code, s) == s.(d := EffectAt(code, s.pc, s.d), status := if op.RET? then Returned else Failed)
  {
    hide At, EffectAt;
  }

  lemma LoopStep(code: Code, s: State)
    requires Fetchable(code, s.pc) && At(code, s.pc).op.LOOP?
    ensures var (count, end, d) := (s.d.regs[At(code, s.pc).rs1], After(code, s.pc), EffectAt(code, s.pc, s.d));
            Step(code, s) ==
              if count == 0 then Settle(code, s.loops, end, d)
              else Settle(code, s.loops + [Frame(s.pc + 1, end, count, count)], s.pc + 1, d)
  {
    hide At, EffectAt, Settle;
  }

  lemma SettleInside(code: Code, loops: seq<Frame>, pc: int, d: Data)
    requires pc < |code| && (loops == [] || pc < loops[|loops| - 1].endPc)
    ensures Settle(code, loops, pc, d) == State(d, pc, loops, Running)
  {
  }

  /** A LOOP reached with `loops` open leaves the machine past its body with the same frames open. */
  lemma {:induction false} LoopRuns(code: Code, loops: seq<Frame>, lo: int, d: Data)
    requires 0 <= lo < |code| && Fetchable(code, lo) && At(code, lo).op.LOOP?
    requires lo + 1 < After(code, lo) && WellNested(code, lo + 1, After(code, lo))
    ensures var o := Tick(1, Repeat(code, lo + 1, After(code, lo), d.regs[At(code, lo).rs1], EffectAt(code, lo, d)));
            Agrees(code, Run(code, State(d, lo, loops, Running), o.steps), loops, After(code, lo), o)
    decreases After(code, lo) - lo, 0
  {
    hide At, EffectAt, WellNested, Step, Settle;
    var count := d.regs[At(code, lo).rs1];
    LoopStep(code, State(d, lo, loops, Running));
    if count > 0 {
      RepeatRuns(code, loops, Frame(lo + 1, After(code, lo), count, count), count, EffectAt(code, lo, d));
    }
  }

  lemma {:induction false} RepeatRuns(code: Code, loops: seq<Frame>, f: Frame, n: nat, d: Data)
    requires WellNested(code, f.startPc, f.endPc) && f.startPc < f.endPc
    requires 0 < n == f.remaining
    ensures var o := Repeat(code, f.startPc, f.endPc, n, d);
            Agrees(code, Run(code, Settle(code, loops + [f], f.startPc, d), o.steps), loops, f.endPc, o)
    decreases f.endPc - f.startPc, n + 1
  {
    hide At, EffectAt, Step;
    var lo, hi := f.startPc, f.endPc;
    var s := Settle(code, loops + [f], lo, d);
    var once := Block(code, lo, hi, d);
    FlatBlockRuns(code, loops + [f], lo, hi, d);
    assert (loops + [f])[..|loops|] == loops;
    if once.stop.Through? && n > 1 {
      var f' := f.(remaining := n - 1);
      RepeatRuns(code, loops, f', n - 1, once.d);
      assert (loops + [f'])[..|loops|] == loops;
      assert Settle(code, loops + [f], hi, once.d) == Settle(code, loops + [f'], lo, once.d);
      RunAdd(code, s, once.steps, Repeat(code, lo, hi, n - 1, once.d).steps);
    }
  }

  /** The main result: on a well-nested program the flat machine and the structured semantics agree, step for step. */
  lemma FlatRefinesStructured(code: Code, d: Data)
    requires WellNested(code, 0, |code|) && code != []
    ensures var o := Block(code, 0, |code|, d);
            var s := Run(code, State(d, 0, [], Running), o.steps);
            && s.d == o.d
            && s.status == (if o.stop.Halted? then o.stop.status else Failed)
            && (o.stop.Halted? ==> s.pc == o.stop.pc)
  {
    hide At;
    FlatBlockRuns(code, [], 0, |code|, d);
  }
}
