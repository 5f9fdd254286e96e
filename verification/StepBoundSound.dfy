/** No run of an accepted well-nested program takes more steps than the verifier's static bound. */
module StepBoundSound {
  import opened Prelude
  import opened Isa
  import opened Machine
  import opened Structured
  import opened LoopShape
  import opened Verifier
  import opened VerifierSound
  import opened StepBound

  // ----- counts -----

  /** At every LOOP the annotation knows the count and bounds it by the scan's estimate. */
  predicate CountsCovered(code: Code, man: Manifest, inv: Annotation) {
    forall q: nat :: q < |code| && Swept(code, 0, q) && At(code, q).op.LOOP? ==>
      var av := Get(inv(q), At(code, q).rs1); !av.unknown && av.hi <= Iters(code, man, q)
  }

  lemma {:induction false} BlockBounded(code: Code, man: Manifest, inv: Annotation, lo: nat, hi: nat, d: Data)
    requires Inductive(code, inv) && CountsCovered(code, man, inv)
    requires WellNested(code, lo, hi) && Swept(code, 0, lo) && Models(d.regs, inv(lo))
    ensures var o := Block(code, lo, hi, d);
            o.steps <= Cost(code, man, lo, hi) && (o.stop.Through? ==> Models(o.d.regs, inv(hi)))
    decreases hi - lo, 1
  {
    hide At, EffectAt, Models, Flows, Inductive, CountsCovered, Swept, OnChain, Repeat, ItemCost, Fetchable;
    if lo < hi {
      var h, next := At(code, lo), After(code, lo);
      var d' := EffectAt(code, lo, d);
      InductiveAt(code, inv, lo);
      ItemSwept(code, lo, hi);
      if h.op.LOOP? {
        LoopBounded(code, man, inv, lo, d);
        var loop := Tick(1, Repeat(code, lo + 1, next, d.regs[h.rs1], d'));
        if loop.stop.Through? {
          BlockBounded(code, man, inv, next, hi, loop.d);
        }
      } else if h.op.JUMP? && d.regs[h.rs1] != 0 {
        JumpTarget(code, man, lo, hi);
        JumpModels(code, inv, lo, d);
        BlockBounded(code, man, inv, lo + h.imm, hi, d');
      } else if !h.op.RET? && !h.op.ILLEGAL? {
        FlowSound(code, inv, lo, d);
        BlockBounded(code, man, inv, next, hi, d');
      }
    }
  }

  lemma JumpTarget(code: Code, man: Manifest, lo: nat, hi: nat)
    requires WellNested(code, lo, hi) && lo < hi && At(code, lo).op.JUMP? && Swept(code, 0, lo)
    ensures var t := lo + At(code, lo).imm;
            && lo < t <= hi && WellNested(code, t, hi) && Swept(code, 0, t)
            && 1 + Cost(code, man, t, hi) <= Cost(code, man, lo, hi)
  {
    hide At, Swept;
    var t := lo + At(code, lo).imm;
    ItemSwept(code, lo, hi);
    ChainNested(code, lo + 1, hi, t);
    ChainSwept(code, lo + 1, hi, t);
    ChainCost(code, man, lo + 1, hi, t);
  }

  lemma JumpModels(code: Code, inv: Annotation, lo: nat, d: Data)
    requires Fetchable(code, lo) && At(code, lo).op.JUMP? && Flows(code, inv, lo) && Models(d.regs, inv(lo))
    ensures Models(EffectAt(code, lo, d).regs, inv(lo + At(code, lo).imm))
  {
    hide At, EffectAt, Models, Leq, ComputeWrapsTogether;
    EffectWrites(code, lo, d);
    LeqModels(d.regs, inv(lo), inv(lo + At(code, lo).imm));
  }

  lemma ItemSwept(code: Code, lo: nat, hi: nat)
    requires WellNested(code, lo, hi) && lo < hi && Swept(code, 0, lo)
    ensures Swept(code, 0, After(code, lo)) && Swept(code, 0, lo + Width(At(code, lo).op))
  {
    hide At;
    SweptNext(code, 0, map[], lo);
    if At(code, lo).op.LOOP? {
      BlockSwept(code, lo + 1, After(code, lo));
      SweptThrough(code, 0, lo + 1, After(code, lo));
    }
  }

  lemma {:induction false} ChainSwept(code: Code, lo: nat, hi: nat, t: int)
    requires WellNested(code, lo, hi) && OnChain(code, lo, hi, t) && Swept(code, 0, lo)
    ensures Swept(code, 0, t)
    decreases hi - lo
  {
    hide At, Swept;
    if lo != t {
      ItemSwept(code, lo, hi);
      ChainSwept(code, After(code, lo), hi, t);
    }
  }

  lemma {:induction false} ChainCost(code: Code, man: Manifest, lo: nat, hi: nat, t: int)
    requires WellNested(code, lo, hi) && OnChain(code, lo, hi, t)
    ensures WellNested(code, t, hi) && Cost(code, man, t, hi) <= Cost(code, man, lo, hi)
    decreases hi - lo
  {
    hide At, ItemCost;
    if lo != t {
      ChainCost(code, man, After(code, lo), hi, t);
    }
  }

  lemma {:induction false} LoopBounded(code: Code, man: Manifest, inv: Annotation, lo: nat, d: Data)
    requires Inductive(code, inv) && CountsCovered(code, man, inv)
    requires Fetchable(code, lo) && At(code, lo).op.LOOP? && Swept(code, 0, lo) && Models(d.regs, inv(lo))
    requires lo + 1 < After(code, lo) && WellNested(code, lo + 1, After(code, lo))
    ensures var o := Tick(1, Repeat(code, lo + 1, After(code, lo), d.regs[At(code, lo).rs1], EffectAt(code, lo, d)));
            o.steps <= ItemCost(code, man, lo) && (o.stop.Through? ==> Models(o.d.regs, inv(After(code, lo))))
    decreases After(code, lo) - lo, 0
  {
    hide At, EffectAt, Models, Leq, Get, ComputeWrapsTogether, Swept, Repeat;
    var h, next := At(code, lo), After(code, lo);
    var d', count := EffectAt(code, lo, d), d.regs[h.rs1];
    assert Flows(code, inv, lo);
    FlowSound(code, inv, lo, d);
    EffectWrites(code, lo, d);
    LeqModels(d.regs, inv(lo), inv(next));
    SweptNext(code, 0, map[], lo);
    RepeatBounded(code, man, inv, lo + 1, next, count, d');
    CountWithin(d.regs, inv(lo), h.rs1);
    MulMonotone(count, Iters(code, man, lo), Cost(code, man, lo + 1, next));
  }

  lemma CountWithin(regs: Regs, abs: AbsRegs, r: reg)
    requires Models(regs, abs) && !Get(abs, r).unknown
    ensures regs[r] <= Get(abs, r).hi
  {
    assert In(regs[r], Get(abs, r));
  }

  lemma MulMonotone(a: nat, b: nat, c: nat)
    requires a <= b
    ensures a * c <= b * c
  {
  }

  lemma {:induction false} RepeatBounded(
    code: Code, man: Manifest, inv: Annotation, lo: nat, hi: nat, n: nat, d: Data)
    requires Inductive(code, inv) && CountsCovered(code, man, inv)
    requires WellNested(code, lo, hi) && Swept(code, 0, lo) && Leq(inv(hi), inv(lo))
    requires Models(d.regs, inv(lo)) && (n == 0 ==> Models(d.regs, inv(hi)))
    ensures var o := Repeat(code, lo, hi, n, d);
            o.steps <= n * Cost(code, man, lo, hi) && (o.stop.Through? ==> Models(o.d.regs, inv(hi)))
    decreases hi - lo, n + 2
  {
    hide At, EffectAt, Models, Leq, Inductive, CountsCovered, Swept, Block;
    if n > 0 {
      BlockBounded(code, man, inv, lo, hi, d);
      var once := Block(code, lo, hi, d);
      var c := Cost(code, man, lo, hi);
      assert n * c == c + (n - 1) * c;
      MulMonotone(0, n - 1, c);
      if once.stop.Through? {
        LeqModels(once.d.regs, inv(hi), inv(lo));
        RepeatBounded(code, man, inv, lo, hi, n - 1, once.d);
      }
    }
  }

  // ----- the step counter is exact -----

  lemma {:induction false} BlockRetires(code: Code, lo: int, hi: int, d: Data)
    requires WellNested(code, lo, hi)
    ensures var o := Block(code, lo, hi, d); o.d.retired == d.retired + o.steps
    decreases hi - lo, 0
  {
    hide At, EffectAt;
    if lo < hi {
      var h := At(code, lo);
      var d' := EffectAt(code, lo, d);
      EffectRetires(code, lo, d);
      if h.op.LOOP? {
        RepeatRetires(code, lo + 1, After(code, lo), d.regs[h.rs1], d');
        var loop := Repeat(code, lo + 1, After(code, lo), d.regs[h.rs1], d');
        BlockRetires(code, After(code, lo), hi, loop.d);
      } else if !h.op.RET? && !h.op.ILLEGAL? {
        if h.op.JUMP? { ChainNested(code, lo + 1, hi, lo + h.imm); }
        BlockRetires(code, Arrive(h, lo, d.regs), hi, d');
      }
    }
  }

  lemma {:induction false} RepeatRetires(code: Code, lo: int, hi: int, n: nat, d: Data)
    requires WellNested(code, lo, hi)
    ensures var o := Repeat(code, lo, hi, n, d); o.d.retired == d.retired + o.steps
    decreases hi - lo, n + 1
  {
    hide At, EffectAt, Block;
    if n > 0 {
      BlockRetires(code, lo, hi, d);
      RepeatRetires(code, lo, hi, n - 1, Block(code, lo, hi, d).d);
    }
  }

  lemma EffectRetires(code: Code, pc: int, d: Data)
    requires Fetchable(code, pc)
    ensures EffectAt(code, pc, d).retired == d.retired + 1
  {
    hide At, Alu, Memcpy, DrainAll, DrainTo, Issue, CopyCost, AccessCost, Load, EffectiveAddr, CopyLength, ExtraReg;
    WorkKeepsRetired(At(code, pc), ExtraReg(code, pc), d);
  }

  lemma WorkKeepsRetired(h: Decoded, xrd: reg, d: Data)
    ensures Work(h, xrd, d).retired == d.retired
  {
    hide Alu, Memcpy, DrainAll, DrainTo, Issue, CopyCost, AccessCost, Load, EffectiveAddr, CopyLength, SetReg, Mask64;
    match h.op
    case CAS =>
    case MEMCPY =>
    case _ =>
  }

  // ----- the bound -----

  /** With an inductive annotation that covers the counts, the bound holds: the run has ended by then. */
  lemma BoundHolds(code: Code, man: Manifest, inv: Annotation, args: seq<int>, mem: Mem)
    requires Verify(code, man).ok && WellNested(code, 0, |code|) && code != []
    requires Inductive(code, inv) && CountsCovered(code, man, inv) && Models(Reset(args, mem).d.regs, inv(0))
    ensures EndsWithin(code, man, args, mem)
  {
    hide At, WellNested, Block, Run, Verify, Models, Inductive, CountsCovered, Cost;
    var s0 := Reset(args, mem);
    var bound := Verify(code, man).staticStepBound;
    var o := Block(code, 0, |code|, s0.d);
    BlockBounded(code, man, inv, 0, |code|, s0.d);
    BoundIsCost(code, man);
    FlatRefinesStructured(code, s0.d);
    BlockRetires(code, 0, |code|, s0.d);
    RunAdd(code, s0, o.steps, bound - o.steps);
    DeadStays(code, Run(code, s0, o.steps), bound - o.steps);
  }

  /** After as many steps as the static bound the run has ended, having taken no more than maxDynamic. */
  predicate EndsWithin(code: Code, man: Manifest, args: seq<int>, mem: Mem) {
    var bound := Verify(code, man).staticStepBound;
    && 0 <= bound <= man.maxDynamic
    && var s := Run(code, Reset(args, mem), bound); s.status != Running && s.d.retired <= bound
  }

  // ----- first instance: the scan's own abstract state -----

  /** Whenever the scan's state is sound along every edge, the static bound is sound too. */
  lemma BoundHoldsUnderEdges(code: Code, man: Manifest, args: seq<int>, mem: Mem)
    requires Verify(code, man).ok && WellNested(code, 0, |code|) && code != []
    requires EdgesOk(code, man) && ArgsInBounds(Reset(args, mem).d.regs, man.arguments)
    ensures EndsWithin(code, man, args, mem)
  {
    hide At, WellNested, Verify, AbsAt, EndsWithin, Inductive, Lands, EdgesOk, Iters;
    var inv := ScanAnnotation(code, man);
    EdgesInductive(code, man);
    forall q: nat | q < |code| && Swept(code, 0, q) && At(code, q).op.LOOP?
      ensures var av := Get(inv(q), At(code, q).rs1); !av.unknown && av.hi <= Iters(code, man, q)
    {
      ClampIsHarmless(code, man, q);
    }
    InitiallyCovered(code, man, args, mem);
    BoundHolds(code, man, inv, args, mem);
  }

  // ----- second instance: counts in argument registers -----

  predicate WritesRd(h: Decoded) { h.op.LOAD? || h.op.CAS? || h.op.CAA? || h.op.COMPUTE? || h.op.MEMCPY? }

  /** Some instruction before `t` has `r` as its destination. */
  predicate WrittenBelow(code: Code, r: int, t: int) {
    exists p: nat :: p < t && p < |code| && Swept(code, 0, p) && WritesRd(At(code, p)) && At(code, p).rd == r
  }

  /** `p` itself, or the end of the outermost loop body around it. */
  function Horizon(code: Code, lo: int, hi: int, p: int): int
    requires WellNested(code, lo, hi)
    decreases hi - lo
  {
    if lo == hi || p <= lo then p
    else if p >= After(code, lo) then Horizon(code, After(code, lo), hi, p)
    else After(code, lo)
  }

  lemma {:induction false} HorizonMonotone(code: Code, lo: int, hi: int, p: int, q: int)
    requires WellNested(code, lo, hi) && p <= q
    ensures p <= Horizon(code, lo, hi, p) <= Horizon(code, lo, hi, q)
    decreases hi - lo
  {
    hide At;
    if lo < hi && p > lo {
      if q >= After(code, lo) {
        HorizonMonotone(code, After(code, lo), hi, Max(p, After(code, lo)), q);
        if p >= After(code, lo) {
          HorizonMonotone(code, After(code, lo), hi, p, q);
        }
      }
    } else if lo < hi && q > lo {
      if q >= After(code, lo) {
        HorizonMonotone(code, After(code, lo), hi, q, q);
      }
    }
  }

  /** The back edge of the loop at `q` stays within the horizon of its body. */
  lemma {:induction false} HorizonOfLoop(code: Code, lo: int, hi: int, q: int)
    requires WellNested(code, lo, hi) && Item(code, lo, hi, q) && 0 <= q < |code| && At(code, q).op.LOOP?
    ensures Horizon(code, lo, hi, After(code, q)) <= Horizon(code, lo, hi, q + 1)
    decreases hi - lo
  {
    hide At;
    ItemFits(code, lo, hi, q);
    if q >= After(code, lo) {
      HorizonOfLoop(code, After(code, lo), hi, q);
    } else {
      if q > lo { ItemFits(code, lo + 1, After(code, lo), q); }
      ChainIsHorizon(code, After(code, lo), hi);
    }
  }

  lemma ChainIsHorizon(code: Code, lo: int, hi: int)
    requires WellNested(code, lo, hi)
    ensures Horizon(code, lo, hi, lo) == lo
  {
  }

  /** No count register is written before its loop, or inside the outermost loop around it. */
  predicate CountsUntouched(code: Code)
    requires WellNested(code, 0, |code|)
  {
    forall q: nat :: q < |code| && Swept(code, 0, q) && At(code, q).op.LOOP? ==>
      !WrittenBelow(code, At(code, q).rs1, Horizon(code, 0, |code|, q))
  }

  /** The declared intervals of the registers not yet written. */
  function Untouched(code: Code, man: Manifest, t: int): AbsRegs {
    var abs := InitialAbs(man.arguments);
    abs - (set r | r in abs && WrittenBelow(code, r, t))
  }

  function ArgAnnotation(code: Code, man: Manifest): Annotation
    requires WellNested(code, 0, |code|)
  {
    p => Untouched(code, man, Horizon(code, 0, |code|, p))
  }

  lemma UntouchedShrinks(code: Code, man: Manifest, t: int, u: int)
    requires t <= u
    ensures Leq(Untouched(code, man, t), Untouched(code, man, u))
  {
    hide At;
    forall r: reg ensures Within(Get(Untouched(code, man, t), r), Get(Untouched(code, man, u), r)) {
      assert WrittenBelow(code, r, t) ==> WrittenBelow(code, r, u);
    }
  }

  lemma UntouchedSteps(code: Code, man: Manifest, p: nat, t: int, u: int)
    requires p < |code| && Swept(code, 0, p) && t <= u && p < u
    ensures Leq(TrueStep(At(code, p), Untouched(code, man, t)), Untouched(code, man, u))
    ensures WritesRd(At(code, p)) ==> Get(Untouched(code, man, u), At(code, p).rd).unknown
  {
    hide At, AbsCompute, Swept;
    var h := At(code, p);
    var before, after := Untouched(code, man, t), Untouched(code, man, u);
    UntouchedShrinks(code, man, t, u);
    assert WritesRd(h) ==> WrittenBelow(code, h.rd, u);
    forall r: reg ensures Within(Get(TrueStep(h, before), r), Get(after, r)) {
      assert Within(Get(before, r), Get(after, r));
    }
  }

  lemma {:induction false} SweptIsItem(code: Code, lo: nat, hi: nat, q: nat)
    requires WellNested(code, lo, hi) && Swept(code, lo, q) && q < hi
    ensures Item(code, lo, hi, q)
    decreases hi - lo
  {
    hide At;
    SweptFits(code, lo, q);
    if q != lo {
      var next := After(code, lo);
      if At(code, lo).op.LOOP? && q >= next {
        SweptPast(code, lo + 1, next, q);
        SweptIsItem(code, next, hi, q);
      } else if At(code, lo).op.LOOP? {
        SweptIsItem(code, lo + 1, next, q);
      } else {
        SweptFits(code, next, q);
        SweptIsItem(code, next, hi, q);
      }
    }
  }

  /** A sweep through a block that reaches beyond its end passes through the end. */
  lemma {:induction false} SweptPast(code: Code, lo: nat, hi: nat, q: nat)
    requires WellNested(code, lo, hi) && Swept(code, lo, q) && q >= hi
    ensures Swept(code, hi, q)
    decreases hi - lo
  {
    hide At;
    if lo < hi {
      if At(code, lo).op.LOOP? {
        SweptPast(code, lo + 1, After(code, lo), q);
      }
      SweptPast(code, After(code, lo), hi, q);
    }
  }

  /** Counts that sit in argument registers keep the static bound sound, whatever the rest of the program does. */
  lemma BoundHoldsForArgumentCounts(code: Code, man: Manifest, args: seq<int>, mem: Mem)
    requires Verify(code, man).ok && WellNested(code, 0, |code|) && code != []
    requires CountsUntouched(code) && ArgsInBounds(Reset(args, mem).d.regs, man.arguments)
    ensures EndsWithin(code, man, args, mem)
  {
    hide At, WellNested, Verify, AbsAt, EndsWithin, Leq, ComputeWrapsTogether, Iters, Horizon, Untouched, Reset, Flows;
    var inv := ArgAnnotation(code, man);
    forall p: nat | p < |code| && Swept(code, 0, p) ensures Flows(code, inv, p) {
      ArgFlows(code, man, p);
    }
    forall q: nat | q < |code| && Swept(code, 0, q) && At(code, q).op.LOOP?
      ensures var av := Get(inv(q), At(code, q).rs1); !av.unknown && av.hi <= Iters(code, man, q)
    {
      ArgCount(code, man, q);
    }
    ArgInitially(code, man, args, mem);
    BoundHolds(code, man, inv, args, mem);
  }

  lemma ArgInitially(code: Code, man: Manifest, args: seq<int>, mem: Mem)
    requires WellNested(code, 0, |code|) && ArgsInBounds(Reset(args, mem).d.regs, man.arguments)
    ensures Models(Reset(args, mem).d.regs, ArgAnnotation(code, man)(0))
  {
    hide At, WellNested, WrittenBelow;
    InitiallyCovered(code, man, args, mem);
    var regs := Reset(args, mem).d.regs;
    var abs := ArgAnnotation(code, man)(0);
    forall r: reg ensures In(regs[r], Get(abs, r)) {
      assert In(regs[r], Get(InitialAbs(man.arguments), r));
    }
  }

  lemma ArgFlows(code: Code, man: Manifest, p: nat)
    requires WellNested(code, 0, |code|) && Verify(code, man).ok && p < |code| && Swept(code, 0, p)
    ensures Flows(code, ArgAnnotation(code, man), p)
  {
    hide At, WellNested, Verify, Leq, ComputeWrapsTogether, Untouched, Horizon, TrueStep, Swept;
    var h, n := At(code, p), |code|;
    var next := p + Width(h.op);
    HorizonMonotone(code, 0, n, p, next);
    HorizonMonotone(code, 0, n, next, next);
    UntouchedSteps(code, man, p, Horizon(code, 0, n, p), Horizon(code, 0, n, next));
    if h.op.JUMP? || h.op.LOOP? {
      AcceptedForward(code, man, p);
      HorizonMonotone(code, 0, n, p, if h.op.JUMP? then p + h.imm else p + 1 + h.imm);
      UntouchedShrinks(code, man, Horizon(code, 0, n, p),
                       Horizon(code, 0, n, if h.op.JUMP? then p + h.imm else p + 1 + h.imm));
    }
    if h.op.LOOP? {
      SweptIsItem(code, 0, n, p);
      HorizonOfLoop(code, 0, n, p);
      UntouchedShrinks(code, man, Horizon(code, 0, n, p + 1 + h.imm), Horizon(code, 0, n, p + 1));
    }
  }

  lemma AcceptedForward(code: Code, man: Manifest, p: nat)
    requires Verify(code, man).ok && p < |code| && Swept(code, 0, p)
    requires At(code, p).op.JUMP? || At(code, p).op.LOOP?
    ensures At(code, p).imm > 0
  {
    hide At, Verify, Visit, ScanTo, ScanFrom, InstrOk;
    AcceptedVisit(code, man, p);
    ImmForward(At(code, p), p, |code|, |PopEnded(ScanTo(code, man, 0, InitialScan(code, man), p).frames, p)|,
               AbsAt(code, man, p), man);
  }

  lemma ImmForward(h: Decoded, pc: int, n: int, depth: int, abs: AbsRegs, man: Manifest)
    requires InstrOk(h, pc, n, depth, abs, man) && (h.op.JUMP? || h.op.LOOP?)
    ensures h.imm > 0
  {
  }

  lemma ArgCount(code: Code, man: Manifest, q: nat)
    requires WellNested(code, 0, |code|) && Verify(code, man).ok && CountsUntouched(code)
    requires q < |code| && Swept(code, 0, q) && At(code, q).op.LOOP?
    ensures var av := Get(ArgAnnotation(code, man)(q), At(code, q).rs1); !av.unknown && av.hi <= Iters(code, man, q)
  {
    hide At, WellNested, Verify, AbsFrom, Horizon, WrittenBelow;
    var r := At(code, q).rs1;
    ClampIsHarmless(code, man, q);
    HorizonMonotone(code, 0, |code|, q, q);
    WrittenMonotone(code, r, q, Horizon(code, 0, |code|, q));
    UnwrittenKept(code, 0, InitialAbs(man.arguments), q, r);
  }

  lemma WrittenMonotone(code: Code, r: int, t: int, u: int)
    requires t <= u
    ensures WrittenBelow(code, r, t) ==> WrittenBelow(code, r, u)
  {
    hide At;
  }

  lemma {:induction false} UnwrittenKept(code: Code, pc: nat, abs: AbsRegs, t: int, r: int)
    requires Swept(code, 0, pc) && Swept(code, pc, t) && t <= |code| && !WrittenBelow(code, r, t)
    ensures Get(AbsFrom(code, pc, abs, t), r) == Get(abs, r)
    decreases |code| - pc
  {
    hide At, AbsCompute;
    if pc != t {
      SweptFits(code, pc, t);
      SweptNext(code, 0, map[], pc);
      var h := At(code, pc);
      assert !(WritesRd(h) && h.rd == r);
      UnwrittenKept(code, pc + Width(h.op), AbsStep(h, abs), t, r);
    }
  }
}
