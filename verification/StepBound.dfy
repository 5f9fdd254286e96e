/**
 * The static step bound: what the verifier's scan adds up for a well-nested program, and why no run of an
 * accepted program takes more steps.
 */
module StepBound {
  import opened Prelude
  import opened Isa
  import opened Machine
  import opened Structured
  import opened LoopShape
  import opened Verifier
  import opened VerifierSound

  // ----- the scan of a well-nested block -----

  lemma {:induction false} ScanToSplit(code: Code, man: Manifest, pc: nat, v: Scan, m: nat, t: int)
    requires Swept(code, pc, m) && Swept(code, m, t)
    ensures Swept(code, pc, t)
    ensures ScanTo(code, man, pc, v, t) == ScanTo(code, man, m, ScanTo(code, man, pc, v, m), t)
    decreases |code| - pc
  {
    hide At, Visit;
    SweptFits(code, pc, m);
    SweptFits(code, m, t);
    if pc != m {
      SweptFits(code, pc + Width(At(code, pc).op), m);
      ScanToSplit(code, man, pc + Width(At(code, pc).op), Visit(At(code, pc), pc, |code|, v, man), m, t);
    }
  }

  /** The estimate the scan makes for the LOOP at `q`. */
  function Iters(code: Code, man: Manifest, q: int): (n: nat)
    requires 0 <= q < |code|
    ensures n >= 1
  {
    if Swept(code, 0, q) then Estimate(AbsAt(code, man, q), At(code, q).rs1, man.maxDynamic) else 1
  }

  /** Steps of one pass over a block when every loop takes its estimate. */
  function Cost(code: Code, man: Manifest, lo: int, hi: int): nat
    requires WellNested(code, lo, hi)
    decreases hi - lo, 1
  {
    if lo == hi then 0 else ItemCost(code, man, lo) + Cost(code, man, After(code, lo), hi)
  }

  function ItemCost(code: Code, man: Manifest, lo: int): (n: nat)
    requires 0 <= lo < |code| && (At(code, lo).op.LOOP? ==> WellNested(code, lo + 1, After(code, lo)))
    ensures n >= 1
    decreases After(code, lo) - lo, 0
  {
    hide At;
    if At(code, lo).op.LOOP? then
      var body := Cost(code, man, lo + 1, After(code, lo));
      MulNonNegative(Iters(code, man, lo), body);
      1 + Iters(code, man, lo) * body
    else 1
  }

  lemma MulNonNegative(a: nat, b: nat)
    ensures a * b >= 0
  {
  }

  lemma {:induction false} BlockSwept(code: Code, lo: nat, hi: int)
    requires WellNested(code, lo, hi)
    ensures hi >= lo && Swept(code, lo, hi)
    decreases hi - lo
  {
    hide At;
    if lo < hi {
      BlockSwept(code, After(code, lo), hi);
      if At(code, lo).op.LOOP? {
        BlockSwept(code, lo + 1, After(code, lo));
        SweptThrough(code, lo + 1, After(code, lo), hi);
      }
    }
  }

  lemma {:induction false} SweptThrough(code: Code, pc: nat, m: nat, t: int)
    requires Swept(code, pc, m) && Swept(code, m, t)
    ensures Swept(code, pc, t)
    decreases |code| - pc
  {
    hide At;
    SweptFits(code, m, t);
    if pc != m {
      SweptFits(code, pc + Width(At(code, pc).op), m);
      SweptThrough(code, pc + Width(At(code, pc).op), m, t);
    }
  }

  predicate EndsBy(frames: seq<LoopFrame>, hi: int) {
    frames == [] || hi <= frames[|frames| - 1].endPc
  }

  /** Scanning a block adds its cost once per product of the estimates around it, and closes the frames it opens. */
  lemma {:induction false} ScanBlock(code: Code, man: Manifest, lo: nat, hi: nat, v: Scan, frames: seq<LoopFrame>)
    requires WellNested(code, lo, hi) && Swept(code, 0, lo) && v.abs == AbsAt(code, man, lo)
    requires PopEnded(v.frames, lo) == frames && EndsBy(frames, hi)
    ensures Swept(code, lo, hi)
    ensures var w := ScanTo(code, man, lo, v, hi);
            && w.bound == v.bound + Product(frames) * Cost(code, man, lo, hi)
            && PopEnded(w.frames, hi) == PopEnded(frames, hi)
    decreases hi - lo, 1
  {
    hide At, Visit, Product, ItemCost, Fetchable, AbsFrom, PopEnded;
    BlockSwept(code, lo, hi);
    if lo == hi {
      PopTwice(v.frames, lo);
    } else {
      var next := After(code, lo);
      ScanItem(code, man, lo, v, frames);
      var w := ScanTo(code, man, lo, v, next);
      BlockSwept(code, next, hi);
      SweptThrough(code, 0, lo, next);
      ScanToAbs(code, man, lo, v, next);
      AbsFromSplit(code, 0, InitialAbs(man.arguments), lo, next);
      PopTwice(frames, next);
      if next < hi { PopNone(frames, next, hi); }
      ScanBlock(code, man, next, hi, w, PopEnded(frames, next));
      ScanToSplit(code, man, lo, v, next, hi);
      Distribute(Product(frames), ItemCost(code, man, lo), Cost(code, man, next, hi));
    }
  }

  lemma {:induction false} AbsFromSplit(code: Code, pc: nat, abs: AbsRegs, m: nat, t: int)
    requires Swept(code, pc, m) && Swept(code, m, t)
    ensures Swept(code, pc, t)
    ensures AbsFrom(code, pc, abs, t) == AbsFrom(code, m, AbsFrom(code, pc, abs, m), t)
    decreases |code| - pc
  {
    hide At, AbsStep;
    SweptFits(code, m, t);
    if pc != m {
      SweptFits(code, pc + Width(At(code, pc).op), m);
      AbsFromSplit(code, pc + Width(At(code, pc).op), AbsStep(At(code, pc), abs), m, t);
    }
  }

  lemma {:induction false} PopTwice(frames: seq<LoopFrame>, pc: int)
    ensures PopEnded(PopEnded(frames, pc), pc) == PopEnded(frames, pc)
    ensures EndsBy(PopEnded(frames, pc), pc)
  {
    if frames != [] && pc >= frames[|frames| - 1].endPc {
      PopTwice(frames[..|frames| - 1], pc);
    }
  }

  lemma Distribute(p: int, a: int, b: int)
    ensures p * (a + b) == p * a + p * b
  {
  }

  /** Scanning one item, the body of a LOOP included. */
  lemma {:induction false} ScanItem(code: Code, man: Manifest, lo: nat, v: Scan, frames: seq<LoopFrame>)
    requires lo < |code| && Swept(code, 0, lo) && v.abs == AbsAt(code, man, lo)
    requires At(code, lo).op.LOOP? ==> lo + 1 < After(code, lo) && WellNested(code, lo + 1, After(code, lo))
    requires PopEnded(v.frames, lo) == frames && EndsBy(frames, After(code, lo))
    ensures Swept(code, lo, After(code, lo))
    ensures var w := ScanTo(code, man, lo, v, After(code, lo));
            && w.bound == v.bound + Product(frames) * ItemCost(code, man, lo)
            && PopEnded(w.frames, After(code, lo)) == PopEnded(frames, After(code, lo))
    decreases After(code, lo) - lo, 0
  {
    hide At, InstrOk, AbsStep, Product, PopEnded, Cost, Fetchable, Iters;
    var h, next := At(code, lo), After(code, lo);
    var v' := Visit(h, lo, |code|, v, man);
    SweptNext(code, 0, InitialAbs(man.arguments), lo);
    if h.op.LOOP? {
      var f := LoopFrame(next, Iters(code, man, lo));
      assert v'.frames == frames + [f] by { EstimateIsIters(code, man, lo); }
      PopKeeps(frames, f, lo + 1);
      PopDrops(frames, f, next);
      BlockSwept(code, lo + 1, next);
      ScanBlock(code, man, lo + 1, next, v', frames + [f]);
      ProductSnoc(frames, f);
      MulAssoc(Product(frames), f.iters, Cost(code, man, lo + 1, next));
      Distribute(Product(frames), 1, f.iters * Cost(code, man, lo + 1, next));
    }
  }

  lemma EstimateIsIters(code: Code, man: Manifest, q: nat)
    requires q < |code| && Swept(code, 0, q)
    ensures Iters(code, man, q) == Estimate(AbsAt(code, man, q), At(code, q).rs1, man.maxDynamic)
  {
  }

  lemma PopKeeps(frames: seq<LoopFrame>, f: LoopFrame, pc: int)
    requires pc < f.endPc
    ensures PopEnded(frames + [f], pc) == frames + [f]
  {
  }

  lemma PopNone(frames: seq<LoopFrame>, pc: int, hi: int)
    requires EndsBy(frames, hi) && pc < hi
    ensures PopEnded(frames, pc) == frames
  {
  }

  lemma PopDrops(frames: seq<LoopFrame>, f: LoopFrame, pc: int)
    requires pc >= f.endPc
    ensures PopEnded(frames + [f], pc) == PopEnded(frames, pc)
  {
    assert (frames + [f])[..|frames|] == frames;
  }

  lemma MulAssoc(a: int, b: int, c: int)
    ensures (a * b) * c == a * (b * c)
  {
  }

  /** The reported bound of an accepted well-nested program is the cost of its block. */
  lemma BoundIsCost(code: Code, man: Manifest)
    requires Verify(code, man).ok && WellNested(code, 0, |code|)
    ensures Verify(code, man).staticStepBound == Cost(code, man, 0, |code|) <= man.maxDynamic
  {
    hide At, WellNested, Cost, Visit, ScanTo, InitialAbs;
    var v := InitialScan(code, man);
    BlockSwept(code, 0, |code|);
    AcceptedAt(code, man, 0, v, |code|);
    ScanBlock(code, man, 0, |code|, v, []);
    LastBound(code, man, 0, v);
  }

  lemma {:induction false} LastBound(code: Code, man: Manifest, pc: nat, v: Scan)
    requires ScanFrom(code, pc, v, man).ok && !v.stopped && (v.bound <= man.maxDynamic || pc < |code|)
    ensures ScanFrom(code, pc, v, man).bound <= man.maxDynamic
    decreases |code| - pc
  {
    hide At, InstrOk, AbsStep, PopEnded, Product;
    if pc < |code| {
      var v' := Visit(At(code, pc), pc, |code|, v, man);
      ScanKeepsOk(code, pc + Width(At(code, pc).op), v', man);
      LastBound(code, man, pc + Width(At(code, pc).op), v');
    }
  }

  // ----- the clamp on estimates, and the nesting check -----

  /**
   * The clamp to maxDynamic never decides: in an accepted program, whatever its nesting, the count of every
   * LOOP is known and below maxDynamic, so the estimate is the count's upper end (at least one).
   */
  lemma ClampIsHarmless(code: Code, man: Manifest, q: nat)
    requires Verify(code, man).ok && Swept(code, 0, q) && q < |code| && At(code, q).op.LOOP?
    ensures var av := Get(AbsAt(code, man, q), At(code, q).rs1);
            !av.unknown && av.hi < man.maxDynamic && Iters(code, man, q) == Max(1, av.hi)
  {
    hide At, Product, InstrOk, AbsStep, ScanFrom, ScanTo, Verify, AbsAt;
    AcceptedVisit(code, man, q);
    var v := ScanTo(code, man, 0, InitialScan(code, man), q);
    var h, frames := At(code, q), PopEnded(v.frames, q);
    var v1 := Visit(h, q, |code|, v, man);
    var f := LoopFrame(q + 1 + h.imm, Iters(code, man, q));
    BodyFollows(h, q, |code|, |frames|, v.abs, man);
    PopKeeps(frames, f, q + 1);
    VisitWithinBound(code, man, q + 1, v1);
    ProductPositive(frames);
    ProductSnoc(frames, f);
    MulAtLeast(Product(frames), f.iters);
  }

  lemma VisitWithinBound(code: Code, man: Manifest, pc: nat, v: Scan)
    requires ScanFrom(code, pc, v, man).ok && !v.stopped && pc < |code|
    ensures v.bound + Product(PopEnded(v.frames, pc)) <= man.maxDynamic
  {
    hide At, Product, PopEnded, InstrOk, AbsStep, VisitFrames;
    var h := At(code, pc);
    ScanKeepsOk(code, pc + Width(h.op), Visit(h, pc, |code|, v, man), man);
  }

  lemma ProductSnoc(frames: seq<LoopFrame>, f: LoopFrame)
    ensures Product(frames + [f]) == Product(frames) * Max(1, f.iters)
  {
    assert (frames + [f])[..|frames|] == frames;
  }

  lemma BodyFollows(h: Decoded, pc: int, n: int, depth: int, abs: AbsRegs, man: Manifest)
    requires InstrOk(h, pc, n, depth, abs, man) && h.op.LOOP?
    ensures h.imm > 0 && pc + 1 < n && depth < MAX_LOOP_NEST
  {
  }

  /** At every instruction the scan's frames are the loops around it. */
  lemma {:induction false} ScanDepth(
    code: Code, man: Manifest, lo: nat, hi: nat, v: Scan, frames: seq<LoopFrame>, q: nat)
    requires WellNested(code, lo, hi) && Item(code, lo, hi, q)
    requires Swept(code, 0, lo) && v.abs == AbsAt(code, man, lo)
    requires PopEnded(v.frames, lo) == frames && EndsBy(frames, hi)
    ensures Swept(code, lo, q)
    ensures |PopEnded(ScanTo(code, man, lo, v, q).frames, q)| == |frames| + |Enclosing(code, lo, hi, q)|
    decreases hi - lo, 1
  {
    hide At, InstrOk, AbsStep, Product, Fetchable, PopEnded, OnChain;
    ItemFits(code, lo, hi, q);
    if q >= After(code, lo) {
      DepthPast(code, man, lo, hi, v, frames, q);
    } else if q != lo {
      var h, next := At(code, lo), After(code, lo);
      var v' := Visit(h, lo, |code|, v, man);
      var f := LoopFrame(next, Iters(code, man, lo));
      SweptNext(code, 0, InitialAbs(man.arguments), lo);
      PopKeeps(frames, f, lo + 1);
      ScanDepth(code, man, lo + 1, next, v', frames + [f], q);
    }
  }

  lemma {:induction false} DepthPast(
    code: Code, man: Manifest, lo: nat, hi: nat, v: Scan, frames: seq<LoopFrame>, q: nat)
    requires WellNested(code, lo, hi) && lo < hi && After(code, lo) <= q && Item(code, After(code, lo), hi, q)
    requires Swept(code, 0, lo) && v.abs == AbsAt(code, man, lo)
    requires PopEnded(v.frames, lo) == frames && EndsBy(frames, hi)
    ensures Swept(code, lo, q)
    ensures |PopEnded(ScanTo(code, man, lo, v, q).frames, q)| == |frames| + |Enclosing(code, lo, hi, q)|
    decreases hi - lo, 0
  {
    hide At, Visit, Product, Fetchable, OnChain, ScanTo, AbsFrom, Swept, Item;
    var next := After(code, lo);
    ScanItem(code, man, lo, v, frames);
    var w := ScanTo(code, man, lo, v, next);
    SweptThrough(code, 0, lo, next);
    ScanToAbs(code, man, lo, v, next);
    AbsFromSplit(code, 0, InitialAbs(man.arguments), lo, next);
    PopTwice(frames, next);
    ItemFits(code, next, hi, q);
    ScanDepth(code, man, next, hi, w, frames, q);
    ScanToSplit(code, man, lo, v, next, q);
  }

  lemma AcceptedDepth(code: Code, man: Manifest, q: nat)
    requires Verify(code, man).ok && WellNested(code, 0, |code|) && Item(code, 0, |code|, q)
    requires q < |code| && At(code, q).op.LOOP?
    ensures |Enclosing(code, 0, |code|, q)| < MAX_LOOP_NEST
  {
    hide At, WellNested, Item, Enclosing, Verify, InstrOk, Visit;
    var v0 := InitialScan(code, man);
    ItemFits(code, 0, |code|, q);
    ScanDepth(code, man, 0, |code|, v0, [], q);
    AcceptedVisit(code, man, q);
    BodyFollows(At(code, q), q, |code|, |PopEnded(ScanTo(code, man, 0, v0, q).frames, q)|, AbsAt(code, man, q), man);
  }

  /**
   * The loop stack of an accepted well-nested program never holds more than eight frames, though the VM never checks.
   */
  lemma StackNeverExceedsLimit(code: Code, man: Manifest, args: seq<int>, mem: Mem, n: nat)
    requires Verify(code, man).ok && WellNested(code, 0, |code|) && code != []
    ensures var s := Run(code, Reset(args, mem), n);
            s.status == Running ==> |s.loops| <= MAX_LOOP_NEST
  {
    hide At, WellNested, Item, Enclosing, Run, Verify;
    var s := Run(code, Reset(args, mem), n);
    FramesAreEnclosingLoops(code, args, mem, n);
    if s.status == Running && s.loops != [] {
      var q := s.loops[|s.loops| - 1].startPc - 1;
      RunStaysInside(code, Reset(args, mem), n);
      InsideIsEnclosing(code, s.loops[..|s.loops| - 1], q);
      AcceptedDepth(code, man, q);
    }
  }
}
