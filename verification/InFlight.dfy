/**
 * What the reported number of copies in flight means: on straight-line programs whose copies are all asynchronous it is
 * the largest value the machine's counter takes, in every run.
 */
module InFlight {
  import opened Prelude
  import opened Isa
  import opened Machine
  import opened Verifier
  import opened VerifierSound
  import opened VerifierExact
  import opened StepBound
  import opened Completion
  import opened Clock

  /** No control transfer but a final RET; copies asynchronous, thresholds not negative. */
  predicate Straightforward(code: Code) {
    forall q: nat :: q < |code| && Swept(code, 0, q) ==>
      var h := At(code, q);
      && Fetchable(code, q) && !h.op.JUMP? && !h.op.LOOP? && !h.op.ILLEGAL?
      && (h.op.MEMCPY? ==> h.sub % 2 == 1) && (h.op.WAIT? ==> h.imm >= 0)
      && (h.op.RET? <==> q + Width(h.op) == |code|)
  }

  lemma StraightforwardAt(code: Code, q: nat)
    requires Straightforward(code) && q < |code| && Swept(code, 0, q)
    ensures var h := At(code, q);
            && Fetchable(code, q) && !h.op.JUMP? && !h.op.LOOP? && !h.op.ILLEGAL?
            && (h.op.MEMCPY? ==> h.sub % 2 == 1) && (h.op.WAIT? ==> h.imm >= 0)
            && (h.op.RET? <==> q + Width(h.op) == |code|)
  {
    hide At;
  }

  /** The scan's counter at a swept place. */
  function CountAt(code: Code, man: Manifest, q: nat): int
    requires Swept(code, 0, q)
  {
    ScanTo(code, man, 0, InitialScan(code, man), q).inFlight
  }

  /** What one instruction makes of a count. */
  function Recount(h: Decoded, n: int): int {
    if h.op.WAIT? then Min(n, h.imm) else if h.op.MEMCPY? then Min(32, n + 1) else n
  }

  lemma {:induction false} ScanCounts(code: Code, man: Manifest, pc: nat, v: Scan, q: nat)
    requires Swept(code, pc, q) && q < |code|
    ensures var next := q + Width(At(code, q).op);
            && Swept(code, pc, next)
            && ScanTo(code, man, pc, v, next).inFlight == Recount(At(code, q), ScanTo(code, man, pc, v, q).inFlight)
            && ScanTo(code, man, pc, v, next).inFlightMax
            == (var w := ScanTo(code, man, pc, v, q);
                if At(code, q).op.MEMCPY? then Max(w.inFlightMax, Recount(At(code, q), w.inFlight)) else w.inFlightMax)
    decreases |code| - pc
  {
    hide At, InstrOk, AbsStep, PopEnded, Product, VisitFrames;
    if pc != q {
      SweptFits(code, pc + Width(At(code, pc).op), q);
      ScanCounts(code, man, pc + Width(At(code, pc).op), Visit(At(code, pc), pc, |code|, v, man), q);
    }
  }

  /** The machine counts as the scan does. */
  lemma PipeCounts(h: Decoded, xrd: reg, d: Data)
    requires PipeOk(d.pipe) && !h.op.RET? && (h.op.MEMCPY? ==> h.sub % 2 == 1) && (h.op.WAIT? ==> h.imm >= 0)
    ensures PipeEffect(h, xrd, d).inFlight == Recount(h, d.pipe.inFlight)
  {
    hide AccessCost, CopyCost, Sort, DrainTo, EffectiveAddr;
    if h.op.WAIT? { WaitIsExact(h.imm, d.pipe.(cycles := d.pipe.cycles + CTRL)); }
  }

  lemma StraightGoesOn(code: Code, s: State)
    requires Live(code, s) && s.loops == []
    requires var op := At(code, s.pc).op; !op.RET? && !op.ILLEGAL? && !op.JUMP? && !op.LOOP?
    ensures var t := Step(code, s);
            && t.pc == s.pc + Width(At(code, s.pc).op) && t.loops == [] && (t.status == Running <==> t.pc < |code|)
  {
    hide At, EffectAt;
  }

  lemma StepCounts(code: Code, s: State)
    requires Straightforward(code) && Live(code, s) && s.loops == [] && s.pc >= 0 && Swept(code, 0, s.pc)
    requires PipeOk(s.d.pipe) && !At(code, s.pc).op.RET?
    ensures var (h, t) := (At(code, s.pc), Step(code, s));
            && t.pc == s.pc + Width(h.op) && t.loops == [] && (t.status == Running <==> t.pc < |code|)
            && t.d.pipe.inFlight == Recount(h, s.d.pipe.inFlight)
  {
    hide At, Step, EffectAt, ExtraReg, PipeEffect, Recount, Straightforward, Swept, PipeOk;
    StraightforwardAt(code, s.pc);
    StepData(code, s);
    EffectPipe(code, s.pc, s.d);
    PipeCounts(At(code, s.pc), ExtraReg(code, s.pc), s.d);
    StraightGoesOn(code, s);
  }

  lemma {:induction false} RunCounts(code: Code, man: Manifest, args: seq<int>, mem: Mem, n: nat)
    requires Straightforward(code) && code != []
    ensures var s := Run(code, Reset(args, mem), n);
            s.status == Running ==>
              && s.loops == [] && 0 <= s.pc < |code| && Swept(code, 0, s.pc)
              && s.d.pipe.inFlight == CountAt(code, man, s.pc)
  {
    hide At, Step, Straightforward, ScanTo, Run;
    var s0 := Reset(args, mem);
    if n == 0 {
      assert Run(code, s0, 0) == s0 by { RunNothing(code, s0); }
      ScanNothing(code, man, InitialScan(code, man));
    } else {
      RunCounts(code, man, args, mem, n - 1);
      RunAdd(code, s0, n - 1, 1);
      var s := Run(code, s0, n - 1);
      if Live(code, s) {
        RunOnce(code, s);
        RunKeepsPipe(code, s0, n - 1);
        if At(code, s.pc).op.RET? {
          RetStep(code, s);
        } else {
          StepCounts(code, s);
          ScanCounts(code, man, 0, InitialScan(code, man), s.pc);
        }
      } else {
        DeadStays(code, s, 1);
      }
    }
  }

  lemma RunNothing(code: Code, s: State)
    ensures Run(code, s, 0) == s
  {
  }

  lemma RunOnce(code: Code, s: State)
    requires Live(code, s)
    ensures Run(code, s, 1) == Step(code, s)
  {
    RunStep(code, s, 0);
  }

  /** Every swept place is reached. */
  lemma {:induction false} PlaceReached(code: Code, args: seq<int>, mem: Mem, pc: nat, n: nat, q: nat) returns (m: nat)
    requires Straightforward(code) && q < |code| && Swept(code, 0, pc) && Swept(code, pc, q)
    requires var s := Run(code, Reset(args, mem), n); s.status == Running && s.pc == pc && s.loops == []
    ensures var s := Run(code, Reset(args, mem), m); s.status == Running && s.pc == q && s.loops == []
    decreases |code| - pc
  {
    hide At, Step, Straightforward, Run;
    var s0 := Reset(args, mem);
    var s := Run(code, s0, n);
    if pc == q {
      m := n;
    } else {
      SweptFits(code, pc + Width(At(code, pc).op), q);
      StraightforwardAt(code, pc);
      RunKeepsPipe(code, s0, n);
      StepCounts(code, s);
      RunAdd(code, s0, n, 1);
      RunOnce(code, s);
      SweptNext(code, 0, map[], pc);
      m := PlaceReached(code, args, mem, pc + Width(At(code, pc).op), n + 1, q);
    }
  }

  /** The largest count is that of some place before the end. */
  lemma {:induction false} LargestCounted(code: Code, man: Manifest, q: nat) returns (p: nat)
    requires Swept(code, 0, q)
    ensures p <= q && Swept(code, 0, p)
    ensures CountAt(code, man, p) == ScanTo(code, man, 0, InitialScan(code, man), q).inFlightMax
    decreases q
  {
    hide At, Visit;
    if q == 0 {
      ScanNothing(code, man, InitialScan(code, man));
      p := 0;
    } else {
      var r := PlaceBefore(code, 0, q);
      ScanCounts(code, man, 0, InitialScan(code, man), r);
      p := LargestCounted(code, man, r);
      var v := ScanTo(code, man, 0, InitialScan(code, man), r);
      if At(code, r).op.MEMCPY? && Recount(At(code, r), v.inFlight) > v.inFlightMax { p := q; }
    }
  }

  lemma {:induction false} PlaceBefore(code: Code, pc: nat, q: nat) returns (r: nat)
    requires Swept(code, pc, q) && pc < q
    ensures r < q && r < |code| && Swept(code, pc, r) && r + Width(At(code, r).op) == q
    decreases |code| - pc
  {
    hide At;
    var next := pc + Width(At(code, pc).op);
    if next == q {
      r := pc;
    } else {
      SweptFits(code, next, q);
      r := PlaceBefore(code, next, q);
    }
  }

  lemma {:induction false} CountsWithin(code: Code, man: Manifest, pc: nat, v: Scan, q: nat)
    requires Swept(code, pc, q) && v.inFlight <= v.inFlightMax
    ensures var w := ScanTo(code, man, pc, v, q); w.inFlight <= w.inFlightMax && v.inFlightMax <= w.inFlightMax
    decreases |code| - pc
  {
    hide At, InstrOk, AbsStep, PopEnded, Product, VisitFrames;
    if pc != q {
      CountsWithin(code, man, pc + Width(At(code, pc).op), Visit(At(code, pc), pc, |code|, v, man), q);
    }
  }

  /**
   * The reported maximum, exactly: in every run of an accepted straight-line program with asynchronous copies the
   * counter never exceeds it, and reaches it.
   */
  lemma InFlightExact(code: Code, man: Manifest, args: seq<int>, mem: Mem) returns (m: nat)
    requires Verify(code, man).ok && Straightforward(code)
    ensures var most := Verify(code, man).maxInflightAsync;
            && (forall n: nat :: Run(code, Reset(args, mem), n).status == Running ==>
                  Run(code, Reset(args, mem), n).d.pipe.inFlight <= most)
            && Run(code, Reset(args, mem), m).status == Running
            && Run(code, Reset(args, mem), m).d.pipe.inFlight == most
  {
    hide At, Straightforward, ScanTo, ScanFrom, Run, Reset, Visit;
    var (v0, most) := (InitialScan(code, man), Verify(code, man).maxInflightAsync);
    var end := WholeScan(code, man);
    forall n: nat | Run(code, Reset(args, mem), n).status == Running
      ensures Run(code, Reset(args, mem), n).d.pipe.inFlight <= most
    {
      RunCounts(code, man, args, mem, n);
      var pc := Run(code, Reset(args, mem), n).pc;
      CountsWithin(code, man, 0, v0, pc);
      SweptBetween(code, 0, pc, end);
      ScanSplits(code, man, pc, end);
    }
    var p := LargestCounted(code, man, end);
    if p == end {
      var r := PlaceBefore(code, 0, end);
      ScanCounts(code, man, 0, v0, r);
      StraightforwardAt(code, r);
      p := r;
    }
    assert Run(code, Reset(args, mem), 0) == Reset(args, mem) by { RunNothing(code, Reset(args, mem)); }
    ResetShape(args, mem);
    assert Swept(code, 0, 0) by { ScanNothing(code, man, v0); }
    m := PlaceReached(code, args, mem, 0, 0, p);
    RunCounts(code, man, args, mem, m);
  }

  lemma ScanSplits(code: Code, man: Manifest, q: nat, end: nat)
    requires Swept(code, 0, q) && Swept(code, q, end) && Swept(code, 0, end)
    ensures ScanTo(code, man, 0, InitialScan(code, man), q).inFlightMax
         <= ScanTo(code, man, 0, InitialScan(code, man), end).inFlightMax
  {
    hide At, Visit, ScanTo;
    CountsWithin(code, man, 0, InitialScan(code, man), q);
    ScanToSplit(code, man, 0, InitialScan(code, man), q, end);
    CountsWithin(code, man, q, ScanTo(code, man, 0, InitialScan(code, man), q), end);
  }

  /** An accepted scan goes to the end of the last instruction, which is the RET. */
  lemma WholeScan(code: Code, man: Manifest) returns (end: nat)
    requires Verify(code, man).ok && Straightforward(code)
    ensures end == |code| > 0 && Swept(code, 0, end)
    ensures Verify(code, man).maxInflightAsync == ScanTo(code, man, 0, InitialScan(code, man), end).inFlightMax
  {
    hide At, Visit, ScanTo, Straightforward;
    end := |code|;
    assert code != [] by { if code == [] { NothingAccepted(man); } }
    assert Swept(code, 0, 0) by { ScanNothing(code, man, InitialScan(code, man)); }
    SweepEnds(code, 0);
    AcceptedAt(code, man, 0, InitialScan(code, man), end);
    ScanOver(code, man, ScanTo(code, man, 0, InitialScan(code, man), end));
  }

  lemma NothingAccepted(man: Manifest)
    ensures !Verify([], man).ok
  {
  }

  lemma {:induction false} SweepEnds(code: Code, pc: nat)
    requires Straightforward(code) && Swept(code, 0, pc) && pc <= |code|
    ensures Swept(code, pc, |code|)
    decreases |code| - pc
  {
    hide At, Straightforward;
    if pc < |code| {
      StraightforwardAt(code, pc);
      SweptNext(code, 0, map[], pc);
      SweepEnds(code, pc + Width(At(code, pc).op));
    }
  }
}
