/** Asynchronous copies: the completion queue, WAIT and the barrier at RET. */
module Completion {
  import opened Prelude
  import opened Isa
  import opened Machine
  import opened Verifier
  import opened VerifierSound

  // ----- the queue stays sorted -----

  lemma {:induction false} InsertPermutes(q: seq<int>, c: int)
    ensures multiset(Insert(q, c)) == multiset(q) + multiset{c}
  {
    if q != [] && c > q[0] {
      InsertPermutes(q[1..], c);
      assert q == [q[0]] + q[1..];
    }
  }

  lemma {:induction false} InsertSorted(q: seq<int>, c: int)
    requires Sorted(q)
    ensures Sorted(Insert(q, c))
    ensures Insert(q, c)[0] == (if q == [] || c <= q[0] then c else q[0])
  {
    if q != [] && c > q[0] {
      var rest := q[1..];
      InsertSorted(rest, c);
      assert rest == [] || q[0] <= rest[0];
      assert q[0] <= Insert(rest, c)[0];
    } else if q != [] {
      assert forall i :: 0 <= i < |q| ==> q[0] <= q[i];
    }
  }

  /** `sort` is a sorting function. */
  lemma {:induction false} SortSorts(q: seq<int>)
    ensures Sorted(Sort(q)) && multiset(Sort(q)) == multiset(q) && |Sort(q)| == |q|
  {
    if q != [] {
      SortSorts(q[1..]);
      InsertSorted(Sort(q[1..]), q[0]);
      InsertPermutes(Sort(q[1..]), q[0]);
      assert q == [q[0]] + q[1..];
      assert |multiset(Sort(q))| == |Sort(q)| && |multiset(q)| == |q|;
    }
  }

  // ----- draining -----

  /** Retire the `k` earliest completions. */
  function RetireMany(p: Pipe, k: nat): Pipe
    requires k <= |p.queue|
    decreases k
  {
    if k == 0 then p else RetireMany(Retire(p), k - 1)
  }

  /** The latest of `now` and the first `k` completions of a sorted queue. */
  function Latest(now: int, q: seq<int>, k: nat): int
    requires k <= |q|
  {
    if k == 0 then now else Max(now, q[k - 1])
  }

  lemma {:induction false} RetireManyIs(p: Pipe, k: nat)
    requires k <= |p.queue| && Sorted(p.queue)
    ensures RetireMany(p, k) == Pipe(p.inFlight - k, p.queue[k..], Latest(p.cycles, p.queue, k))
    decreases k
  {
    if k > 0 {
      RetireManyIs(Retire(p), k - 1);
      assert p.queue[1..][k - 1..] == p.queue[k..];
      assert k > 1 ==> p.queue[1..][k - 2] == p.queue[k - 1] >= p.queue[0];
    }
  }

  lemma {:induction false} DrainAllIs(p: Pipe)
    ensures DrainAll(p) == RetireMany(p, |p.queue|)
    decreases |p.queue|
  {
    if p.queue != [] {
      DrainAllIs(Retire(p));
    }
  }

  /** WAIT retires as many as its counter is above the threshold, or all there are. */
  lemma {:induction false} DrainToIs(threshold: int, p: Pipe)
    ensures DrainTo(threshold, p) == RetireMany(p, Max(0, Min(p.inFlight - threshold, |p.queue|)))
    decreases |p.queue|
  {
    if p.inFlight > threshold && p.queue != [] {
      DrainToIs(threshold, Retire(p));
    }
  }

  /**
   * WAIT k drains as many copies as the counter is above k: those that stay are the latest finishers, and the clock
   * stands at the issue time or the last drained completion, whichever is later.  At most k stay outstanding exactly
   * when there were no more before or the counter told their number.
   */
  lemma WaitIsExact(k: nat, p: Pipe)
    requires Sorted(p.queue) && p.inFlight <= |p.queue|
    ensures var r := DrainTo(k, p);
            var drained := Max(0, p.inFlight - k);
            && r.inFlight == Min(k, p.inFlight)
            && r.queue == p.queue[drained..]
            && (forall i, j :: 0 <= i < drained <= j < |p.queue| ==> p.queue[i] <= p.queue[j])
            && r.cycles == (if drained == 0 then p.cycles else Max(p.cycles, p.queue[drained - 1]))
            && (|r.queue| <= k <==> |p.queue| <= k || p.inFlight == |p.queue|)
  {
    DrainToIs(k, p);
    RetireManyIs(p, Max(0, Min(p.inFlight - k, |p.queue|)));
  }

  // ----- the counter over whole runs -----

  /** Holds in every reachable state, past the cap too. */
  predicate PipeOk(p: Pipe) {
    Sorted(p.queue) && p.inFlight <= |p.queue| && p.inFlight <= MAX_INFLIGHT_PER_TASK
  }

  /** The counter tells the truth. */
  predicate Exact(p: Pipe) { p.inFlight == |p.queue| }

  lemma IssueKeepsOk(p: Pipe, cost: int)
    requires PipeOk(p)
    ensures PipeOk(Issue(p, cost))
    ensures Exact(p) && |Issue(p, cost).queue| <= MAX_INFLIGHT_PER_TASK ==> Exact(Issue(p, cost))
  {
    SortSorts(p.queue + [p.cycles + CTRL + cost]);
  }

  lemma WaitKeepsOk(threshold: int, p: Pipe)
    requires PipeOk(p)
    ensures PipeOk(DrainTo(threshold, p)) && (Exact(p) ==> Exact(DrainTo(threshold, p)))
    ensures p.cycles <= DrainTo(threshold, p).cycles
  {
    var k := Max(0, Min(p.inFlight - threshold, |p.queue|));
    DrainToIs(threshold, p);
    RetireManyIs(p, k);
  }

  lemma RetKeepsOk(p: Pipe)
    requires PipeOk(p)
    ensures PipeOk(DrainAll(p)) && DrainAll(p).queue == [] && p.cycles <= DrainAll(p).cycles
    ensures forall c :: c in p.queue ==> c <= DrainAll(p).cycles
    ensures DrainAll(p).inFlight == p.inFlight - |p.queue|
  {
    DrainAllIs(p);
    RetireManyIs(p, |p.queue|);
  }

  /** What an instruction does to the pipe. */
  function PipeEffect(h: Decoded, xrd: reg, d: Data): Pipe {
    var p := d.pipe;
    match h.op
    case LOAD | STORE => p.(cycles := p.cycles + AccessCost(EffectiveAddr(d.regs[h.rs1], h.imm)))
    case CAS | CAA => p.(cycles := p.cycles + AccessCost(d.regs[h.rs1]))
    case WAIT => DrainTo(h.imm, p.(cycles := p.cycles + CTRL))
    case RET => DrainAll(p.(cycles := p.cycles + CTRL))
    case MEMCPY =>
      if IsAsync(h.sub) then Issue(p, CopyCostOf(h, xrd, d)) else p.(cycles := p.cycles + CopyCostOf(h, xrd, d))
    case ILLEGAL(_) => p
    case _ => p.(cycles := p.cycles + CTRL)
  }

  function CopyCostOf(h: Decoded, xrd: reg, d: Data): int {
    CopyCost(d.regs[h.rs1], d.regs[h.rs2], CopyLength(h, xrd, d.regs))
  }

  lemma EffectPipe(code: Code, pc: int, d: Data)
    requires Fetchable(code, pc)
    ensures EffectAt(code, pc, d).pipe == PipeEffect(At(code, pc), ExtraReg(code, pc), d)
  {
    hide At, Alu, Memcpy, DrainAll, DrainTo, Issue, CopyCost, AccessCost, Load, EffectiveAddr, CopyLength, ExtraReg;
    WorkPipe(At(code, pc), ExtraReg(code, pc), d);
  }

  lemma WorkPipe(h: Decoded, xrd: reg, d: Data)
    ensures Work(h, xrd, d).pipe == PipeEffect(h, xrd, d)
  {
    hide Alu, Memcpy, DrainAll, DrainTo, Issue, CopyCost, AccessCost, Load, EffectiveAddr, CopyLength, SetReg, Mask64;
    match h.op
    case CAS =>
    case MEMCPY =>
    case _ =>
  }

  /** A blocking copy whose cost is negative: the one way the clock can run backwards. */
  predicate RunsBackwards(h: Decoded, xrd: reg, d: Data) {
    h.op.MEMCPY? && !IsAsync(h.sub) && CopyCostOf(h, xrd, d) < 0
  }

  /** A step keeps the queue sorted and the counter at most its length; it lowers the clock just for such a copy. */
  lemma StepKeepsPipe(code: Code, s: State)
    requires Live(code, s) && PipeOk(s.d.pipe)
    ensures var p := Step(code, s).d.pipe;
            && PipeOk(p)
            && (Exact(s.d.pipe) && |p.queue| <= MAX_INFLIGHT_PER_TASK ==> Exact(p))
            && (p.cycles < s.d.pipe.cycles <==> RunsBackwards(At(code, s.pc), ExtraReg(code, s.pc), s.d))
  {
    hide At, EffectAt, ExtraReg, Resolve, CopyCostOf, Sorted;
    var h, xrd := At(code, s.pc), ExtraReg(code, s.pc);
    EffectPipe(code, s.pc, s.d);
    var p := s.d.pipe;
    var later := p.(cycles := p.cycles + CTRL);
    WaitKeepsOk(h.imm, later);
    RetKeepsOk(later);
    IssueKeepsOk(p, CopyCostOf(h, xrd, s.d));
  }

  lemma {:induction false} RunKeepsPipe(code: Code, s: State, n: nat)
    requires PipeOk(s.d.pipe)
    ensures PipeOk(Run(code, s, n).d.pipe)
    ensures Exact(s.d.pipe) && (forall k :: 0 <= k <= n ==> |Run(code, s, k).d.pipe.queue| <= MAX_INFLIGHT_PER_TASK)
            ==> Exact(Run(code, s, n).d.pipe)
    decreases n
  {
    hide At, Step, Sorted;
    if n > 0 && Live(code, s) {
      var s' := Step(code, s);
      StepKeepsPipe(code, s);
      RunKeepsPipe(code, s', n - 1);
      assert forall k :: 0 <= k <= n - 1 ==> Run(code, s', k) == Run(code, s, k + 1);
      assert Run(code, s, 1) == Run(code, s', 0);
    }
  }

  /** The queue and its counter in every state of every run, up to and past the cap. */
  lemma CounterOverRuns(code: Code, args: seq<int>, mem: Mem, n: nat)
    ensures var p := Run(code, Reset(args, mem), n).d.pipe; Sorted(p.queue) && p.inFlight <= |p.queue|
    ensures (forall k :: 0 <= k <= n ==> |Run(code, Reset(args, mem), k).d.pipe.queue| <= MAX_INFLIGHT_PER_TASK)
            ==> var p := Run(code, Reset(args, mem), n).d.pipe; p.inFlight == |p.queue|
  {
    RunKeepsPipe(code, Reset(args, mem), n);
  }

  // ----- the barrier -----

  /** Completion times of the asynchronous copies issued in the first `n` steps. */
  function Issued(code: Code, s: State, n: nat): set<int>
    decreases n
  {
    if n == 0 || !Live(code, s) then {}
    else
      var h := At(code, s.pc);
      var own := if h.op.MEMCPY? && IsAsync(h.sub)
                 then {s.d.pipe.cycles + CTRL + CopyCostOf(h, ExtraReg(code, s.pc), s.d)} else {};
      own + Issued(code, Step(code, s), n - 1)
  }

  predicate StepsBack(code: Code, s: State)
    requires Live(code, s)
  {
    RunsBackwards(At(code, s.pc), ExtraReg(code, s.pc), s.d)
  }

  /** None of the first `n` steps is a blocking copy of negative cost. */
  ghost predicate NeverBack(code: Code, s: State, n: nat) {
    forall k: nat :: k < n && Live(code, Run(code, s, k)) ==> !StepsBack(code, Run(code, s, k))
  }

  lemma NeverBackNext(code: Code, s: State, n: nat)
    requires n > 0 && NeverBack(code, s, n) && Live(code, s)
    ensures !StepsBack(code, s) && NeverBack(code, Step(code, s), n - 1)
  {
    hide At, Step, StepsBack;
    assert Run(code, s, 0) == s;
    forall k: nat | k < n - 1 && Live(code, Run(code, Step(code, s), k))
      ensures !StepsBack(code, Run(code, Step(code, s), k))
    {
      assert Run(code, Step(code, s), k) == Run(code, s, k + 1);
    }
  }

  /** `c` is still queued or already past. */
  predicate Settled(p: Pipe, c: int) { c in p.queue || c <= p.cycles }

  lemma StepSettles(code: Code, s: State, c: int)
    requires Live(code, s) && PipeOk(s.d.pipe) && !StepsBack(code, s)
    requires var h := At(code, s.pc);
             Settled(s.d.pipe, c) || (h.op.MEMCPY? && IsAsync(h.sub)
               && c == s.d.pipe.cycles + CTRL + CopyCostOf(h, ExtraReg(code, s.pc), s.d))
    ensures Settled(Step(code, s).d.pipe, c)
    ensures Step(code, s).status == Returned ==> c <= Step(code, s).d.pipe.cycles
  {
    hide At, EffectAt, ExtraReg, Resolve, CopyCostOf, Sorted;
    var h, xrd := At(code, s.pc), ExtraReg(code, s.pc);
    EffectPipe(code, s.pc, s.d);
    StepKeepsPipe(code, s);
    var p := s.d.pipe;
    var later := p.(cycles := p.cycles + CTRL);
    WaitSettles(h.imm, later, c);
    RetKeepsOk(later);
    IssueSettles(p, CopyCostOf(h, xrd, s.d), c);
  }

  lemma WaitSettles(threshold: int, p: Pipe, c: int)
    requires PipeOk(p)
    ensures Settled(p, c) ==> Settled(DrainTo(threshold, p), c)
  {
    hide DrainTo, RetireMany, Mask64, Latest;
    var k := Max(0, Min(p.inFlight - threshold, |p.queue|));
    DrainToIs(threshold, p);
    RetireManyIs(p, k);
    LatestCovers(p, k);
    if c in p.queue {
      var i :| 0 <= i < |p.queue| && p.queue[i] == c;
      if i >= k { assert p.queue[k..][i - k] == c; }
    }
  }

  lemma LatestCovers(p: Pipe, k: nat)
    requires Sorted(p.queue) && k <= |p.queue|
    ensures p.cycles <= Latest(p.cycles, p.queue, k)
    ensures forall i :: 0 <= i < k ==> p.queue[i] <= Latest(p.cycles, p.queue, k)
  {
  }

  lemma IssueSettles(p: Pipe, cost: int, c: int)
    ensures Settled(p, c) || c == p.cycles + CTRL + cost ==> Settled(Issue(p, cost), c)
  {
    var added := p.queue + [p.cycles + CTRL + cost];
    SortSorts(added);
    if c in added {
      assert c in multiset(Sort(added));
    }
  }

  lemma {:induction false} IssuedSettle(code: Code, s: State, n: nat, c: int)
    requires NeverBack(code, s, n) && PipeOk(s.d.pipe) && s.status == Running
    requires c in Issued(code, s, n) || Settled(s.d.pipe, c)
    ensures var t := Run(code, s, n); Settled(t.d.pipe, c) && (t.status == Returned ==> c <= t.d.pipe.cycles)
    decreases n
  {
    hide At, Step, PipeOk, NeverBack, StepsBack, ExtraReg, CopyCostOf;
    if n > 0 && Live(code, s) {
      var s' := Step(code, s);
      StepKeepsPipe(code, s);
      NeverBackNext(code, s, n);
      if c !in Issued(code, s', n - 1) {
        StepSettles(code, s, c);
      }
      if s'.status == Running {
        IssuedSettle(code, s', n - 1, c);
      } else if c in Issued(code, s', n - 1) {
        assert false;
      }
    }
  }

  /**
   * The main result: when a run without a blocking copy of negative cost returns, the clock has passed the completion
   * of every copy it ever issued.
   */
  lemma CompletionBarrier(code: Code, args: seq<int>, mem: Mem, n: nat)
    requires NeverBack(code, Reset(args, mem), n) && Run(code, Reset(args, mem), n).status == Returned
    ensures forall c :: c in Issued(code, Reset(args, mem), n) ==> c <= Run(code, Reset(args, mem), n).d.pipe.cycles
  {
    hide NeverBack, Run, Issued;
    forall c | c in Issued(code, Reset(args, mem), n) ensures c <= Run(code, Reset(args, mem), n).d.pipe.cycles {
      IssuedSettle(code, Reset(args, mem), n, c);
    }
  }

  // ----- which programs have no such copy -----

  /** A blocking MEMCPY at `pc` has no immediate length so negative that it would take negative time. */
  predicate ClockSafeAt(code: Code, pc: int)
    requires 0 <= pc < |code|
  {
    var h := At(code, pc);
    h.op.MEMCPY? && !IsAsync(h.sub) && !LenFromReg(h.sub) ==> DMA + CeilDiv(2 * h.imm, 121) >= 0
  }

  predicate ClockSafe(code: Code) {
    forall pc :: 0 <= pc < |code| && Fetchable(code, pc) ==> ClockSafeAt(code, pc)
  }

  lemma ClockSafeStep(code: Code, s: State)
    requires Live(code, s) && ClockSafeAt(code, s.pc)
    ensures !StepsBack(code, s)
  {
    hide At, ExtraReg;
  }

  /** All registers zero, the queue empty, about to run the instruction at `pc`. */
  function ZeroState(pc: int): State {
    State(Data(seq(16, _ => 0), map[], false, false, Pipe(0, [], 0), 0, []), pc, [], Running)
  }

  lemma UnsafeSteps(code: Code, pc: int)
    requires Fetchable(code, pc) && !ClockSafeAt(code, pc)
    ensures Live(code, ZeroState(pc)) && PipeOk(ZeroState(pc).d.pipe) && StepsBack(code, ZeroState(pc))
  {
    hide At, ExtraReg;
    assert Device(0) == 0;
  }

  /** The condition is exact: a program is clock-safe precisely when no step from any state of it lowers the clock. */
  lemma ClockSafeExactly(code: Code)
    ensures ClockSafe(code) <==>
              forall s: State :: Live(code, s) && PipeOk(s.d.pipe) ==> Step(code, s).d.pipe.cycles >= s.d.pipe.cycles
  {
    hide At, ExtraReg, Step, ClockSafeAt, PipeOk, RunsBackwards;
    if ClockSafe(code) {
      forall s: State | Live(code, s) && PipeOk(s.d.pipe) ensures Step(code, s).d.pipe.cycles >= s.d.pipe.cycles {
        ClockSafeStep(code, s);
        StepKeepsPipe(code, s);
      }
    } else {
      var pc :| 0 <= pc < |code| && Fetchable(code, pc) && !ClockSafeAt(code, pc);
      UnsafeSteps(code, pc);
      StepKeepsPipe(code, ZeroState(pc));
    }
  }

  /** No run of a clock-safe program goes back. */
  lemma ClockSafeNeverBack(code: Code, s: State, n: nat)
    requires ClockSafe(code)
    ensures NeverBack(code, s, n)
  {
    hide At, Run, StepsBack, ClockSafeAt;
    forall k: nat | k < n && Live(code, Run(code, s, k)) ensures !StepsBack(code, Run(code, s, k)) {
      ClockSafeStep(code, Run(code, s, k));
    }
  }

  /** So its runs return only after every copy they issued has completed. */
  lemma ClockSafeBarrier(code: Code, args: seq<int>, mem: Mem, n: nat)
    requires ClockSafe(code) && Run(code, Reset(args, mem), n).status == Returned
    ensures forall c :: c in Issued(code, Reset(args, mem), n) ==> c <= Run(code, Reset(args, mem), n).d.pipe.cycles
  {
    hide ClockSafe, Run, Issued, NeverBack;
    ClockSafeNeverBack(code, Reset(args, mem), n);
    CompletionBarrier(code, args, mem, n);
  }

  /** The annotation that claims nothing; every program flows along it. */
  function Anything(): Annotation { _ => map[] }

  lemma AnythingInductive(code: Code)
    ensures Inductive(code, Anything())
  {
    hide At, TrueStep, ComputeWrapsTogether;
  }

  /** Where the verifier looks, an immediate length is not negative. */
  lemma AcceptedClockSafe(code: Code, man: Manifest, pc: nat)
    requires Verify(code, man).ok && pc < |code| && Swept(code, 0, pc)
    ensures ClockSafeAt(code, pc)
  {
    hide At, Verify, ScanTo, Visit, ScanFrom, AddrOk, RegionSet;
    AcceptedVisit(code, man, pc);
  }

  /** An accepted program whose jumps and loop ends land where the verifier looked never goes back. */
  lemma AcceptedNeverBack(code: Code, man: Manifest, args: seq<int>, mem: Mem, n: nat)
    requires Verify(code, man).ok && Lands(code)
    ensures NeverBack(code, Reset(args, mem), n)
  {
    hide At, Verify, Run, StepsBack, ClockSafeAt, Inductive, Lands;
    var s0 := Reset(args, mem);
    forall k: nat | k < n && Live(code, Run(code, s0, k)) ensures !StepsBack(code, Run(code, s0, k)) {
      AnythingInductive(code);
      RunCovered(code, Anything(), s0, k);
      AcceptedClockSafe(code, man, Run(code, s0, k).pc);
      ClockSafeStep(code, Run(code, s0, k));
    }
  }

  /** So its runs keep the barrier too. */
  lemma AcceptedBarrier(code: Code, man: Manifest, args: seq<int>, mem: Mem, n: nat)
    requires Verify(code, man).ok && Lands(code) && Run(code, Reset(args, mem), n).status == Returned
    ensures forall c :: c in Issued(code, Reset(args, mem), n) ==> c <= Run(code, Reset(args, mem), n).d.pipe.cycles
  {
    hide Verify, Lands, Run, Issued, NeverBack;
    AcceptedNeverBack(code, man, args, mem, n);
    CompletionBarrier(code, args, mem, n);
  }

  // ----- the condition is needed -----

  /** Async copy, WAIT 0, a blocking copy of -100000 bytes, RET. */
  const BACKWARDS: Code := [
    Pack(0x83, 0, 0, 0, 1, 8), 0, Pack(0x12, 0, 0, 0, 0, 0),
    Pack(0x83, 0, 0, 0, 0, 0x100_0000_0000 - 100000), 0, Pack(0x13, 0, 0, 0, 0, 0)]

  lemma BackwardsDecodes()
    ensures At(BACKWARDS, 0) == Decoded(MEMCPY, 0, 0, 0, 1, 8) && At(BACKWARDS, 2) == Decoded(WAIT, 0, 0, 0, 0, 0)
    ensures At(BACKWARDS, 3) == Decoded(MEMCPY, 0, 0, 0, 0, -100000) && At(BACKWARDS, 5) == Decoded(RET, 0, 0, 0, 0, 0)
  {
    hide DecodeWord, Pack;
    assert SignExtend40(0x100_0000_0000 - 100000) == -100000 && SignExtend40(8) == 8;
    DecodePacked(0x83, 0, 0, 0, 1, 8);
    DecodePacked(0x12, 0, 0, 0, 0, 0);
    DecodePacked(0x83, 0, 0, 0, 0, 0x100_0000_0000 - 100000);
    DecodePacked(0x13, 0, 0, 0, 0, 0);
  }

  /** Without the condition the barrier fails: this run returns long before its first copy completes. */
  lemma BarrierFailsBackwards(mem: Mem)
    ensures var s := Run(BACKWARDS, Reset([], mem), 4);
            s.status == Returned && exists c :: c in Issued(BACKWARDS, Reset([], mem), 4) && c > s.d.pipe.cycles
  {
    hide At, EffectAt, ExtraReg, Issue, Step, Run;
    BackwardsDecodes();
    var s0 := Reset([], mem);
    EffectPipe(BACKWARDS, 0, s0.d);
    StraightStep(BACKWARDS, s0);
    var s1 := Step(BACKWARDS, s0);
    var cost := CopyCostOf(At(BACKWARDS, 0), ExtraReg(BACKWARDS, 0), s0.d);
    var c := 10 + cost;
    IssueFirst(s0.d.pipe, cost);
    assert cost <= 501;
    assert s1.pc == 2 && s1.d.pipe == Pipe(1, [c], 10);
    EffectPipe(BACKWARDS, 2, s1.d);
    StraightStep(BACKWARDS, s1);
    var s2 := Step(BACKWARDS, s1);
    DrainOne(Pipe(1, [c], 18));
    assert s2.pc == 3 && s2.d.pipe.cycles <= 511;
    BackwardsTail(s2);
    RunStep(BACKWARDS, s0, 3);
    RunStep(BACKWARDS, s1, 2);
    assert c in Issued(BACKWARDS, s0, 4);
  }

  lemma BackwardsTail(s: State)
    requires s.pc == 3 && s.loops == [] && s.status == Running
    requires s.d.pipe.queue == [] && s.d.pipe.cycles <= 511
    ensures Run(BACKWARDS, s, 2).status == Returned && Run(BACKWARDS, s, 2).d.pipe.cycles < 0
  {
    hide At, EffectAt, ExtraReg, Issue, Step, Run;
    BackwardsDecodes();
    EffectPipe(BACKWARDS, 3, s.d);
    StraightStep(BACKWARDS, s);
    var t := Step(BACKWARDS, s);
    EffectPipe(BACKWARDS, 5, t.d);
    RetStep(BACKWARDS, t);
    RunStep(BACKWARDS, s, 1);
    RunStep(BACKWARDS, t, 0);
  }

  lemma RunStep(code: Code, s: State, n: nat)
    requires Live(code, s)
    ensures Run(code, s, n + 1) == Run(code, Step(code, s), n)
    ensures n == 0 ==> Run(code, s, n + 1) == Step(code, s)
  {
    hide At, Step;
  }

  lemma StraightStep(code: Code, s: State)
    requires Live(code, s) && s.loops == [] && s.pc + Width(At(code, s.pc).op) < |code|
    requires var op := At(code, s.pc).op; op.MEMCPY? || op.WAIT?
    ensures Step(code, s) == State(EffectAt(code, s.pc, s.d), s.pc + Width(At(code, s.pc).op), [], Running)
  {
    hide At, EffectAt;
  }

  lemma RetStep(code: Code, s: State)
    requires Live(code, s) && At(code, s.pc).op.RET?
    ensures Step(code, s) == s.(d := EffectAt(code, s.pc, s.d), status := Returned)
  {
    hide At, EffectAt;
  }

  lemma IssueFirst(p: Pipe, cost: int)
    requires p.queue == [] && p.inFlight == 0
    ensures Issue(p, cost) == Pipe(1, [p.cycles + CTRL + cost], p.cycles + CTRL)
  {
    var q := [p.cycles + CTRL + cost];
    assert p.queue + q == q && Sort(q[1..]) == [];
  }

  lemma DrainOne(p: Pipe)
    requires p.inFlight == |p.queue| == 1
    ensures DrainTo(0, p) == Pipe(0, [], Max(p.cycles, p.queue[0]))
  {
  }
}
