/**
 * Where WAIT does not wait: the counter of outstanding copies saturates at 32, so after more of them WAIT 0 lets some
 * run on.  The verifier accepts such programs; its own counter saturates alike.
 */
module CompletionLimits {
  import opened Prelude
  import opened Isa
  import opened Machine
  import opened Verifier
  import opened VerifierSound
  import opened SideConditions
  import opened Completion

  const COPY: u64 := Pack(0x83, 0, 0, 0, 1, 8)

  /** `n` times MEMCPY r0, r0, r0, LEN=8, ASYNC; then WAIT 0; RET r0. */
  function Burst(n: nat): Code { seq(2 * n + 2, j => BurstWord(n, j)) }

  function BurstWord(n: nat, j: int): u64 {
    if j == 2 * n then Pack(0x12, 0, 0, 0, 0, 0)
    else if j == 2 * n + 1 then Pack(0x13, 0, 0, 0, 0, 0)
    else if j % 2 == 0 then COPY else 0
  }

  lemma BurstDecodes(n: nat)
    ensures var code := Burst(n);
            && |code| == 2 * n + 2
            && (forall i {:trigger At(code, 2 * i)} :: 0 <= i < n ==> At(code, 2 * i) == Decoded(MEMCPY, 0, 0, 0, 1, 8))
            && At(code, 2 * n) == Decoded(WAIT, 0, 0, 0, 0, 0) && At(code, 2 * n + 1) == Decoded(RET, 0, 0, 0, 0, 0)
  {
    hide Pack, DecodeWord;
    DecodePacked(0x83, 0, 0, 0, 1, 8);
    DecodePacked(0x12, 0, 0, 0, 0, 0);
    DecodePacked(0x13, 0, 0, 0, 0, 0);
  }

  // ----- the verifier accepts it -----

  /** Two gigabytes from address zero, as many steps as the instruction store has words. */
  const ROOMY := Manifest(INSTR_STORE_DEPTH, OPEN.regions, [])

  /** The scan after `i` copies. */
  function Scanned(i: nat): Scan {
    Scan(true, i, [], InitialAbs([]), false, Min(MAX_INFLIGHT_PER_TASK, i), Min(MAX_INFLIGHT_PER_TASK, i), false)
  }

  lemma ZeroFitsOpen()
    ensures Get(InitialAbs([]), 0) == AbsVal(0, 0, None, false)
    ensures AddrOk(InitialAbs([]), 0, RegionSet(OPEN.regions))
  {
    hide AbsBase, RegionSet, AllTop;
    OpenRegion();
    assert Contains(RegionSet(OPEN.regions)[(0, 0)], 0, 0);
  }

  lemma CopyScanned(n: nat, i: nat)
    requires i < n <= 511
    ensures Visit(Decoded(MEMCPY, 0, 0, 0, 1, 8), 2 * i, 2 * n + 2, Scanned(i), ROOMY) == Scanned(i + 1)
  {
    hide AddrOk, RegionSet, InitialAbs;
    ZeroFitsOpen();
  }

  lemma {:induction false} BurstScans(n: nat, i: nat)
    requires i <= n <= 511
    ensures ScanFrom(Burst(n), 2 * i, Scanned(i), ROOMY) == ScanFrom(Burst(n), 2 * n, Scanned(n), ROOMY)
    decreases n - i
  {
    hide At, Visit, Burst, Scanned;
    if i < n {
      BurstDecodes(n);
      CopyScanned(n, i);
      assert !Scanned(i).stopped by { ScanGoesOn(i); }
      ScanNext(Burst(n), 2 * i, Scanned(i), ROOMY);
      BurstScans(n, i + 1);
    }
  }

  lemma ScanGoesOn(i: nat)
    ensures !Scanned(i).stopped
  {
  }

  lemma BurstAccepted(n: nat)
    requires n <= 511
    ensures Verify(Burst(n), ROOMY) == Report(true, n + 2, Min(MAX_INFLIGHT_PER_TASK, n))
  {
    hide At, Burst, InitialAbs, ScanFrom;
    var code := Burst(n);
    BurstDecodes(n);
    BurstScans(n, 0);
    assert InitialScan(code, ROOMY) == Scanned(0);
    var v1 := Visit(At(code, 2 * n), 2 * n, |code|, Scanned(n), ROOMY);
    var v2 := Visit(At(code, 2 * n + 1), 2 * n + 1, |code|, v1, ROOMY);
    ScanNext(code, 2 * n, Scanned(n), ROOMY);
    ScanNext(code, 2 * n + 1, v1, ROOMY);
    ScanEnds(code, v2, ROOMY);
  }

  // ----- its run -----

  /** Completion times of the first `i` copies: one every 8 cycles, each 151 after its issue. */
  function Finishes(i: nat): seq<int> { seq(i, j => 161 + 8 * j) }

  lemma {:induction false} SortSorted(q: seq<int>)
    requires Sorted(q)
    ensures Sort(q) == q
  {
    if q != [] {
      SortSorted(q[1..]);
      assert q == [q[0]] + q[1..];
    }
  }

  /** About to issue copy `i + 1`. */
  predicate AtCopy(s: State, i: nat) {
    && s.pc == 2 * i && s.loops == [] && s.status == Running && s.d.regs[0] == 0
    && s.d.pipe == Pipe(Min(MAX_INFLIGHT_PER_TASK, i), Finishes(i), 2 + 8 * i)
  }

  lemma CopyCosts()
    ensures CopyCost(0, 0, 8) == 151
  {
  }

  lemma CopyIssued(n: nat, i: nat, s: State)
    requires i < n && AtCopy(s, i)
    ensures Live(Burst(n), s) && AtCopy(Step(Burst(n), s), i + 1)
  {
    hide At, EffectAt, Burst, CopyCost, ExtraReg, Sort;
    var code := Burst(n);
    BurstDecodes(n);
    assert At(code, 2 * i) == Decoded(MEMCPY, 0, 0, 0, 1, 8);
    EffectPipe(code, s.pc, s.d);
    EffectWrites(code, s.pc, s.d);
    StraightStep(code, s);
    CopyCosts();
    assert Finishes(i) + [161 + 8 * i] == Finishes(i + 1);
    SortSorted(Finishes(i + 1));
  }

  lemma {:induction false} BurstRuns(n: nat, i: nat, s: State)
    requires i <= n && AtCopy(s, i)
    ensures AtCopy(Run(Burst(n), s, n - i), n)
    decreases n - i
  {
    hide At, Step, Burst, AtCopy;
    if i < n {
      CopyIssued(n, i, s);
      BurstRuns(n, i + 1, Step(Burst(n), s));
    }
  }

  /** The WAIT drains as many as the counter says. */
  lemma BurstWaits(n: nat, s: State)
    requires AtCopy(s, n)
    ensures Live(Burst(n), s)
    ensures Step(Burst(n), s).d.pipe == DrainTo(0, s.d.pipe.(cycles := 10 + 8 * n))
  {
    hide At, EffectAt, Burst, DrainTo, ExtraReg;
    BurstDecodes(n);
    EffectPipe(Burst(n), s.pc, s.d);
    StraightStep(Burst(n), s);
  }

  /**
   * After n copies WAIT 0 should leave none outstanding.  It leaves n - 32 whenever there are more than 32, the last
   * of them due only after the clock the WAIT ends at; every such program of up to 511 copies is accepted, with 32 as
   * its largest number in flight.
   */
  lemma SaturatedWait(n: nat, mem: Mem)
    requires n <= 511
    ensures Verify(Burst(n), ROOMY) == Report(true, n + 2, Min(MAX_INFLIGHT_PER_TASK, n))
    ensures var p := Run(Burst(n), Reset([], mem), n + 1).d.pipe;
            && |p.queue| == Max(0, n - MAX_INFLIGHT_PER_TASK)
            && (n > MAX_INFLIGHT_PER_TASK ==> p.queue[|p.queue| - 1] > p.cycles)
  {
    hide At, Step, Burst, AtCopy, DrainTo, Verify;
    BurstAccepted(n);
    var s0 := Reset([], mem);
    BurstStarts(mem);
    BurstRuns(n, 0, s0);
    var s := Run(Burst(n), s0, n);
    BurstWaits(n, s);
    RunAdd(Burst(n), s0, n, 1);
    RunStep(Burst(n), s, 0);
    assert s.d.pipe.queue == Finishes(n) && s.d.pipe.inFlight == Min(MAX_INFLIGHT_PER_TASK, n) by { AtCopyPipe(s, n); }
    WaitIsExact(0, s.d.pipe.(cycles := 10 + 8 * n));
  }

  lemma BurstStarts(mem: Mem)
    ensures AtCopy(Reset([], mem), 0)
  {
    assert Finishes(0) == [];
  }

  lemma AtCopyPipe(s: State, i: nat)
    requires AtCopy(s, i)
    ensures s.d.pipe == Pipe(Min(MAX_INFLIGHT_PER_TASK, i), Finishes(i), 2 + 8 * i)
  {
  }
}
