/**
 * Forward jumps and finite loops always halt: a run of any program whose JUMPs and LOOPs go forward
 * ends within an explicit number of steps, nested well or not, whatever the arguments and memory.
 */
module Termination {
  import opened Prelude
  import opened Isa
  import opened Machine

  /** Every word that decodes as JUMP or LOOP has a positive immediate. */
  predicate ForwardOnly(code: Code) {
    forall pc :: 0 <= pc < |code| && (At(code, pc).op.JUMP? || At(code, pc).op.LOOP?) ==> At(code, pc).imm > 0
  }

  /** No two-word opcode starts in the last word, and there is a first word. */
  predicate NoTornTail(code: Code) {
    |code| > 0 && !TwoWord(At(code, |code| - 1).op)
  }

  /** Steps that suffice to run off `k` words when every word is a loop with the largest count. */
  function Budget(k: nat): nat {
    if k == 0 then 0 else 1 + 0x1_0000_0000_0000_0000 * Budget(k - 1)
  }

  lemma {:induction false} BudgetMonotone(j: nat, k: nat)
    requires j <= k
    ensures Budget(j) <= Budget(k)
  {
    if j < k {
      BudgetMonotone(j, k - 1);
    }
  }

  function BudgetFrom(code: Code, pc: int): nat {
    Budget(Max(0, |code| - Max(0, pc)))
  }

  /** What the open frames may still add: their body again for each further iteration. */
  function Debt(code: Code, loops: seq<Frame>): int {
    if loops == [] then 0
    else
      var top := loops[|loops| - 1];
      Debt(code, loops[..|loops| - 1]) + (top.remaining - 1) * BudgetFrom(code, top.startPc)
  }

  /**
   * Frames open at increasing places, none beyond the pc, each with an iteration left: what every
   * reachable state of a forward-only program satisfies.
   */
  predicate Ordered(loops: seq<Frame>, pc: int) {
    && (forall i :: 0 <= i < |loops| ==> 0 < loops[i].startPc <= pc && 1 <= loops[i].remaining <= loops[i].count)
    && (forall i, j :: 0 <= i < j < |loops| ==> loops[i].startPc < loops[j].startPc)
    && 0 <= pc
  }

  function Potential(code: Code, s: State): int {
    if s.status != Running then 0 else BudgetFrom(code, s.pc) + Debt(code, s.loops)
  }

  lemma {:induction false} DebtNonNegative(code: Code, loops: seq<Frame>)
    requires forall i :: 0 <= i < |loops| ==> 1 <= loops[i].remaining
    ensures Debt(code, loops) >= 0
  {
    if loops != [] {
      DebtNonNegative(code, loops[..|loops| - 1]);
    }
  }

  lemma {:induction false} ResolvePays(code: Code, loops: seq<Frame>, np: int)
    requires Ordered(loops, np)
    ensures var (loops', pc) := Resolve(loops, np);
            && BudgetFrom(code, pc) + Debt(code, loops') <= BudgetFrom(code, np) + Debt(code, loops)
            && Ordered(loops', pc)
  {
    hide BudgetFrom;
    if loops != [] {
      var below, top := loops[..|loops| - 1], loops[|loops| - 1];
      if np == top.endPc {
        if top.remaining > 1 {
          var again := below + [top.(remaining := top.remaining - 1)];
          assert again[..|again| - 1] == below;
          OneLess(top.remaining - 1, BudgetFrom(code, top.startPc));
        } else {
          ResolvePays(code, below, np);
        }
      }
    }
  }

  lemma OneLess(n: int, b: int)
    ensures (n - 1) * b + b == n * b
  {
  }

  /** Every step pays for itself and keeps the frames ordered. */
  lemma StepPays(code: Code, s: State)
    requires ForwardOnly(code) && Live(code, s) && Ordered(s.loops, s.pc)
    ensures var s' := Step(code, s);
            Potential(code, s') < Potential(code, s)
            && (s'.status == Running ==> Ordered(s'.loops, s'.pc) && s'.pc < |code|)
  {
    hide EffectAt, At;
    var h := At(code, s.pc);
    DebtNonNegative(code, s.loops);
    if !h.op.RET? && !h.op.ILLEGAL? {
      EnterPays(code, s);
      SettlePays(code, Enter(h, s.pc, s.d.regs, s.loops), Arrive(h, s.pc, s.d.regs), EffectAt(code, s.pc, s.d));
    } else {
      BudgetMonotone(1, |code| - s.pc);
    }
  }

  lemma EnterPays(code: Code, s: State)
    requires ForwardOnly(code) && Live(code, s) && Ordered(s.loops, s.pc)
    ensures var h := At(code, s.pc);
            var loops, np := Enter(h, s.pc, s.d.regs, s.loops), Arrive(h, s.pc, s.d.regs);
            && Ordered(loops, np)
            && BudgetFrom(code, np) + Debt(code, loops) < BudgetFrom(code, s.pc) + Debt(code, s.loops)
  {
    hide At, Budget, Debt;
    var h := At(code, s.pc);
    if h.op.LOOP? && s.d.regs[h.rs1] != 0 {
      PushPays(code, s.loops, s.pc, Frame(s.pc + 1, s.pc + 1 + h.imm, s.d.regs[h.rs1], s.d.regs[h.rs1]));
    } else {
      AdvancePays(|code| - s.pc, Max(0, |code| - Arrive(h, s.pc, s.d.regs)));
    }
  }

  lemma AdvancePays(k: nat, j: nat)
    requires j < k
    ensures Budget(j) < Budget(k)
  {
    BudgetMonotone(j, k - 1);
  }

  lemma PushPays(code: Code, loops: seq<Frame>, pc: int, f: Frame)
    requires Ordered(loops, pc) && pc < |code|
    requires f.startPc == pc + 1 && 0 < f.remaining == f.count
    ensures Ordered(loops + [f], pc + 1)
    ensures BudgetFrom(code, pc + 1) + Debt(code, loops + [f]) < BudgetFrom(code, pc) + Debt(code, loops)
  {
    var pushed := loops + [f];
    assert pushed[..|pushed| - 1] == loops;
    OpeningPays(Budget(|code| - pc - 1), f.count);
  }

  lemma SettlePays(code: Code, loops: seq<Frame>, np: int, d: Data)
    requires Ordered(loops, np)
    ensures var s := Settle(code, loops, np, d);
            && Potential(code, s) <= BudgetFrom(code, np) + Debt(code, loops)
            && Ordered(s.loops, s.pc)
  {
    ResolvePays(code, loops, np);
    DebtNonNegative(code, loops);
  }

  lemma OpeningPays(b: nat, count: u64)
    requires count > 0
    ensures b + (count - 1) * b < 1 + 0x1_0000_0000_0000_0000 * b
  {
    assert b + (count - 1) * b == count * b;
    assert (0x1_0000_0000_0000_0000 - count) * b >= 0;
  }

  lemma {:induction false} HaltsWithin(code: Code, s: State, n: nat)
    requires ForwardOnly(code) && Ordered(s.loops, s.pc) && Potential(code, s) <= n
    ensures !Live(code, Run(code, s, n))
    decreases n
  {
    hide Step, At;
    DebtNonNegative(code, s.loops);
    if Live(code, s) {
      BudgetMonotone(1, |code| - s.pc);
      StepPays(code, s);
      if Step(code, s).status == Running {
        HaltsWithin(code, Step(code, s), n - 1);
      }
    }
  }

  /** The main result: every run halts within `Budget(|code|)` steps, without the VM's own step limit. */
  lemma Terminates(code: Code, args: seq<int>, mem: Mem)
    requires ForwardOnly(code)
    ensures !Live(code, Run(code, Reset(args, mem), Budget(|code|)))
    ensures NoTornTail(code) ==> Run(code, Reset(args, mem), Budget(|code|)).status != Running
  {
    hide Step, At, Budget, Run;
    HaltsWithin(code, Reset(args, mem), Budget(|code|));
    if NoTornTail(code) {
      StaysOrdered(code, Reset(args, mem), Budget(|code|));
    }
  }

  /** Every reachable state has ordered frames, so the stack is never deeper than the pc. */
  lemma {:induction false} StaysOrdered(code: Code, s: State, n: nat)
    requires ForwardOnly(code) && Ordered(s.loops, s.pc) && s.pc < |code|
    ensures var t := Run(code, s, n);
            t.status == Running ==> Ordered(t.loops, t.pc) && t.pc < |code|
    decreases n
  {
    hide Step, At;
    if n > 0 && Live(code, s) {
      StepPays(code, s);
      if Step(code, s).status == Running {
        StaysOrdered(code, Step(code, s), n - 1);
      }
    }
  }

  /** The condition cannot be dropped: a JUMP to itself never halts. */
  lemma {:induction false} SelfJumpRunsForever(n: nat, s: State)
    requires var code := [Pack(0x10, 0, 1, 0, 0, 0)];
             s.status == Running && s.pc == 0 && s.loops == [] && s.d.regs[1] != 0
    ensures Live([Pack(0x10, 0, 1, 0, 0, 0)], Run([Pack(0x10, 0, 1, 0, 0, 0)], s, n))
    decreases n
  {
    var code := [Pack(0x10, 0, 1, 0, 0, 0)];
    FieldsOfPack(0x10, 0, 1, 0, 0, 0);
    assert At(code, 0) == Decoded(JUMP, 0, 1, 0, 0, 0);
    if n > 0 {
      assert Step(code, s) == State(EffectAt(code, 0, s.d), 0, [], Running);
      SelfJumpRunsForever(n - 1, Step(code, s));
    }
  }
}
