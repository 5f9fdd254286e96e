/**
 * Which functions the compiler accepts: at most eight parameters, names bound where they are used, supported
 * operators, and a need of at most seven registers, all read off the source.
 */
module CompilerAccepts {
  import opened Prelude
  import opened Isa
  import opened Ast
  import opened CodeTree
  import opened Lowering
  import opened ExprCorrect
  import opened StmtRules
  import opened CompilerCorrect
  import opened RegisterNeed

  // ----- statements -----

  /** The value stored by an assignment. */
  function Stored(op: AssignOp, lhs: Expr, rhs: Expr): Expr { if op.Set? then rhs else Bin(FoldedOp(op), lhs, rhs) }

  /** The names bound after a statement: a declaration binds one, a loop ends its own. */
  function BoundAfter(names: Names, s: Stmt): Names
    decreases s, 1
  {
    match s
    case Decl(name, _, _) => names[name := false]
    case For(ind, _, body) => BoundAfterAll(names[ind := false], body) - {ind}
    case If(_, body) => BoundAfterAll(names, body)
    case _ => names
  }

  function BoundAfterAll(names: Names, ss: seq<Stmt>): Names
    decreases ss, 0
  {
    if ss == [] then names else BoundAfterAll(BoundAfter(names, ss[0]), ss[1..])
  }

  predicate StmtSupported(names: Names, s: Stmt)
    decreases s, 1
  {
    match s
    case Decl(name, _, init) => init.Some? ==> Supported(names[name := false], init.value)
    case Assign(op, lhs, rhs) =>
      && Supported(names, Stored(op, lhs, rhs))
      && ((lhs.Id? && lhs.name in names) || (lhs.Index? && Supported(names, lhs)))
    case For(ind, bound, body) => Supported(names[ind := false], bound) && BlockSupported(names[ind := false], body)
    case If(cond, body) => Supported(names, cond) && BlockSupported(names, body)
    case Return(value) => value.Some? ==> Supported(names, value.value)
    case ExprCall(call) => call.Call? && Supported(names, call)
    case IncDec(target, _) => target in names
  }

  predicate BlockSupported(names: Names, ss: seq<Stmt>)
    decreases ss, 0
  {
    ss == [] || (StmtSupported(names, ss[0]) && BlockSupported(BoundAfter(names, ss[0]), ss[1..]))
  }

  /** Whether the block of an `if` is emitted without a test. */
  predicate Untested(cond: Expr) { cond.Const? && cond.v != 0 }

  /** Registers a target takes: none for a name or a constant index, otherwise what its index does and the sum. */
  function TargetLost(lhs: Expr): nat {
    if lhs.Index? && !Constant(lhs.index) then Lost(lhs.index) + 1 else 0
  }

  function TargetNeed(lhs: Expr): nat {
    if lhs.Index? && !Constant(lhs.index) then Max(Need(lhs.index), Left(lhs.index) + 2) else 0
  }

  function CondLost(e: Expr): nat {
    if e.Bin? && e.op.Equal? then Lost(e.l) + Lost(e.r) else Lost(e)
  }

  /** A comparison for equality is negated with a register more. */
  function CondNeed(e: Expr): nat {
    if e.Bin? && e.op.Equal?
    then Max(Max(Need(e.l), Left(e.l) + Need(e.r)), Left(e.l) + Left(e.r) + 2)
    else OneNeed(e, Need(e))
  }

  /** Registers in use for good after a statement: variables declared, and those lost. */
  function StmtLost(s: Stmt): nat
    decreases s, 1
  {
    match s
    case Decl(_, _, init) => 1 + if init.Some? then Lost(init.value) else 0
    case Assign(op, lhs, rhs) => TargetLost(lhs) + Lost(Stored(op, lhs, rhs))
    case For(_, bound, body) => Lost(bound) + BlockLost(body)
    case If(cond, body) => (if Untested(cond) then 0 else CondLost(cond)) + BlockLost(body)
    case Return(value) => if value.Some? then Lost(value.value) else 0
    case ExprCall(call) => Left(call)
    case IncDec(_, _) => 0
  }

  function BlockLost(ss: seq<Stmt>): nat
    decreases ss, 0
  {
    if ss == [] then 0 else StmtLost(ss[0]) + BlockLost(ss[1..])
  }

  /** Registers in use at once, at most. */
  function StmtNeed(s: Stmt): nat
    decreases s, 1
  {
    match s
    case Decl(_, _, init) => 1 + if init.Some? then Need(init.value) else 0
    case Assign(op, lhs, rhs) => Max(TargetNeed(lhs), TargetLost(lhs) + Need(Stored(op, lhs, rhs)))
    case For(_, bound, body) => 1 + Max(Need(bound), Left(bound) + BlockNeed(body))
    case If(cond, body) =>
      if Untested(cond) then BlockNeed(body) else Max(CondNeed(cond), CondLost(cond) + BlockNeed(body))
    case Return(value) => if value.Some? then Need(value.value) else 0
    case ExprCall(call) => Need(call)
    case IncDec(_, _) => 0
  }

  function BlockNeed(ss: seq<Stmt>): nat
    decreases ss, 0
  {
    if ss == [] then 0 else Max(StmtNeed(ss[0]), StmtLost(ss[0]) + BlockNeed(ss[1..]))
  }

  // ----- names bound again -----

  /** The names a statement binds, at any depth. */
  function Binds(s: Stmt): set<string>
    decreases s, 1
  {
    match s
    case Decl(name, _, _) => {name}
    case For(ind, _, body) => {ind} + BindsAll(body)
    case If(_, body) => BindsAll(body)
    case _ => {}
  }

  function BindsAll(ss: seq<Stmt>): set<string>
    decreases ss, 0
  {
    if ss == [] then {} else Binds(ss[0]) + BindsAll(ss[1..])
  }

  /** No loop counts to a variable whose name its body binds again. */
  predicate BoundsStay(s: Stmt)
    decreases s, 1
  {
    match s
    case For(ind, bound, body) =>
      && (NameRead(bound).Some? && NameRead(bound).value != ind ==> NameRead(bound).value !in BindsAll(body))
      && AllBoundsStay(body)
    case If(_, body) => AllBoundsStay(body)
    case _ => true
  }

  predicate AllBoundsStay(ss: seq<Stmt>)
    decreases ss, 0
  {
    ss == [] || (BoundsStay(ss[0]) && AllBoundsStay(ss[1..]))
  }

  // ----- what lowering a statement does to the allocator -----

  /** Symbols in registers of `a` are those of `a`; a name not bound again keeps its symbol; nothing is freed. */
  ghost predicate Moves(a: Alloc, b: Alloc, binds: set<string>) {
    && AllocOk(b) && a.used <= b.used
    && (forall n :: n in b.syms && (b.syms[n].reg < 9 || b.syms[n].reg in a.used) ==>
          n in a.syms && a.syms[n].reg == b.syms[n].reg)
    && (forall n :: n in a.syms && n !in binds ==> n in b.syms && b.syms[n] == a.syms[n])
  }

  lemma MovesNot(a: Alloc, b: Alloc, binds: set<string>)
    requires AllocOk(b) && b.syms == a.syms && a.used <= b.used
    ensures Moves(a, b, binds)
  {
  }

  lemma MovesTwice(a: Alloc, b: Alloc, c: Alloc, x: set<string>, y: set<string>)
    requires AllocOk(a) && Moves(a, b, x) && Moves(b, c, y)
    ensures Moves(a, c, x + y)
  {
    forall n | n in c.syms && (c.syms[n].reg < 9 || c.syms[n].reg in a.used)
      ensures n in a.syms && a.syms[n].reg == c.syms[n].reg
    {
      assert n in b.syms && b.syms[n].reg == c.syms[n].reg;
    }
  }

  // ----- declarations -----

  lemma {:induction false} FreeUpFinds(used: set<int>, r: int)
    requires 9 <= r
    ensures FreeUpFrom(used, r).Ok? <==> exists q :: r <= q <= 15 && q !in used
    decreases 16 - r
  {
    if r <= 15 && r in used {
      FreeUpFinds(used, r + 1);
    }
  }

  lemma LocalCounts(a: Alloc, name: string)
    requires AllocOk(a)
    ensures AddLocal(a, name).Ok? <==> |a.used| < 7
    ensures AddLocal(a, name).Ok? ==>
              var (b, r) := AddLocal(a, name).value;
              && Moves(a, b, {name}) && |b.used| == |a.used| + 1 && NamesOf(b.syms) == NamesOf(a.syms)[name := false]
              && 9 <= r && r !in a.used && r in b.used && name in b.syms && b.syms[name].reg == r
  {
    hide AllocOk;
    AtMostSeven(a);
    FreeUpFinds(a.used, 9);
    if AddLocal(a, name).Ok? {
      FreeUpFromIs(a.used, 9);
      NewLocal(a, name, AddLocal(a, name).value.1);
    }
  }

  /** A value computed and given back. */
  lemma ValueCounts(a: Alloc, e: Expr)
    requires AllocOk(a)
    ensures Lower(a, e).Ok? <==> Supported(NamesOf(a.syms), e) && |a.used| + Need(e) <= 7
    ensures Lower(a, e).Ok? ==>
              var x := Lower(a, e).value;
              Moves(a, MaybeFree(x.a, x.r), {}) && MaybeFree(x.a, x.r).syms == a.syms
                && |MaybeFree(x.a, x.r).used| == |a.used| + Lost(e)
  {
    hide AllocOk, Lower, MaybeFree, IsSymReg, Need, Lost, Supported, Moves;
    LowerIff(a, e);
    if Lower(a, e).Ok? {
      LowerShape(a, e);
      var x := Lower(a, e).value;
      FreeCounts(x.a, x.r);
      MaybeFreeGrows(a, x.a, x.r);
      MovesNot(a, MaybeFree(x.a, x.r), {});
    }
  }

  // ----- statements one by one -----

  /** A statement is accepted as its tree says, and leaves names and registers as its tree says. */
  ghost predicate Accepted(a: Alloc, s: Stmt, r: Result<(Alloc, seq<Node>)>) {
    && (r.Ok? <==> StmtSupported(NamesOf(a.syms), s) && |a.used| + StmtNeed(s) <= 7)
    && (r.Ok? ==> LeftBy(a, s, r.value.0))
  }

  ghost predicate LeftBy(a: Alloc, s: Stmt, b: Alloc) {
    && Moves(a, b, Binds(s)) && NamesOf(b.syms) == BoundAfter(NamesOf(a.syms), s) && |b.used| == |a.used| + StmtLost(s)
  }

  lemma DeclIff(a: Alloc, s: Stmt)
    requires AllocOk(a) && s.Decl?
    ensures Accepted(a, s, LowerStmt(a, s))
  {
    hide AllocOk, Lower, MaybeFree, AddLocal, Need, Lost, Supported, Moves;
    AtMostSeven(a);
    LocalCounts(a, s.name);
    if AddLocal(a, s.name).Ok? {
      var a1 := AddLocal(a, s.name).value.0;
      if s.init.Some? {
        assert AllocOk(a1) by { MovesOk(a, a1, {s.name}); }
        ValueCounts(a1, s.init.value);
        if Lower(a1, s.init.value).Ok? {
          var x := Lower(a1, s.init.value).value;
          MovesTwice(a, a1, MaybeFree(x.a, x.r), {s.name}, {});
          assert {s.name} + {} == {s.name};
        }
      }
    }
  }

  lemma MovesOk(a: Alloc, b: Alloc, binds: set<string>)
    requires Moves(a, b, binds)
    ensures AllocOk(b) && a.used <= b.used
  {
  }

  lemma AssignIff(a: Alloc, s: Stmt)
    requires AllocOk(a) && s.Assign?
    ensures Accepted(a, s, LowerStmt(a, s))
  {
    hide AllocOk, Lower, LowerAddr, MaybeFree, Need, Lost, Supported, Moves, Stored;
    var value := Stored(s.aop, s.lhs, s.rhs);
    assert LowerStmt(a, s) == LowerAssign(a, s.lhs, value) by { StoredIs(a, s); }
    if s.lhs.Id? {
      ValueCounts(a, value);
    } else if s.lhs.Index? {
      TargetCounts(a, s.lhs.base, s.lhs.index);
      if LowerAddr(a, s.lhs.base, s.lhs.index).Ok? {
        var b := LowerAddr(a, s.lhs.base, s.lhs.index).value.a;
        ValueCounts(b, value);
        if Lower(b, value).Ok? {
          var x := Lower(b, value).value;
          var none: set<string> := {};
          MovesTwice(a, b, MaybeFree(x.a, x.r), none, none);
          assert none + none == none;
        }
      }
    }
  }

  lemma StoredIs(a: Alloc, s: Stmt)
    requires s.Assign?
    ensures LowerStmt(a, s) == LowerAssign(a, s.lhs, Stored(s.aop, s.lhs, s.rhs))
  {
    hide LowerAssign;
  }

  lemma TargetCounts(a: Alloc, base: Expr, index: Expr)
    requires AllocOk(a)
    ensures var e := Index(base, index);
            && (LowerAddr(a, base, index).Ok? <==> Supported(NamesOf(a.syms), e) && |a.used| + TargetNeed(e) <= 7)
            && (LowerAddr(a, base, index).Ok? ==>
                  var b := LowerAddr(a, base, index).value.a;
                  AllocOk(b) && b.syms == a.syms && Moves(a, b, {}) && |b.used| == |a.used| + TargetLost(e))
  {
    hide AllocOk, LowerAddr, Need, Lost, Moves, Constant;
    AtMostSeven(a);
    AddrIff(a, base, index);
    if LowerAddr(a, base, index).Ok? {
      LowerAddrShape(a, base, index);
      MovesNot(a, LowerAddr(a, base, index).value.a, {});
    }
  }

  /** The register of a negated condition goes once it is tested. */
  lemma CondIff(a: Alloc, e: Expr)
    requires AllocOk(a)
    ensures var c := LowerCondNegated(a, e);
            && (c.Ok? <==> Supported(NamesOf(a.syms), e) && |a.used| + CondNeed(e) <= 7)
            && (c.Ok? ==> Goes(a, c.value.r) && |c.value.a.used| == |a.used| + CondLost(e) + 1)
  {
    hide AllocOk, Lower, MaybeFree, Temp, Need, Lost, IsSymReg, Constant;
    if e.Bin? && e.op.Equal? {
      EqualIff(a, e);
    } else {
      LowerIff(a, e);
      if Lower(a, e).Ok? { OneCounts(a, e); }
    }
  }

  lemma EqualIff(a: Alloc, e: Expr)
    requires AllocOk(a) && e.Bin? && e.op.Equal?
    ensures var c := LowerCondNegated(a, e);
            && (c.Ok? <==> Supported(NamesOf(a.syms), e) && |a.used| + CondNeed(e) <= 7)
            && (c.Ok? ==> Goes(a, c.value.r) && |c.value.a.used| == |a.used| + Lost(e.l) + Lost(e.r) + 1)
  {
    hide AllocOk, Lower, MaybeFree, Temp, Need, Lost, IsSymReg, Constant;
    LowerIff(a, e.l);
    if Lower(a, e.l).Ok? {
      var x := Lower(a, e.l).value;
      LowerShape(a, e.l);
      LowerIff(x.a, e.r);
      if Lower(x.a, e.r).Ok? {
        LowerShape(x.a, e.r);
        FlipCounts(a, e.l, e.r, x, Lower(x.a, e.r).value);
      }
    }
  }

  lemma FlipCounts(a: Alloc, e: Expr, f: Expr, x: Lowered, y: Lowered)
    requires AllocOk(a) && LoweredFits(a, x) && LoweredFits(x.a, y) && Counted(a, e, x) && Counted(x.a, f, y)
    ensures Temp(y.a).Ok? && Temp(Temp(y.a).value.0).Ok? <==> |a.used| + Left(e) + Left(f) + 2 <= 7
    ensures Temp(y.a).Ok? && Temp(Temp(y.a).value.0).Ok? ==>
              var (a1, rd) := Temp(y.a).value;
              var (a2, tmp) := Temp(a1).value;
              && Goes(a, rd)
              && |MaybeFree(MaybeFree(MaybeFree(a2, x.r), y.r), tmp).used| == |a.used| + Lost(e) + Lost(f) + 1
  {
    hide AllocOk, Temp, MaybeFree, IsSymReg, Need, Lost, Temporary, NameRead;
    Operands(a, x, y);
    TempCounts(y.a);
    if Temp(y.a).Ok? {
      TempIs(y.a);
      var a1 := Temp(y.a).value.0;
      TempCounts(a1);
      if Temp(a1).Ok? {
        TempIs(a1);
        var (a2, tmp) := Temp(a1).value;
        FreeThree(a2, x.r, y.r, tmp);
      }
    }
  }

  lemma ReturnIff(a: Alloc, s: Stmt)
    requires AllocOk(a) && s.Return?
    ensures Accepted(a, s, LowerStmt(a, s))
  {
    hide AllocOk, Lower, MaybeFree, Need, Lost, Supported, Moves;
    AtMostSeven(a);
    MovesNot(a, a, {});
    if s.value.Some? { ValueCounts(a, s.value.value); }
  }

  lemma CallStmtIff(a: Alloc, s: Stmt)
    requires AllocOk(a) && s.ExprCall?
    ensures Accepted(a, s, LowerStmt(a, s))
  {
    hide AllocOk, Lower, LowerCall, MaybeFree, Need, Lost, Supported, Moves;
    if s.call.Call? {
      assert LowerCall(a, s.call.fn, s.call.args) == Lower(a, s.call) by { CallLowers(a, s.call); }
      LowerIff(a, s.call);
      if Lower(a, s.call).Ok? {
        LowerShape(a, s.call);
        MovesNot(a, Lower(a, s.call).value.a, {});
      }
    }
  }

  lemma CallLowers(a: Alloc, e: Expr)
    requires e.Call?
    ensures LowerCall(a, e.fn, e.args) == Lower(a, e)
  {
    hide LowerCall;
  }

  lemma StepIff(a: Alloc, s: Stmt)
    requires AllocOk(a) && s.IncDec?
    ensures Accepted(a, s, LowerStmt(a, s))
  {
    hide AllocOk, Moves;
    AtMostSeven(a);
    MovesNot(a, a, {});
  }

  lemma {:induction false} StmtIff(a: Alloc, s: Stmt)
    requires AllocOk(a) && BoundsStay(s)
    ensures Accepted(a, s, LowerStmt(a, s))
    decreases s, 1
  {
    hide Accepted, LowerStmt, AllocOk;
    match s
    case Decl(_, _, _) => DeclIff(a, s);
    case Assign(_, _, _) => AssignIff(a, s);
    case For(_, _, _) => ForIff(a, s);
    case If(_, _) => IfIff(a, s);
    case Return(_) => ReturnIff(a, s);
    case ExprCall(_) => CallStmtIff(a, s);
    case IncDec(_, _) => StepIff(a, s);
  }

  lemma {:induction false} BlockIff(a: Alloc, ss: seq<Stmt>)
    requires AllocOk(a) && AllBoundsStay(ss)
    ensures var r := LowerBlock(a, ss);
            && (r.Ok? <==> BlockSupported(NamesOf(a.syms), ss) && |a.used| + BlockNeed(ss) <= 7)
            && (r.Ok? ==> BlockLeaves(a, ss, r.value.0))
    decreases ss, 0
  {
    hide AllocOk, LowerStmt, StmtSupported, BoundAfter, StmtNeed, StmtLost, Binds, BoundsStay, Moves;
    AtMostSeven(a);
    if ss == [] {
      MovesNot(a, a, {});
    } else {
      StmtIff(a, ss[0]);
      if LowerStmt(a, ss[0]).Ok? {
        var a1 := LowerStmt(a, ss[0]).value.0;
        MovesOk(a, a1, Binds(ss[0]));
        BlockIff(a1, ss[1..]);
        if LowerBlock(a1, ss[1..]).Ok? {
          MovesTwice(a, a1, LowerBlock(a1, ss[1..]).value.0, Binds(ss[0]), BindsAll(ss[1..]));
        }
      }
    }
  }

  ghost predicate BlockLeaves(a: Alloc, ss: seq<Stmt>, b: Alloc) {
    && Moves(a, b, BindsAll(ss)) && NamesOf(b.syms) == BoundAfterAll(NamesOf(a.syms), ss)
    && |b.used| == |a.used| + BlockLost(ss)
  }

  lemma {:induction false} IfIff(a: Alloc, s: Stmt)
    requires AllocOk(a) && s.If? && BoundsStay(s)
    ensures Accepted(a, s, LowerStmt(a, s))
    decreases s, 0
  {
    hide AllocOk, LowerCondNegated, LowerBlock, MaybeFree, Need, Lost, Supported, BlockSupported, BlockNeed, BlockLost,
         BoundAfterAll, BindsAll, Moves, CondNeed, CondLost, AllBoundsStay;
    if Untested(s.cond) {
      BlockIff(a, s.body);
      assert Supported(NamesOf(a.syms), s.cond) by { ConstantSupported(NamesOf(a.syms), s.cond); }
    } else {
      CondIff(a, s.cond);
      if LowerCondNegated(a, s.cond).Ok? {
        CondShape(a, s.cond);
        var c := LowerCondNegated(a, s.cond).value;
        var a1 := MaybeFree(Fresh(c.a, "if_skip").0, c.r);
        TestedCounts(a, s.cond, c);
        BlockIff(a1, s.body);
        if LowerBlock(a1, s.body).Ok? {
          MovesTwice(a, a1, LowerBlock(a1, s.body).value.0, {}, BindsAll(s.body));
          assert {} + BindsAll(s.body) == BindsAll(s.body);
        }
      }
    }
  }

  lemma TestedCounts(a: Alloc, e: Expr, c: Lowered)
    requires AllocOk(a) && LoweredFits(a, c) && Goes(a, c.r) && |c.a.used| == |a.used| + CondLost(e) + 1
    ensures var b := MaybeFree(Fresh(c.a, "if_skip").0, c.r);
            AllocOk(b) && b.syms == a.syms && Moves(a, b, {}) && |b.used| == |a.used| + CondLost(e)
  {
    hide MaybeFree, LabelName, CondLost, Moves;
    var f := Fresh(c.a, "if_skip").0;
    FreeCounts(f, c.r);
    FreshKeeps(c.a, f, c.r);
    MaybeFreeGrows(a, c.a, c.r);
    MovesNot(a, MaybeFree(f, c.r), {});
  }

  /** Labels play no part in allocation. */
  lemma FreshKeeps(a: Alloc, f: Alloc, r: int)
    requires f.used == a.used && f.syms == a.syms
    ensures MaybeFree(f, r).used == MaybeFree(a, r).used && MaybeFree(f, r).syms == MaybeFree(a, r).syms
    ensures AllocOk(MaybeFree(a, r)) ==> AllocOk(MaybeFree(f, r))
  {
  }

  lemma {:induction false} ForIff(a: Alloc, s: Stmt)
    requires AllocOk(a) && s.For? && BoundsStay(s)
    ensures Accepted(a, s, LowerStmt(a, s))
    decreases s, 0
  {
    hide AllocOk, Lower, LowerBlock, MaybeFree, Free, AddLocal, Need, Lost, Supported, BlockSupported, BlockNeed,
         BlockLost, BoundAfterAll, BindsAll, Moves, AllBoundsStay, LabelName, LeftBy, BlockLeaves, NameRead;
    AtMostSeven(a);
    LocalCounts(a, s.ind);
    if AddLocal(a, s.ind).Ok? {
      var a1 := AddLocal(a, s.ind).value.0;
      MovesOk(a, a1, {s.ind});
      LowerIff(a1, s.bound);
      if Lower(a1, s.bound).Ok? {
        LowerShape(a1, s.bound);
        var n := Lower(a1, s.bound).value;
        var a2 := Fresh(n.a, "for_end").0;
        assert AllocOk(a2) by { FreshOk(n.a); }
        BlockIff(a2, s.body);
        if LowerBlock(a2, s.body).Ok? {
          var (r, a3) := (AddLocal(a, s.ind).value.1, LowerBlock(a2, s.body).value.0);
          FreshLeaves(n.a, a2, s.body, a3);
          LoopLeaves(a, s, a1, r, n, a3, LowerStmt(a, s).value.0);
        }
      }
    }
  }

  lemma FreshOk(a: Alloc)
    requires AllocOk(a)
    ensures AllocOk(Fresh(a, "for_end").0)
  {
  }

  /** Whether the bound's register can be given back does not change while the body runs. */
  lemma BoundGoes(a1: Alloc, n: Lowered, a3: Alloc, bound: Expr, r: reg, ind: string, binds: set<string>)
    requires LoweredFits(a1, n) && Counted(a1, bound, n) && Moves(n.a, a3, binds)
    requires ind in a1.syms && a1.syms[ind].reg == r && r in a1.used && AllocOk(a1)
    requires NameRead(bound).Some? && NameRead(bound).value != ind ==> NameRead(bound).value !in binds
    ensures Temporary(bound) ==> Goes(a3, n.r) && n.r in a3.used && n.r !in a1.used
    ensures !Temporary(bound) && n.r != r ==> !Goes(a3, n.r)
  {
    hide Temporary, NameRead, Left;
    if Temporary(bound) {
      assert n.r in n.a.used && n.r !in a1.used;
      forall x | x in a3.syms ensures a3.syms[x].reg != n.r {
        assert x in n.a.syms ==> n.a.syms[x].reg != n.r;
      }
    } else if n.r != 0 && n.r != r {
      var m := NameRead(bound).value;
      assert m in a3.syms && a3.syms[m].reg == n.r;
    }
  }

  /** What giving back both registers leaves. */
  lemma LoopFrees(a3: Alloc, q: reg, r: reg, temporary: bool)
    requires 9 <= r && r in a3.used
    requires temporary ==> Goes(a3, q) && q in a3.used && q != r
    requires !temporary && q != r ==> !Goes(a3, q)
    ensures var b := Free(MaybeFree(a3, q), r);
            b.used == a3.used - {r as int} - (if temporary then {q as int} else {})
              && |b.used| == |a3.used| - 1 - if temporary then 1 else 0
  {
    hide IsSymReg;
    var b := Free(MaybeFree(a3, q), r);
    assert b.used == a3.used - {r as int} - (if temporary then {q as int} else {});
    if temporary { assert |a3.used - {r as int}| == |a3.used| - 1; }
  }

  /** Symbols of a loop's body, its variable apart, are in neither of the registers given back. */
  lemma SymbolsApart(a2: Alloc, a3: Alloc, ind: string, r: reg, freed: set<int>, binds: set<string>)
    requires AllocOk(a2) && Moves(a2, a3, binds) && ind in a2.syms && a2.syms[ind].reg == r && r in a2.used
    requires forall q :: q in freed ==> !IsSymReg(a3.syms, q)
    ensures forall n :: n in a3.syms && n != ind ==> a3.syms[n].reg != r && a3.syms[n].reg !in freed
  {
    forall n | n in a3.syms && n != ind ensures a3.syms[n].reg != r && a3.syms[n].reg !in freed {
      assert n in a2.syms ==> a2.syms[n].reg != r;
      assert IsSymReg(a3.syms, a3.syms[n].reg);
    }
  }

  lemma LoopMoves(
    a: Alloc, a1: Alloc, a2: Alloc, a3: Alloc, b: Alloc, ind: string, r: reg, freed: set<int>, binds: set<string>)
    requires AllocOk(a) && Moves(a, a1, {ind}) && Moves(a2, a3, binds)
    requires ind in a1.syms && a1.syms[ind].reg == r && r !in a.used && r in a1.used
    requires AllocOk(a2) && a2.syms == a1.syms && a1.used <= a2.used
    requires freed !! a1.used && forall q :: q in freed ==> !IsSymReg(a3.syms, q)
    requires b.syms == a3.syms - {ind} && b.used == a3.used - {r as int} - freed && 9 <= r
    ensures Moves(a, b, {ind} + binds)
  {
    hide IsSymReg;
    SymbolsApart(a2, a3, ind, r, freed, binds);
    assert AllocOk(b) by { FewerOk(a3, b); }
    forall n | n in b.syms && (b.syms[n].reg < 9 || b.syms[n].reg in a.used)
      ensures n in a.syms && a.syms[n].reg == b.syms[n].reg
    {
      assert n in a2.syms && a2.syms[n].reg == a3.syms[n].reg;
    }
  }

  lemma FewerOk(a: Alloc, b: Alloc)
    requires AllocOk(a) && b.used <= a.used && forall n :: n in b.syms ==> n in a.syms && b.syms[n] == a.syms[n]
    requires forall n :: n in b.syms && b.syms[n].reg in a.used ==> b.syms[n].reg in b.used
    ensures AllocOk(b)
  {
  }

  /** After a loop its own register and its bound's are given back, and its name is gone. */
  lemma LoopLeaves(a: Alloc, s: Stmt, a1: Alloc, r: reg, n: Lowered, a3: Alloc, b: Alloc)
    requires AllocOk(a) && s.For? && BoundsStay(s)
    requires Moves(a, a1, {s.ind}) && NamesOf(a1.syms) == NamesOf(a.syms)[s.ind := false]
    requires |a1.used| == |a.used| + 1 && 9 <= r && r !in a.used && r in a1.used
    requires s.ind in a1.syms && a1.syms[s.ind].reg == r
    requires LoweredFits(a1, n) && Counted(a1, s.bound, n) && BlockLeaves(n.a, s.body, a3)
    requires b.syms == a3.syms - {s.ind} && b.used == Free(MaybeFree(a3, n.r), r).used
    ensures LeftBy(a, s, b)
  {
    hide Need, Lost, BlockLost, BoundAfterAll, BindsAll, AllBoundsStay, AllocOk, MaybeFree, Free, Moves, IsSymReg,
         NameRead, Temporary;
    MovesOk(a, a1, {s.ind});
    MovesOk(n.a, a3, BindsAll(s.body));
    BoundGoes(a1, n, a3, s.bound, r, s.ind, BindsAll(s.body));
    LoopFrees(a3, n.r, r, Temporary(s.bound));
    var freed := if Temporary(s.bound) then {n.r as int} else {};
    LoopMoves(a, a1, n.a, a3, b, s.ind, r, freed, BindsAll(s.body));
    assert NamesOf(a3.syms - {s.ind}) == NamesOf(a3.syms) - {s.ind};
  }

  lemma FreshLeaves(a: Alloc, f: Alloc, ss: seq<Stmt>, b: Alloc)
    requires f.used == a.used && f.syms == a.syms && BlockLeaves(f, ss, b)
    ensures BlockLeaves(a, ss, b)
  {
    FreshMoves(a, f, b, BindsAll(ss));
  }

  lemma FreshMoves(a: Alloc, f: Alloc, b: Alloc, binds: set<string>)
    requires f.used == a.used && f.syms == a.syms && Moves(f, b, binds)
    ensures Moves(a, b, binds)
  {
  }

  // ----- functions -----

  /** The parameters by name, a later one of the same name winning. */
  function ParamsBound(params: seq<Param>): Names {
    if params == [] then map[]
    else
      var last := params[|params| - 1];
      ParamsBound(params[..|params| - 1])[last.name := last.ty.stars > 0]
  }

  lemma {:induction false} ArgsIff(params: seq<Param>)
    ensures AddArgs(params).Ok? <==> |params| <= 8
    ensures AddArgs(params).Ok? ==> NamesOf(AddArgs(params).value.syms) == ParamsBound(params)
  {
    if params != [] {
      var n := |params| - 1;
      ArgsIff(params[..n]);
      if AddArgs(params).Ok? {
        var a := AddArgs(params[..n]).value;
        assert NamesOf(a.syms[params[n].name := Sym(n + 1, params[n].IsPtr())])
            == NamesOf(a.syms)[params[n].name := params[n].ty.stars > 0];
      }
    } else {
      assert NamesOf(map[]) == map[];
    }
  }

  /**
   * Acceptance, exactly: a function compiles if and only if it has at most eight parameters, its statements are
   * supported where they stand, and it needs at most seven registers at once.
   */
  lemma CompilesIff(fn: FuncDef)
    requires AllBoundsStay(fn.body)
    ensures Compile(fn).Ok? <==>
              |fn.params| <= 8 && BlockSupported(ParamsBound(fn.params), fn.body) && BlockNeed(fn.body) <= 7
  {
    hide AddArgs, LowerBlock, BlockSupported, BlockNeed, BlockLeaves, Flatten, AllBoundsStay;
    ArgsIff(fn.params);
    if AddArgs(fn.params).Ok? {
      var a := AddArgs(fn.params).value;
      assert AllocOk(a) && a.used == {} by { ArgsFresh(fn.params); }
      BlockIff(a, fn.body);
    }
  }

  lemma ArgsFresh(params: seq<Param>)
    requires AddArgs(params).Ok?
    ensures AllocOk(AddArgs(params).value) && AddArgs(params).value.used == {}
  {
    ArgsShape(params);
  }
}
