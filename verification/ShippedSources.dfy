/**
 * The C sources shipped as examples: what they compile to returns, for all arguments and memories, the old counter and
 * the end of the pointer chase.
 */
module ShippedSources {
  import opened Prelude
  import opened Machine
  import opened Assembler
  import opened Ast
  import opened Conversions
  import opened Lowering
  import opened Source
  import opened ExprCorrect
  import opened RegisterNeed
  import opened CompilerAccepts
  import opened CompilerBuilds
  import opened CompilerLimits
  import opened CompilerDepartures
  import opened CompilerCorrect
  import LoopDepartures

  // ----- atomic_inc.c -----

  const BASE := "base_in_counters_0x10000"

  const FETCH_ADD := Call("tiara_caa", [Id(BASE), Id("delta")])

  /** atomic_inc(base, delta) { uint64_t old = tiara_caa(base, delta); return old; } */
  const ATOMIC_INC := FuncDef(
    [Param(BASE, UINT64), Param("delta", UINT64)],
    [Decl("old", UINT64, Some(FETCH_ADD)), Return(Some(Id("old")))])

  const INC_KINDS: Kinds := map[BASE := Word, "delta" := Word]

  lemma TwoParams(name: string, ty: CType, second: string, x: u64, y: u64)
    requires name != second && KindOf(ty).Ok? && UINT64.names == ["uint64_t"]
    ensures var params := [Param(name, ty), Param(second, UINT64)];
            && Bind(params, [x, y]) == map[name := x, second := y]
            && ParamKinds(params) == Ok(map[name := KindOf(ty).value, second := Word])
            && ParamsBound(params) == map[name := ty.stars > 0, second := false]
            && ParamNames(params) == {name, second}
            && SlotOf(params, name) == 1 && SlotOf(params, second) == 2
  {
    hide KindOf;
    var params := [Param(name, ty), Param(second, UINT64)];
    var one := params[..1];
    assert one == [params[0]] && one[..0] == [];
    OneParam(name, ty, x);
    assert KindOf(UINT64) == Ok(Word) by { WordKind(); }
    BindPrefix(one, [x], [x, y]);
    assert ParamsBound(one) == map[name := ty.stars > 0];
    assert params[0].name == name && params[1].name == second;
  }

  lemma WordKind()
    ensures KindOf(UINT64) == Ok(Word) && KindOf(UINT64_PTR) == Ok(Pointer(UINT64))
  {
    assert UINT64.names[0] == "uint64_t";
  }

  lemma FetchAddExplicit(ks: Kinds)
    requires BASE in ks && "delta" in ks
    ensures Explicit(ks, FETCH_ADD) == Ok(Typed(FETCH_ADD, Word))
  {
    NoConversionArgs(ks, Id("delta"), []);
    assert [Id("delta")] + [] == [Id("delta")] && [Id(BASE)] + [Id("delta")] == FETCH_ADD.args;
    NoConversionArgs(ks, Id(BASE), [Id("delta")]);
  }

  lemma IncExplicit()
    ensures ExplicitBody(ATOMIC_INC) == Ok(ATOMIC_INC.body)
  {
    hide KindOf, ParamKinds, Explicit;
    WordKind();
    TwoParams(BASE, UINT64, "delta", 0, 0);
    var (s, t, ks1) := (ATOMIC_INC.body[0], ATOMIC_INC.body[1], INC_KINDS["old" := Word]);
    FetchAddExplicit(INC_KINDS);
    assert ExplicitStmt(INC_KINDS, s) == Ok((s, ks1));
    assert Explicit(ks1, Id("old")) == Ok(Typed(Id("old"), Word)) by { NameExplicit(ks1, "old"); }
    assert ExplicitStmt(ks1, t) == Ok((t, ks1));
    assert ExplicitBlock(ks1, []) == Ok([]);
    NoConversion(ks1, ks1, t, []);
    assert [t] + [] == [t] && [s] + [t] == ATOMIC_INC.body;
    NoConversion(INC_KINDS, ks1, s, [t]);
    BodyExplicit(ATOMIC_INC, INC_KINDS);
  }

  lemma NameExplicit(ks: Kinds, name: string)
    requires name in ks
    ensures Explicit(ks, Id(name)) == Ok(Typed(Id(name), ks[name]))
  {
  }

  /** A call of two arguments. */
  lemma CallFacts(fn: string, a: Expr, b: Expr)
    ensures var e := Call(fn, [a, b]);
            && Reads(e) == Reads(a) + Reads(b) && Length(e) == Length(a) + Length(b) + 2
            && Need(e) == CallNeed(fn, [a, b]) && Lost(e) == CallLost(fn, [a, b])
            && (ExprOk(a) && ExprOk(b) && fn != "tiara_set_result" && !(TryConst(b).Some? && TryConst(b).value < 0) ==>
                  ExprOk(e))
  {
    hide Need, Lost;
    PairFacts(a, b);
    CallLeft(fn, [a, b]);
    CallNeedIs(fn, [a, b]);
    assert forall x :: x in [a, b] ==> x == a || x == b;
  }

  lemma PairFacts(a: Expr, b: Expr)
    ensures ReadsAll([a, b]) == Reads(a) + Reads(b) && LengthAll([a, b]) == Length(a) + Length(b)
  {
    hide Reads, Length;
    assert [a, b][1..] == [b] && [b][1..] == [];
    assert ReadsAll([]) == {} && LengthAll([]) == 0;
    assert ReadsAll([b]) == Reads(b) + {} && LengthAll([b]) == Length(b);
  }

  lemma CallNeedIs(fn: string, args: seq<Expr>)
    ensures Need(Call(fn, args)) == CallNeed(fn, args)
  {
    hide CallNeed;
  }

  lemma FetchAddFacts()
    ensures ExprOk(FETCH_ADD) && Reads(FETCH_ADD) == {BASE, "delta"}
    ensures Need(FETCH_ADD) == 1 && Lost(FETCH_ADD) == 0 && Length(FETCH_ADD) == 2
    ensures forall names: Names :: BASE in names && "delta" in names ==> Supported(names, FETCH_ADD)
  {
    hide Need, Lost, Length, ExprOk, Reads, Supported;
    NameFacts(BASE);
    NameFacts("delta");
    CallFacts("tiara_caa", Id(BASE), Id("delta"));
    forall names: Names | BASE in names && "delta" in names ensures Supported(names, FETCH_ADD) {
      CallSupportedIs(names, FETCH_ADD);
    }
  }

  lemma CallSupportedIs(names: Names, e: Expr)
    requires e.Call?
    ensures Supported(names, e) <==> CallSupported(names, e.fn, e.args)
  {
    hide CallSupported;
  }

  lemma IncCovered()
    ensures Covered(ATOMIC_INC)
  {
    hide ExplicitBody, KindOf, ParamKinds, Need, Lost, Length, Supported, ExprOk, Reads;
    WordKind();
    TwoParams(BASE, UINT64, "delta", 0, 0);
    IncExplicit();
    FetchAddFacts();
    NameFacts("old");
    var (s, t) := (ATOMIC_INC.body[0], ATOMIC_INC.body[1]);
    var (scope, scope1) := ({BASE, "delta"}, {BASE, "delta", "old"});
    assert ATOMIC_INC.body[1..] == [t] && [t][1..] == [];
    assert scope + {"old"} == scope1;
    assert Plainly(scope, scope, s);
    assert Plainly(scope1, scope1, t);
    assert BlockPlainly(scope1, scope1, [t]) by { assert BlockPlainly(scope1, scope1, []); }
    var (names, names1) := (ParamsBound(ATOMIC_INC.params), ParamsBound(ATOMIC_INC.params)["old" := false]);
    assert BlockSupported(names1, [t]) by { assert BlockSupported(names1, []); }
    assert BlockNeed([t]) == 0 by { assert BlockNeed([]) == 0; }
    assert BlockLength([t]) == 2 by { assert BlockLength([]) == 0; }
    assert BlockPlainly(scope, scope, ATOMIC_INC.body);
    assert BlockSupported(names, ATOMIC_INC.body);
    assert BlockNeed(ATOMIC_INC.body) == 2;
    assert BlockLength(ATOMIC_INC.body) == 5;
  }

  /** Reading a name. */
  lemma NameFacts(name: string)
    ensures ExprOk(Id(name)) && Reads(Id(name)) == {name}
    ensures Need(Id(name)) == 0 && Lost(Id(name)) == 0 && Length(Id(name)) == 0
    ensures forall names: Names :: name in names ==> Supported(names, Id(name))
  {
  }

  lemma IncMeans(x: u64, y: u64, mem: Mem)
    ensures var r := RunSource(ATOMIC_INC, [x, y], mem);
            && r.Ok? && r.value.out == map[1 := Load(mem, x)]
            && r.value.mem == mem[x := (Load(mem, x) + y) % 0x1_0000_0000_0000_0000]
  {
    hide ExplicitBody, Bind, Eval, Load;
    WordKind();
    TwoParams(BASE, UINT64, "delta", x, y);
    IncExplicit();
    var (params, s, t) := (ATOMIC_INC.params, ATOMIC_INC.body[0], ATOMIC_INC.body[1]);
    var vars: Vars := map[BASE := x, "delta" := y];
    var env := Env(vars, mem, map[]);
    var after := mem[x := (Load(mem, x) + y) % 0x1_0000_0000_0000_0000];
    assert vars - {"old"} == vars;
    FetchAddMeans(vars, mem);
    var env1 := Env(vars["old" := Load(mem, x)], after, map[]);
    assert ExecStmt(params, s, env) == Ok(Done(env1, false));
    ReadsBack("old", Load(mem, x), after);
    assert Eval(Id("old"), env1.vars, after) == Ok(Val(Load(mem, x), after));
    assert ExecStmt(params, t, env1).value.env.out == map[1 := Load(mem, x)];
    assert ATOMIC_INC.body == [s, t];
    LoopDepartures.ExecBlockTwo(params, s, t, env);
  }

  lemma FetchAddMeans(vars: Vars, mem: Mem)
    requires BASE in vars && "delta" in vars
    ensures var (x, y) := (vars[BASE], vars["delta"]);
            Eval(FETCH_ADD, vars, mem)
              == Ok(Val(Load(mem, x), mem[x := (Load(mem, x) + y) % 0x1_0000_0000_0000_0000]))
  {
    assert Eval(Id(BASE), vars, mem) == Ok(Val(vars[BASE], mem));
    assert Eval(Id("delta"), vars, mem) == Ok(Val(vars["delta"], mem));
  }

  /** atomic_inc.c, compiled and run: it returns the old word and adds to it, for every base, increment and memory. */
  lemma AtomicIncRuns(x: u64, y: u64, mem: Mem) returns (n: nat)
    ensures Compile(ATOMIC_INC).Ok? && Assemble(Compile(ATOMIC_INC).value).Ok?
    ensures var s := Run(Assemble(Compile(ATOMIC_INC).value).value.words, Reset([x, y], mem), n);
            && s.status == Returned && |s.d.result| == 4 && s.d.result[0] == Load(mem, x)
            && s.d.mem == mem[x := (Load(mem, x) + y) % 0x1_0000_0000_0000_0000]
  {
    hide Covered, RunSource, Lowering.Compile, Assemble, Run, Reset, Load;
    IncCovered();
    IncMeans(x, y, mem);
    n := CoveredMatchesSource(ATOMIC_INC, [x, y], mem);
    assert 1 in RunSource(ATOMIC_INC, [x, y], mem).value.out;
  }

  // ----- graph_walk.c -----

  const CUR := "cur_in_graph_pool_0x80000000"

  const LINK := Index(Id(CUR), Ast.Const(1))

  const MASKED := Call("tiara_andi", [Id("nxt"), Ast.Const(0x7FFF_FFF8)])

  const NEXT := Cast(UINT64_PTR, Id("cur_off"))

  const DATA := Index(Id(CUR), Ast.Const(0))

  const NODE := Cast(UINT64, Id(CUR))

  /** uint64_t nxt = cur[1]; uint64_t cur_off = tiara_andi(nxt, 0x7FFFFFF8); cur = (uint64_t*)cur_off; */
  const HOP := [Decl("nxt", UINT64, Some(LINK)), Decl("cur_off", UINT64, Some(MASKED)), Assign(Set, Id(CUR), NEXT)]

  const HOPS := For("i", Id("depth"), HOP)

  /** uint64_t data = cur[0]; tiara_set_result(2, (uint64_t)cur); return data; */
  const TAIL := [
    Decl("data", UINT64, Some(DATA)), ExprCall(Call("tiara_set_result", [Ast.Const(2), NODE])),
    Return(Some(Id("data")))]

  const WALK := FuncDef([Param(CUR, UINT64_PTR), Param("depth", UINT64)], [HOPS] + TAIL)

  // ----- the walk is covered -----

  const OUTER: Kinds := map[CUR := Pointer(UINT64), "depth" := Word]

  lemma ElementExplicit(ks: Kinds, k: nat)
    requires CUR in ks && ks[CUR] == Pointer(UINT64)
    ensures Explicit(ks, Index(Id(CUR), Ast.Const(k))) == Ok(Typed(Index(Id(CUR), Ast.Const(k)), Word))
  {
    hide KindOf;
    WordKind();
    assert Explicit(ks, Id(CUR)) == Ok(Typed(Id(CUR), ks[CUR])) && Explicit(ks, Ast.Const(k)).Ok?;
  }

  lemma CastExplicit(ks: Kinds, ty: CType, name: string)
    requires name in ks && KindOf(ty).Ok?
    ensures Explicit(ks, Cast(ty, Id(name))) == Ok(Typed(Cast(ty, Id(name)), KindOf(ty).value))
  {
    hide KindOf;
    NameExplicit(ks, name);
  }

  lemma CallExplicit(ks: Kinds, fn: string, e: Expr, f: Expr)
    requires Explicit(ks, e).Ok? && Explicit(ks, e).value.e == e && Explicit(ks, f).Ok? && Explicit(ks, f).value.e == f
    ensures Explicit(ks, Call(fn, [e, f])) == Ok(Typed(Call(fn, [e, f]), Word))
  {
    NoConversionArgs(ks, f, []);
    assert [f] + [] == [f] && [e] + [f] == [e, f];
    NoConversionArgs(ks, e, [f]);
  }

  lemma ConstExplicit(ks: Kinds, v: nat)
    ensures Explicit(ks, Ast.Const(v)) == Ok(Typed(Ast.Const(v), Natural))
  {
  }

  /** A declaration of a word, or an assignment to a name, that needs no conversion. */
  lemma DeclExplicit(ks: Kinds, name: string, e: Expr)
    requires name !in ks && Explicit(ks, e).Ok? && Explicit(ks, e).value.e == e
    ensures var s := Decl(name, UINT64, Some(e)); ExplicitStmt(ks, s) == Ok((s, ks[name := Word]))
  {
    hide Explicit, KindOf;
    WordKind();
  }

  lemma NothingExplicit(ks: Kinds)
    ensures ExplicitBlock(ks, []) == Ok([])
  {
  }

  lemma HopExplicit(ks: Kinds)
    requires ks == OUTER["i" := Natural]
    ensures ExplicitBlock(ks, HOP) == Ok(HOP)
  {
    hide Explicit, ExplicitStmt, ExplicitBlock, KindOf;
    var (ks1, ks2) := (ks["nxt" := Word], ks["nxt" := Word]["cur_off" := Word]);
    WordKind();
    ElementExplicit(ks, 1);
    DeclExplicit(ks, "nxt", LINK);
    NameExplicit(ks1, "nxt");
    ConstExplicit(ks1, 0x7FFF_FFF8);
    CallExplicit(ks1, "tiara_andi", Id("nxt"), Ast.Const(0x7FFF_FFF8));
    DeclExplicit(ks1, "cur_off", MASKED);
    CastExplicit(ks2, UINT64_PTR, "cur_off");
    NameExplicit(ks2, CUR);
    AssignExplicit(ks2, CUR, NEXT);
    NothingExplicit(ks2);
    assert [HOP[2]] + [] == [HOP[2]] && [HOP[1]] + [HOP[2]] == [HOP[1], HOP[2]];
    NoConversion(ks2, ks2, HOP[2], []);
    NoConversion(ks1, ks2, HOP[1], [HOP[2]]);
    NoConversion(ks, ks1, HOP[0], [HOP[1]] + [HOP[2]]);
    assert [HOP[0]] + ([HOP[1]] + [HOP[2]]) == HOP;
  }

  lemma AssignExplicit(ks: Kinds, name: string, e: Expr)
    requires name in ks && !ks[name].Natural? && Explicit(ks, e).Ok? && Explicit(ks, e).value.e == e
    ensures var s := Assign(Set, Id(name), e); ExplicitStmt(ks, s) == Ok((s, ks))
  {
    NameExplicit(ks, name);
  }

  lemma HopsExplicit()
    ensures ExplicitStmt(OUTER, HOPS) == Ok((HOPS, OUTER))
  {
    hide Explicit, ExplicitBlock;
    HopExplicit(OUTER["i" := Natural]);
    NameExplicit(OUTER["i" := Natural], "depth");
  }

  lemma TailExplicit()
    ensures ExplicitBlock(OUTER, TAIL) == Ok(TAIL)
  {
    hide Explicit, ExplicitStmt, ExplicitBlock, KindOf;
    var ks1 := OUTER["data" := Word];
    WordKind();
    ElementExplicit(OUTER, 0);
    DeclExplicit(OUTER, "data", DATA);
    CastExplicit(ks1, UINT64, CUR);
    ConstExplicit(ks1, 2);
    CallExplicit(ks1, "tiara_set_result", Ast.Const(2), NODE);
    assert ExplicitStmt(ks1, TAIL[1]) == Ok((TAIL[1], ks1)) by { CallStmtExplicit(ks1, TAIL[1].call); }
    NameExplicit(ks1, "data");
    assert ExplicitStmt(ks1, TAIL[2]) == Ok((TAIL[2], ks1)) by { ReturnExplicit(ks1, Id("data")); }
    NothingExplicit(ks1);
    assert [TAIL[2]] + [] == [TAIL[2]];
    NoConversion(ks1, ks1, TAIL[2], []);
    NoConversion(ks1, ks1, TAIL[1], [TAIL[2]]);
    NoConversion(OUTER, ks1, TAIL[0], [TAIL[1]] + [TAIL[2]]);
    assert [TAIL[0]] + ([TAIL[1]] + [TAIL[2]]) == TAIL;
  }

  lemma CallStmtExplicit(ks: Kinds, e: Expr)
    requires Explicit(ks, e).Ok? && Explicit(ks, e).value.e == e
    ensures ExplicitStmt(ks, ExprCall(e)) == Ok((ExprCall(e), ks))
  {
    hide Explicit;
  }

  lemma ReturnExplicit(ks: Kinds, e: Expr)
    requires Explicit(ks, e).Ok? && Explicit(ks, e).value.e == e
    ensures ExplicitStmt(ks, Return(Some(e))) == Ok((Return(Some(e)), ks))
  {
    hide Explicit;
  }

  lemma WalkExplicit()
    ensures ExplicitBody(WALK) == Ok(WALK.body)
  {
    hide ExplicitStmt, ExplicitBlock, ParamKinds, KindOf;
    WordKind();
    TwoParams(CUR, UINT64_PTR, "depth", 0, 0);
    HopsExplicit();
    TailExplicit();
    NoConversion(OUTER, OUTER, HOPS, TAIL);
    BodyExplicit(WALK, OUTER);
  }

  /** The expressions of the walk: what they read, need and lose. */
  lemma WalkFacts()
    ensures forall k: nat :: k <= 1 ==>
              var e := Index(Id(CUR), Ast.Const(k));
              ExprOk(e) && Reads(e) == {CUR} && Need(e) == 1 && Lost(e) == 0 && Length(e) <= 4
    ensures ExprOk(NEXT) && Reads(NEXT) == {"cur_off"} && Need(NEXT) == 0 && Lost(NEXT) == 0 && Length(NEXT) == 0
    ensures ExprOk(NODE) && Reads(NODE) == {CUR} && Need(NODE) == 0 && Lost(NODE) == 0 && Length(NODE) == 0
  {
    assert ExprOk(Id(CUR)) && Reads(Id(CUR)) == {CUR} && ExprOk(Id("cur_off")) && Reads(Id("cur_off")) == {"cur_off"};
  }

  lemma ConstFacts(v: nat)
    requires v < 0x80_0000_0000
    ensures ExprOk(Ast.Const(v)) && Reads(Ast.Const(v)) == {} && Length(Ast.Const(v)) == 1
    ensures TryConst(Ast.Const(v)) == Some(v as int) && Constant(Ast.Const(v)) && ConstantValue(Ast.Const(v)) == v
  {
  }

  lemma MaskedFacts()
    ensures ExprOk(MASKED) && Reads(MASKED) == {"nxt"} && Need(MASKED) == 1 && Lost(MASKED) == 0 && Length(MASKED) <= 3
    ensures forall names: Names :: "nxt" in names ==> Supported(names, MASKED)
  {
    hide Need, Lost, Length, ExprOk, Reads, Supported, Constant;
    NameFacts("nxt");
    ConstFacts(0x7FFF_FFF8);
    CallFacts("tiara_andi", Id("nxt"), Ast.Const(0x7FFF_FFF8));
    forall names: Names | "nxt" in names ensures Supported(names, MASKED) { CallSupportedIs(names, MASKED); }
  }

  lemma ResultFacts()
    ensures var call := TAIL[1].call; Reads(call) == {CUR} && Need(call) == 0 && Left(call) == 0 && Length(call) <= 3
    ensures forall names: Names :: CUR in names ==> Supported(names, TAIL[1].call)
  {
    hide Need, Lost, Length, ExprOk, Reads, Supported, Constant;
    WalkFacts();
    ConstFacts(2);
    var call := TAIL[1].call;
    CallFacts("tiara_set_result", Ast.Const(2), NODE);
    forall names: Names | CUR in names ensures Supported(names, call) {
      CallSupportedIs(names, call);
      CastSupported(names, UINT64, CUR);
    }
  }

  const SCOPE := {CUR, "depth"}

  const NAMES: Names := map[CUR := true, "depth" := false]

  lemma PlainCons(scope: set<string>, readable: set<string>, s: Stmt, ss: seq<Stmt>)
    requires Plainly(scope, readable, s)
    requires BlockPlainly(ScopeAfter(scope, s), if s.Decl? then readable + {s.name} else readable, ss)
    ensures BlockPlainly(scope, readable, [s] + ss)
  {
    hide Plainly, ScopeAfter;
    assert ([s] + ss)[1..] == ss;
  }

  lemma NeedCons(names: Names, s: Stmt, ss: seq<Stmt>)
    ensures BlockNeed([s] + ss) == Max(StmtNeed(s), StmtLost(s) + BlockNeed(ss))
    ensures BlockLost([s] + ss) == StmtLost(s) + BlockLost(ss)
    ensures BlockLength([s] + ss) == StmtLength(s) + BlockLength(ss)
    ensures BlockSupported(names, [s] + ss) <==> StmtSupported(names, s) && BlockSupported(BoundAfter(names, s), ss)
    ensures BoundAfterAll(names, [s] + ss) == BoundAfterAll(BoundAfter(names, s), ss)
  {
    hide StmtNeed, StmtLost, StmtLength, StmtSupported, BoundAfter;
    assert ([s] + ss)[1..] == ss;
  }

  lemma Nothing(names: Names, scope: set<string>, readable: set<string>)
    ensures BlockNeed([]) == 0 && BlockLost([]) == 0 && BlockLength([]) == 0 && BlockSupported(names, [])
    ensures BlockPlainly(scope, readable, []) && BoundAfterAll(names, []) == names
  {
  }

  lemma HopPlain()
    ensures BlockPlainly(SCOPE + {"i"}, SCOPE, HOP)
  {
    hide ExprOk, Reads, BlockPlainly;
    WalkFacts();
    MaskedFacts();
    var (r1, r2) := (SCOPE + {"nxt"}, SCOPE + {"nxt"} + {"cur_off"});
    var (s1, s2) := (SCOPE + {"i"} + {"nxt"}, SCOPE + {"i"} + {"nxt"} + {"cur_off"});
    assert Reads(Id(CUR)) == {CUR} by { NameFacts(CUR); }
    Nothing(NAMES, s2, r2);
    PlainCons(s2, r2, HOP[2], []);
    assert [HOP[2]] + [] == [HOP[2]];
    PlainCons(s1, r1, HOP[1], [HOP[2]]);
    PlainCons(SCOPE + {"i"}, SCOPE, HOP[0], [HOP[1]] + [HOP[2]]);
    assert [HOP[0]] + ([HOP[1]] + [HOP[2]]) == HOP;
  }

  lemma DeclCounts(names: Names, name: string, e: Expr)
    ensures var s := Decl(name, UINT64, Some(e));
            && StmtNeed(s) == 1 + Need(e) && StmtLost(s) == 1 + Lost(e) && StmtLength(s) == Length(e) + 1
            && (StmtSupported(names, s) <==> Supported(names[name := false], e))
            && BoundAfter(names, s) == names[name := false]
  {
    hide Need, Lost, Length, Supported;
  }

  lemma AssignCounts(names: Names, name: string, e: Expr)
    requires name in names
    ensures var s := Assign(Set, Id(name), e);
            && StmtNeed(s) == Need(e) && StmtLost(s) == Lost(e) && StmtLength(s) == Length(e) + 1
            && (StmtSupported(names, s) <==> Supported(names, e)) && BoundAfter(names, s) == names
  {
    hide Need, Lost, Length, Supported;
  }

  lemma HopNeeds()
    ensures BlockNeed(HOP) == 3 && BlockLost(HOP) == 2 && BlockLength(HOP) <= 11
    ensures BlockSupported(NAMES["i" := false], HOP)
    ensures BoundAfterAll(NAMES["i" := false], HOP) == NAMES["i" := false]["nxt" := false]["cur_off" := false]
  {
    hide Need, Lost, Length, Supported, BlockNeed, BlockLost, BlockLength, BlockSupported, BoundAfterAll, StmtNeed,
         StmtLost, StmtLength, StmtSupported, BoundAfter;
    WalkFacts();
    MaskedFacts();
    var n0 := NAMES["i" := false];
    var (n1, n2) := (n0["nxt" := false], n0["nxt" := false]["cur_off" := false]);
    ElementSupported(n1, 1);
    CastSupported(n2, UINT64_PTR, "cur_off");
    DeclCounts(n0, "nxt", LINK);
    DeclCounts(n1, "cur_off", MASKED);
    AssignCounts(n2, CUR, NEXT);
    Nothing(n2, {}, {});
    assert [HOP[2]] + [] == [HOP[2]];
    NeedCons(n2, HOP[2], []);
    NeedCons(n1, HOP[1], [HOP[2]]);
    NeedCons(n0, HOP[0], [HOP[1]] + [HOP[2]]);
    assert [HOP[0]] + ([HOP[1]] + [HOP[2]]) == HOP;
  }

  lemma ElementSupported(names: Names, k: nat)
    requires CUR in names && names[CUR]
    ensures Supported(names, Index(Id(CUR), Ast.Const(k)))
  {
    assert Supported(names, Ast.Const(k));
  }

  lemma CastSupported(names: Names, ty: CType, name: string)
    requires name in names
    ensures Supported(names, Cast(ty, Id(name)))
  {
    assert Supported(names, Id(name));
  }

  lemma WalkPlain()
    ensures BlockPlainly(SCOPE, SCOPE, WALK.body)
  {
    hide ExprOk, Reads, BlockPlainly, BlockNamesOk;
    WalkFacts();
    ResultFacts();
    HopPlain();
    NameFacts("depth");
    NameFacts("data");
    var r := SCOPE + {"data"};
    Nothing(NAMES, r, r);
    PlainCons(r, r, TAIL[2], []);
    assert [TAIL[2]] + [] == [TAIL[2]];
    PlainCons(r, r, TAIL[1], [TAIL[2]]);
    PlainCons(SCOPE, SCOPE, TAIL[0], [TAIL[1]] + [TAIL[2]]);
    assert [TAIL[0]] + ([TAIL[1]] + [TAIL[2]]) == TAIL;
    assert SCOPE - {"i"} == SCOPE;
    PlainBlockNames(SCOPE + {"i"}, SCOPE, HOP);
    assert Plainly(SCOPE, SCOPE, HOPS);
    PlainCons(SCOPE, SCOPE, HOPS, TAIL);
  }

  lemma HopsCount()
    ensures StmtNeed(HOPS) == 4 && StmtLost(HOPS) == 2 && StmtLength(HOPS) <= 13 && StmtSupported(NAMES, HOPS)
    ensures BoundAfter(NAMES, HOPS) == NAMES["nxt" := false]["cur_off" := false]
  {
    hide Need, Lost, Length, Supported, BlockNeed, BlockLost, BlockLength, BlockSupported, BoundAfterAll;
    HopNeeds();
    NameFacts("depth");
  }

  lemma TailNeeds(names: Names)
    requires CUR in names && names[CUR]
    ensures BlockNeed(TAIL) == 2 && BlockLength(TAIL) <= 20 && BlockSupported(names, TAIL)
  {
    hide Need, Lost, Length, Supported, BlockNeed, BlockLost, BlockLength, BlockSupported, BoundAfterAll;
    WalkFacts();
    ResultFacts();
    NameFacts("data");
    var n2 := names["data" := false];
    ElementSupported(n2, 0);
    DeclCounts(names, "data", DATA);
    Nothing(n2, {}, {});
    assert [TAIL[2]] + [] == [TAIL[2]];
    NeedCons(n2, TAIL[2], []);
    NeedCons(n2, TAIL[1], [TAIL[2]]);
    NeedCons(names, TAIL[0], [TAIL[1]] + [TAIL[2]]);
    assert [TAIL[0]] + ([TAIL[1]] + [TAIL[2]]) == TAIL;
  }

  lemma WalkNeeds()
    ensures BlockNeed(WALK.body) == 4 && BlockLength(WALK.body) <= 100 && BlockSupported(NAMES, WALK.body)
  {
    hide BlockNeed, BlockLost, BlockLength, BlockSupported, BoundAfterAll, StmtNeed, StmtLost, StmtLength,
         StmtSupported, BoundAfter;
    HopsCount();
    TailNeeds(BoundAfter(NAMES, HOPS));
    NeedCons(NAMES, HOPS, TAIL);
  }

  lemma WalkCovered()
    ensures Covered(WALK)
  {
    hide ExplicitBody, BlockPlainly, BlockSupported, BlockNeed, BlockLength, KindOf;
    WordKind();
    TwoParams(CUR, UINT64_PTR, "depth", 0, 0);
    WalkExplicit();
    WalkPlain();
    WalkNeeds();
  }

  // ----- what the walk means -----

  /** The node after one, as the masked link says, and the node after many. */
  function After(mem: Mem, cur: u64): u64 { Bitwise(BAND, Load(mem, (cur + 8) % 0x1_0000_0000_0000_0000), 0x7FFF_FFF8) }

  function Chased(mem: Mem, cur: u64, depth: nat): u64
    decreases depth
  {
    if depth == 0 then cur else Chased(mem, After(mem, cur), depth - 1)
  }

  lemma ElementMeans(k: nat, vars: Vars, mem: Mem)
    requires k <= 1 && CUR in vars
    ensures Eval(Index(Id(CUR), Ast.Const(k)), vars, mem)
         == Ok(Val(Load(mem, (vars[CUR] + 8 * k) % 0x1_0000_0000_0000_0000), mem))
  {
    assert Eval(Ast.Const(k), vars, mem) == Ok(Val(k, mem));
  }

  lemma MaskedMeans(vars: Vars, mem: Mem)
    requires "nxt" in vars
    ensures Eval(MASKED, vars, mem) == Ok(Val(Bitwise(BAND, vars["nxt"], 0x7FFF_FFF8), mem))
  {
    hide Bitwise;
    assert Eval(Id("nxt"), vars, mem) == Ok(Val(vars["nxt"], mem));
    assert Eval(Ast.Const(0x7FFF_FFF8), vars, mem) == Ok(Val(0x7FFF_FFF8, mem));
  }

  lemma CastMeans(ty: CType, name: string, vars: Vars, mem: Mem)
    requires name in vars
    ensures Eval(Cast(ty, Id(name)), vars, mem) == Ok(Val(vars[name], mem))
  {
    assert Eval(Id(name), vars, mem) == Ok(Val(vars[name], mem));
  }

  lemma DeclMeans(params: seq<Param>, name: string, ty: CType, e: Expr, env: Env, v: u64)
    requires Eval(e, env.vars - {name}, env.mem) == Ok(Val(v, env.mem))
    ensures ExecStmt(params, Decl(name, ty, Some(e)), env) == Ok(Done(env.(vars := env.vars[name := v]), false))
  {
    hide Eval;
    assert (env.vars - {name})[name := v] == env.vars[name := v];
  }

  lemma AssignMeans(params: seq<Param>, name: string, e: Expr, env: Env, v: u64)
    requires Eval(e, env.vars, env.mem) == Ok(Val(v, env.mem)) && env.out == map[]
    ensures ExecStmt(params, Assign(Set, Id(name), e), env) == Ok(Done(env.(vars := env.vars[name := v]), false))
  {
    hide Eval, SlotOf;
  }

  /** Executing the first statement of a block, and a block of none. */
  lemma ExecFirst(params: seq<Param>, ss: seq<Stmt>, env: Env, after: Env)
    requires ss != [] && ExecStmt(params, ss[0], env) == Ok(Done(after, false))
    ensures ExecBlock(params, ss, env) == ExecBlock(params, ss[1..], after)
    ensures |ss| == 1 ==> ExecBlock(params, ss, env) == Ok(Done(after, false))
  {
    hide ExecStmt;
  }

  lemma HopMeans(env: Env) returns (after: Env)
    requires CUR in env.vars && env.out == map[]
    ensures ExecBlock(WALK.params, HOP, env) == Ok(Done(after, false))
    ensures after.mem == env.mem && after.out == map[] && CUR in after.vars
    ensures after.vars[CUR] == After(env.mem, env.vars[CUR])
    ensures forall x :: x in env.vars && x !in {CUR, "nxt", "cur_off"} ==>
              x in after.vars && after.vars[x] == env.vars[x]
  {
    hide ExecStmt, ExecBlock, Eval, Bitwise, Load;
    var params := WALK.params;
    var link := Load(env.mem, (env.vars[CUR] as int + 8) % 0x1_0000_0000_0000_0000);
    var env1 := env.(vars := env.vars["nxt" := link]);
    ElementMeans(1, env.vars - {"nxt"}, env.mem);
    DeclMeans(params, "nxt", UINT64, LINK, env, link);
    var next := Bitwise(BAND, link, 0x7FFF_FFF8);
    var env2 := env1.(vars := env1.vars["cur_off" := next]);
    MaskedMeans(env1.vars - {"cur_off"}, env.mem);
    DeclMeans(params, "cur_off", UINT64, MASKED, env1, next);
    after := env2.(vars := env2.vars[CUR := next]);
    CastMeans(UINT64_PTR, "cur_off", env2.vars, env.mem);
    AssignMeans(params, CUR, NEXT, env2, next);
    ExecFirst(params, HOP, env, env1);
    assert HOP[1..] == [HOP[1], HOP[2]];
    ExecFirst(params, [HOP[1], HOP[2]], env1, env2);
    assert [HOP[1], HOP[2]][1..] == [HOP[2]];
    ExecFirst(params, [HOP[2]], env2, after);
  }

  lemma ForEnds(params: seq<Param>, ind: string, bound: Expr, body: seq<Stmt>, n: u64, env: Env)
    requires Eval(bound, env.vars[ind := n], env.mem) == Ok(Val(n, env.mem))
    ensures ExecFor(params, ind, bound, body, n, n, env) == Ok(Done(env.(vars := env.vars - {ind}), false))
  {
    hide Eval, ExecBlock;
  }

  lemma ForGoes(params: seq<Param>, ind: string, bound: Expr, body: seq<Stmt>, k: nat, n: u64, env: Env, after: Env)
    requires k < n && Eval(bound, env.vars[ind := k], env.mem) == Ok(Val(n, env.mem))
    requires ExecBlock(params, body, env.(vars := env.vars[ind := k])) == Ok(Done(after, false))
    requires ind in after.vars && after.vars[ind] == k
    ensures ExecFor(params, ind, bound, body, k, n, env) == ExecFor(params, ind, bound, body, k + 1, n, after)
  {
    hide Eval, ExecBlock;
  }

  lemma {:induction false} HopsMean(k: nat, n: u64, env: Env) returns (after: Env)
    requires k <= n && CUR in env.vars && "depth" in env.vars && env.vars["depth"] == n && env.out == map[]
    ensures ExecFor(WALK.params, "i", Id("depth"), HOP, k, n, env) == Ok(Done(after, false))
    ensures after.mem == env.mem && after.out == map[] && CUR in after.vars
    ensures after.vars[CUR] == Chased(env.mem, env.vars[CUR], n - k)
    decreases n - k
  {
    hide ExecFor, ExecBlock, Eval, After;
    var env1 := env.(vars := env.vars["i" := k]);
    assert Eval(Id("depth"), env1.vars, env.mem) == Ok(Val(n, env.mem)) by { ReadsBack("depth", n, env.mem); }
    if k == n {
      ForEnds(WALK.params, "i", Id("depth"), HOP, n, env);
      after := env.(vars := env.vars - {"i"});
    } else {
      var hopped := HopMeans(env1);
      ForGoes(WALK.params, "i", Id("depth"), HOP, k, n, env, hopped);
      after := HopsMean(k + 1, n, hopped);
    }
  }

  lemma TailMeans(env: Env)
    requires CUR in env.vars && env.out == map[]
    ensures var (r, cur) := (ExecBlock(WALK.params, TAIL, env), env.vars[CUR]);
            && r.Ok? && r.value.env.mem == env.mem && r.value.env.out == map[2 := cur, 1 := Load(env.mem, cur)]
  {
    hide ExecStmt, ExecBlock, Eval, Load;
    var (params, cur) := (WALK.params, env.vars[CUR]);
    var data := Load(env.mem, cur);
    var env1 := env.(vars := env.vars["data" := data]);
    ElementMeans(0, env.vars - {"data"}, env.mem);
    DeclMeans(params, "data", UINT64, DATA, env, data);
    var env2 := env1.(vars := env1.vars - {"depth"}, out := map[2 := cur]);
    assert ExecStmt(params, TAIL[1], env1) == Ok(Done(env2, false)) by { ResultMeans(env1); }
    assert Eval(Id("data"), env2.vars, env.mem) == Ok(Val(data, env.mem)) by { ReadsBack("data", data, env.mem); }
    ExecFirst(params, TAIL, env, env1);
    assert TAIL[1..] == [TAIL[1], TAIL[2]];
    ExecFirst(params, [TAIL[1], TAIL[2]], env1, env2);
    assert [TAIL[1], TAIL[2]][1..] == [TAIL[2]];
    LastReturns(params, TAIL[2], env2, data);
  }

  lemma ResultMeans(env: Env)
    requires CUR in env.vars && env.out == map[]
    ensures ExecStmt(WALK.params, TAIL[1], env)
         == Ok(Done(env.(vars := env.vars - {"depth"}, out := map[2 := env.vars[CUR]]), false))
  {
    hide Eval;
    CastMeans(UINT64, CUR, env.vars, env.mem);
    assert WALK.params[1].name == "depth";
  }

  lemma LastReturns(params: seq<Param>, s: Stmt, env: Env, v: u64)
    requires s.Return? && s.value.Some? && Eval(s.value.value, env.vars, env.mem) == Ok(Val(v, env.mem))
    ensures var r := ExecBlock(params, [s], env);
            r.Ok? && r.value.env.mem == env.mem && r.value.env.out == env.out[1 := v]
  {
    hide Eval;
  }

  lemma WalkMeans(start: u64, depth: u64, mem: Mem)
    ensures var (r, cur) := (RunSource(WALK, [start, depth], mem), Chased(mem, start, depth));
            r.Ok? && r.value.mem == mem && r.value.out == map[2 := cur, 1 := Load(mem, cur)]
  {
    hide ExplicitBody, Bind, ExecStmt, ExecBlock, ExecFor, Load, Chased, Eval, KindOf;
    WordKind();
    TwoParams(CUR, UINT64_PTR, "depth", start, depth);
    WalkExplicit();
    var env := Env(map[CUR := start, "depth" := depth], mem, map[]);
    var after := HopsMean(0, depth, env);
    assert ExecStmt(WALK.params, HOPS, env) == Ok(Done(after, false)) by { ForStarts(env, depth, after); }
    ExecFirst(WALK.params, WALK.body, env, after);
    assert WALK.body[1..] == TAIL;
    TailMeans(after);
  }

  lemma ForStarts(env: Env, n: u64, after: Env)
    requires "depth" in env.vars && env.vars["depth"] == n
    requires ExecFor(WALK.params, "i", Id("depth"), HOP, 0, n, env) == Ok(Done(after, false))
    ensures ExecStmt(WALK.params, HOPS, env) == Ok(Done(after, false))
  {
    hide ExecFor, Eval;
    assert Eval(Id("depth"), env.vars["i" := 0], env.mem) == Ok(Val(n, env.mem)) by { ReadsBack("depth", n, env.mem); }
  }

  /**
   * graph_walk.c, compiled and run: for every start, depth and memory it returns the data of the node the masked links
   * lead to in that many hops, and the node itself, and leaves memory as it was.
   */
  lemma GraphWalkRuns(start: u64, depth: u64, mem: Mem) returns (n: nat)
    ensures Compile(WALK).Ok? && Assemble(Compile(WALK).value).Ok?
    ensures var s := Run(Assemble(Compile(WALK).value).value.words, Reset([start, depth], mem), n);
            && s.status == Returned && s.d.mem == mem && |s.d.result| == 4
            && s.d.result[1] == Chased(mem, start, depth) && s.d.result[0] == Load(mem, Chased(mem, start, depth))
  {
    hide Covered, RunSource, Lowering.Compile, Assemble, Run, Reset, Load, Chased;
    WalkCovered();
    WalkMeans(start, depth, mem);
    n := CoveredMatchesSource(WALK, [start, depth], mem);
    var out := RunSource(WALK, [start, depth], mem).value.out;
    assert 1 in out && 2 in out;
  }
}
