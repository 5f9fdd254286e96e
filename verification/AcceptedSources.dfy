/**
 * Sources from tokens or trees to the machine's results: every operator of the subset, and the shipped C examples.
 */
module AcceptedSources {
  import opened Prelude
  import opened Machine
  import opened Assembler
  import opened Ast
  import opened Conversions
  import opened Lowering
  import opened Source
  import opened Parser
  import opened ParserCorrect
  import opened StmtRules
  import opened CompilerCorrect
  import opened CompiledBound
  import opened RegisterNeed
  import opened CompilerAccepts
  import opened CompilerBuilds
  import opened CompilerLimits
  import opened CompilerDepartures
  import LoopDepartures

  // ----- one operator -----

  const TWO_WORDS := [Param("p", UINT64), Param("q", UINT64)]

  /** f(p, q) { return e; } */
  function Returning(e: Expr): FuncDef { FuncDef(TWO_WORDS, [Return(Some(e))]) }

  const P := Id("p")

  const Q := Id("q")

  const KINDS: Kinds := map["p" := Kind.Word, "q" := Kind.Word]

  lemma TwoWords(x: u64, y: u64)
    ensures Bind(TWO_WORDS, [x, y]) == map["p" := x, "q" := y] && ParamKinds(TWO_WORDS) == Ok(KINDS)
    ensures ParamsBound(TWO_WORDS) == map["p" := false, "q" := false]
    ensures ParamNames(TWO_WORDS) == {"p", "q"}
    ensures SlotOf(TWO_WORDS, "p") == 1 && SlotOf(TWO_WORDS, "q") == 2
  {
    var one := TWO_WORDS[..1];
    assert one == [TWO_WORDS[0]] && one[..0] == [];
    OneParam("p", UINT64, x);
    assert UINT64.names[0] == "uint64_t" && KindOf(UINT64) == Ok(Kind.Word);
    BindPrefix(one, [x], [x, y]);
    assert ParamsBound(one) == map["p" := false];
    assert SlotOf(one, "p") == 1;
    assert TWO_WORDS[0].name == "p" && TWO_WORDS[1].name == "q";
  }

  /** A function that returns a supported expression it reads as it stands. */
  lemma ReturnCovered(e: Expr)
    requires Explicit(KINDS, e).Ok? && Explicit(KINDS, e).value.e == e
    requires ExprFine(e, {"p", "q"}) && Supported(map["p" := false, "q" := false], e)
    requires Need(e) <= 7 && Length(e) <= 1000
    ensures Covered(Returning(e))
  {
    hide Explicit, ExprFine, Supported, Need, Length, ParamKinds;
    TwoWords(0, 0);
    var fn := Returning(e);
    assert ExplicitBlock(KINDS, []) == Ok([]);
    NoConversion(KINDS, KINDS, fn.body[0], []);
    assert [fn.body[0]] + [] == fn.body;
    assert fn.body[1..] == [];
    assert NamesOk({"p", "q"}, fn.body[0]) by { FineReads(e, {"p", "q"}); }
    assert BlockPlainly({"p", "q"}, {"p", "q"}, fn.body) by {
      assert BlockPlainly({"p", "q"}, {"p", "q"}, []);
      assert Plainly({"p", "q"}, {"p", "q"}, fn.body[0]);
    }
    assert BlockSupported(map["p" := false, "q" := false], fn.body) by {
      assert BlockSupported(map["p" := false, "q" := false], []);
    }
    assert BlockNeed(fn.body) == Need(e) by {
      assert BlockNeed([]) == 0;
      LeftNeeded(map["p" := false, "q" := false], e);
    }
    assert BlockLength(fn.body) == Length(e) + 2 by { assert BlockLength([]) == 0; }
  }

  lemma FineReads(e: Expr, names: set<string>)
    requires ExprFine(e, names)
    ensures Reads(e) <= names
  {
  }

  lemma ReturnMeans(e: Expr, x: u64, y: u64, mem: Mem, v: u64)
    requires ExplicitBody(Returning(e)) == Ok(Returning(e).body)
    requires Eval(e, map["p" := x, "q" := y], mem) == Ok(Val(v, mem))
    ensures RunSource(Returning(e), [x, y], mem).Ok?
    ensures RunSource(Returning(e), [x, y], mem).value.out == map[1 := v]
  {
    hide ExplicitBody, Eval, Bind;
    TwoWords(x, y);
    var fn := Returning(e);
    var env := Env(map["p" := x, "q" := y], mem, map[]);
    assert ExecStmt(fn.params, fn.body[0], env).value.env.out == map[1 := v];
    SingleStatement(fn, fn.body[0], [x, y], mem);
  }

  lemma ReturnRuns(e: Expr, x: u64, y: u64, mem: Mem, v: u64) returns (n: nat)
    requires Covered(Returning(e)) && Eval(e, map["p" := x, "q" := y], mem) == Ok(Val(v, mem))
    ensures var fn := Returning(e);
            && Compile(fn).Ok? && Assemble(Compile(fn).value).Ok?
            && var s := Run(Assemble(Compile(fn).value).value.words, Reset([x, y], mem), n);
               s.status == Returned && |s.d.result| == 4 && s.d.result[0] == v
  {
    hide Eval, RunSource, Lowering.Compile, Assemble, Run, Reset, ExplicitBody, BlockPlainly, BlockSupported, BlockNeed,
         BlockLength;
    ReturnMeans(e, x, y, mem, v);
    n := CoveredMatchesSource(Returning(e), [x, y], mem);
    assert 1 in RunSource(Returning(e), [x, y], mem).value.out;
  }

  lemma ReturnExplicit(e: Expr)
    requires Explicit(KINDS, e).Ok? && Explicit(KINDS, e).value.e == e
    ensures ExplicitBody(Returning(e)) == Ok(Returning(e).body)
  {
    hide Explicit, ParamKinds;
    TwoWords(0, 0);
    var fn := Returning(e);
    assert ExplicitBlock(KINDS, []) == Ok([]);
    NoConversion(KINDS, KINDS, fn.body[0], []);
    assert [fn.body[0]] + [] == fn.body;
  }

  lemma ReturnFails(e: Expr, x: u64, y: u64, mem: Mem)
    requires Eval(e, map["p" := x, "q" := y], mem).Err?
    requires ExplicitBody(Returning(e)) == Ok(Returning(e).body)
    ensures RunSource(Returning(e), [x, y], mem).Err?
  {
    hide ExplicitBody, Eval, Bind, ExecBlock;
    TwoWords(x, y);
    var fn := Returning(e);
    LoopDepartures.BlockFails(TWO_WORDS, fn.body, Env(map["p" := x, "q" := y], mem, map[]));
  }

  lemma ReturnCompiles(e: Expr)
    requires Need(e) <= 7
    ensures Compile(Returning(e)).Ok? <==> Supported(map["p" := false, "q" := false], e)
  {
    hide Lowering.Compile, Need, Lost, Supported;
    var (fn, names) := (Returning(e), map["p" := false, "q" := false]);
    TwoWords(0, 0);
    assert fn.body[1..] == [];
    assert AllBoundsStay(fn.body);
    CompilesIff(fn);
    if Supported(names, e) { LeftNeeded(names, e); }
    assert BlockNeed([]) == 0;
    assert BlockSupported(names, []);
    assert BlockSupported(names, fn.body) <==> Supported(names, e);
  }

  // ----- all operators, from their tokens -----

  /** The value of `p text q` in C on 64-bit words, the shift amount taken mod 64; division by zero has none. */
  function Value(text: string, x: u64, y: u64): Option<u64> {
    match text
    case "+" => Some((x + y) % 0x1_0000_0000_0000_0000)
    case "-" => Some((x - y) % 0x1_0000_0000_0000_0000)
    case "*" => Some((x * y) % 0x1_0000_0000_0000_0000)
    case "/" => if y == 0 then None else Some(Floored(x, y))
    case "%" => if y == 0 then None else Some(x % y)
    case "&" => Some(Bitwise(BAND, x, y))
    case "|" => Some(Bitwise(BOR, x, y))
    case "^" => Some(Bitwise(BXOR, x, y))
    case "<<" => Some((x * Pow2(y % 64)) % 0x1_0000_0000_0000_0000)
    case ">>" => Some(Floored(x, Pow2(y % 64)))
    case "==" => Some(if x == y then 1 else 0)
    case "!=" => Some(if x == y then 0 else 1)
    case "<" => Some(if x < y then 1 else 0)
    case ">" => Some(if y < x then 1 else 0)
    case "<=" => Some(if y < x then 0 else 1)
    case _ => Some(if x < y then 0 else 1)
  }

  function Floored(x: u64, d: nat): u64
    requires d > 0
  {
    QuotientFits(x, d);
    x / d
  }

  predicate IsOperator(text: string) {
    IsCompiled(text) || text in {"!=", "<=", ">", "/", "%"}
  }

  /** The operators the compiler has an instruction for. */
  predicate IsCompiled(text: string) { text in {"+", "-", "*", "&", "|", "^", "<<", ">>", "==", "<", ">="} }

  lemma OperatorMeans(text: string, op: BinOp, x: u64, y: u64, mem: Mem)
    requires BinOpOf(Punct(text)) == Some(op) && IsOperator(text)
    ensures Operator(op) <==> IsCompiled(text)
    ensures var (r, v) := (Eval(Bin(op, P, Q), map["p" := x, "q" := y], mem), Value(text, x, y));
            r == if v.Some? then Ok(Val(v.value, mem)) else Err
  {
    hide Bitwise, Pow2;
    HalveIs(x, y % 64);
    var vars: Vars := map["p" := x, "q" := y];
    assert Eval(P, vars, mem) == Ok(Val(x, mem)) && Eval(Q, vars, mem) == Ok(Val(y, mem));
  }

  lemma OperatorFacts(op: BinOp)
    ensures var e := Bin(op, P, Q);
            && Explicit(KINDS, e).Ok? && Explicit(KINDS, e).value.e == e
            && Need(e) == 1 && Length(e) == 1
            && (Operator(op) ==> ExprFine(e, {"p", "q"}))
            && (Supported(map["p" := false, "q" := false], e) <==> Operator(op))
  {
    assert Explicit(KINDS, P) == Ok(Typed(P, Kind.Word)) && Explicit(KINDS, Q) == Ok(Typed(Q, Kind.Word));
    assert Reads(P) == {"p"} && Reads(Q) == {"q"};
    assert Need(P) == Need(Q) == 0 && Length(P) == Length(Q) == 0;
    assert TryConst(Q).None? && !Constant(Q);
  }

  lemma OperatorParses(text: string, op: BinOp)
    requires BinOpOf(Punct(text)) == Some(op)
    ensures ParseBin([Token.Word("p"), Punct(text), Token.Word("q"), Eof], 0, 0) == Ok((Bin(op, P, Q), 3))
  {
    var toks := [Token.Word("p"), Punct(text), Token.Word("q"), Eof];
    NameParses(toks, 0, "p");
    NameParses(toks, 2, "q");
    assert Climb(toks, 3, Level(toks[1]) + 1, Q) == Ok((Q, 3));
    assert ParseBin(toks, 2, Level(toks[1]) + 1) == Ok((Q, 3));
    assert Climb(toks, 3, 0, Bin(op, P, Q)) == Ok((Bin(op, P, Q), 3));
  }

  lemma NameParses(toks: seq<Token>, pos: nat, name: string)
    requires Lexed(toks) && pos + 1 < |toks| && toks[pos] == Token.Word(name) && NoSuffix(toks[pos + 1])
    ensures ParseUnary(toks, pos) == Ok((Id(name), pos + 1))
  {
    var s := SName(name);
    assert Show(s) == [Token.Word(name)] && toks[pos..pos + 1] == [toks[pos]];
    UnaryParses(toks, pos, s);
  }

  /** What a returned expression comes to: in the interpreter, in the compiler, and on the machine. */
  ghost predicate ComesTo(e: Expr, x: u64, y: u64, mem: Mem, value: Option<u64>, compiled: bool, n: nat) {
    var (fn, r) := (Returning(e), RunSource(Returning(e), [x, y], mem));
    && (r.Ok? <==> value.Some?) && (r.Ok? ==> r.value.out == map[1 := value.value])
    && (Compile(fn).Ok? <==> compiled)
    && (compiled && value.Some? ==> ReturnsValue(fn, x, y, mem, value.value, n))
  }

  ghost predicate ReturnsValue(fn: FuncDef, x: u64, y: u64, mem: Mem, v: u64, n: nat)
    requires Compile(fn).Ok?
  {
    && Assemble(Compile(fn).value).Ok?
    && var s := Run(Assemble(Compile(fn).value).value.words, Reset([x, y], mem), n);
       s.status == Returned && |s.d.result| == 4 && s.d.result[0] == v
  }

  lemma Comes(e: Expr, x: u64, y: u64, mem: Mem, value: Option<u64>, compiled: bool) returns (n: nat)
    requires Explicit(KINDS, e).Ok? && Explicit(KINDS, e).value.e == e && Need(e) <= 7 && Length(e) <= 1000
    requires compiled ==> ExprFine(e, {"p", "q"})
    requires Supported(map["p" := false, "q" := false], e) <==> compiled
    requires Eval(e, map["p" := x, "q" := y], mem) == if value.Some? then Ok(Val(value.value, mem)) else Err
    ensures ComesTo(e, x, y, mem, value, compiled, n)
  {
    hide Explicit, Need, Length, ExprFine, Supported, Eval, Covered, RunSource, Lowering.Compile, Assemble, Run, Reset,
         ExplicitBody;
    ReturnExplicit(e);
    ReturnCompiles(e);
    if value.Some? { ReturnMeans(e, x, y, mem, value.value); } else { ReturnFails(e, x, y, mem); }
    n := 0;
    if compiled && value.Some? {
      ReturnCovered(e);
      n := ReturnRuns(e, x, y, mem, value.value);
    }
  }

  /**
   * Each of the sixteen binary operators, from its token to the result of the run: `return p text q;` means what C
   * says, compiles exactly when the operator is one of the eleven, and then returns that value.
   */
  lemma OperatorsEndToEnd(text: string, x: u64, y: u64, mem: Mem) returns (n: nat)
    requires IsOperator(text)
    ensures var parsed := ParseBin([Token.Word("p"), Punct(text), Token.Word("q"), Eof], 0, 0);
            && parsed.Ok? && parsed.value.1 == 3
            && ComesTo(parsed.value.0, x, y, mem, Value(text, x, y), IsCompiled(text), n)
  {
    hide ParseBin, Eval, Value, Explicit, Need, Length, ExprFine, Supported, ComesTo;
    assert BinOpOf(Punct(text)).Some?;
    var op := BinOpOf(Punct(text)).value;
    OperatorParses(text, op);
    OperatorMeans(text, op, x, y, mem);
    OperatorFacts(op);
    n := Comes(Bin(op, P, Q), x, y, mem, Value(text, x, y), IsCompiled(text));
  }

  // ----- unary operators -----

  /** The value of `text p` in C on a 64-bit word. */
  function UnaryValue(text: string, x: u64): u64 {
    match text
    case "-" => if x == 0 then 0 else 0x1_0000_0000_0000_0000 - x
    case "!" => if x == 0 then 1 else 0
    case "~" => 0xFFFF_FFFF_FFFF_FFFF - x
    case _ => x
  }

  lemma UnaryFacts(op: UnOp)
    ensures var e := Un(op, P);
            && Explicit(KINDS, e).Ok? && Explicit(KINDS, e).value.e == e && Need(e) == 1 && Length(e) == 1
            && ExprFine(e, {"p", "q"}) && (Supported(map["p" := false, "q" := false], e) <==> !op.Complement?)
  {
    assert Explicit(KINDS, P) == Ok(Typed(P, Kind.Word));
    assert Reads(P) == {"p"} && Need(P) == 0 && Length(P) == 0;
  }

  lemma NameFacts()
    ensures Explicit(KINDS, P).Ok? && Explicit(KINDS, P).value.e == P && Need(P) == 0 && Length(P) == 0
    ensures ExprFine(P, {"p", "q"}) && Supported(map["p" := false, "q" := false], P)
  {
    assert Reads(P) == {"p"};
  }

  lemma SignParses(text: string)
    requires text in {"+", "-", "!", "~"}
    ensures var r := ParseBin([Punct(text), Token.Word("p"), Eof], 0, 0);
            r == Ok((if text == "+" then P else Un(UnOpOf(Punct(text)).value, P), 2))
  {
    var toks := [Punct(text), Token.Word("p"), Eof];
    NameParses(toks, 1, "p");
    assert ParseUnary(toks, 0) == Ok((if text == "+" then P else Un(UnOpOf(Punct(text)).value, P), 2));
  }

  /** The unary operators likewise; only `~` is refused. */
  lemma UnaryEndToEnd(text: string, x: u64, mem: Mem) returns (n: nat)
    requires text in {"+", "-", "!", "~"}
    ensures var parsed := ParseBin([Punct(text), Token.Word("p"), Eof], 0, 0);
            && parsed.Ok? && parsed.value.1 == 2
            && ComesTo(parsed.value.0, x, 0, mem, Some(UnaryValue(text, x)), text != "~", n)
  {
    hide ParseBin, Explicit, Need, Length, ExprFine, Supported, ComesTo;
    SignParses(text);
    var vars: Vars := map["p" := x, "q" := 0];
    assert Eval(P, vars, mem) == Ok(Val(x, mem));
    if text == "+" {
      NameFacts();
      n := Comes(P, x, 0, mem, Some(UnaryValue(text, x)), true);
    } else {
      var op := UnOpOf(Punct(text)).value;
      UnaryFacts(op);
      assert op.Complement? <==> text == "~";
      n := Comes(Un(op, P), x, 0, mem, Some(UnaryValue(text, x)), text != "~");
    }
  }

  // ----- why loops must not count to a name their body binds again -----

  lemma {:induction false} ShadowedNeeds(k: nat)
    ensures BlockNeed(Shadowed(k)) >= k
  {
    hide Need, Lost, StmtNeed, StmtLost;
    if k > 0 {
      var middle := For("j", Id("m"), [For("m", Id("n"), [])]);
      var body := [middle] + Shadowed(k - 1);
      ShadowedNeeds(k - 1);
      assert body[1..] == Shadowed(k - 1);
      assert BlockNeed(body) >= BlockNeed(Shadowed(k - 1));
      LoopNeeds("m", Id("n"), body);
    }
  }

  lemma LoopNeeds(ind: string, bound: Expr, body: seq<Stmt>)
    ensures BlockNeed([For(ind, bound, body)]) >= 1 + BlockNeed(body)
  {
    hide Need, Left;
    assert StmtNeed(For(ind, bound, body)) >= 1 + BlockNeed(body);
  }

  /** With shadowing the count is wrong: for every k from 8 to 170 a source that needs more than seven compiles. */
  lemma ShadowingNeedsLess(k: nat)
    requires 8 <= k <= 170
    ensures var fn := FuncDef([Param("n", UINT64)], Shadowed(k));
            Compile(fn).Ok? && BlockNeed(fn.body) > 7 && !AllBoundsStay(fn.body)
  {
    hide Lowering.Compile, Shadowed, BlockNeed, AllBoundsStay;
    var fn := FuncDef([Param("n", UINT64)], Shadowed(k));
    ShadowingNestsDeeper(k);
    ShadowedNeeds(k);
    if AllBoundsStay(fn.body) { CompilesIff(fn); }
  }

  // ----- a loop the verifier bounds -----

  /** f(s, n) { for (i < n) { s++; } return s; } */
  const COUNTS_UP := FuncDef(
    [Param("s", UINT64), Param("n", UINT64)],
    [For("i", Id("n"), [IncDec("s", 1)]), Return(Some(Id("s")))])

  lemma CountsUpCounted()
    ensures LoopsCounted(COUNTS_UP)
  {
    var (params, loop, ret) := (COUNTS_UP.params, COUNTS_UP.body[0], COUNTS_UP.body[1]);
    assert SlotOf(params, "n") == 2;
    assert params[..1] == [params[0]];
    assert SlotOf(params[..1], "s") == 1;
    assert SlotOf(params, "s") == 1;
    assert ParamNames(params) == {"s", "n"} by {
      assert params[0].name == "s" && params[1].name == "n";
    }
    var inner := [IncDec("s", 1)];
    assert inner[1..] == [] && COUNTS_UP.body[1..] == [ret] && [ret][1..] == [];
    assert SetByAll(params, inner) == {1};
    assert SetByAll(params, [ret]) == {1};
    assert SetBy(params, loop) == {1} by { assert SlotsIn(Id("n")) == {}; }
    assert SetByAll(params, COUNTS_UP.body) == {1};
    var kept := {1, 2, 3, 4, 5, 6, 7, 8} - {1};
    assert AllCountTo(params, kept, inner) && AllCountTo(params, kept, [ret]);
    assert BlockNamesOk({"s", "n", "i"}, inner) && BlockNamesOk({"s", "n"}, [ret]) by {
      assert BlockNamesOk({"s", "n", "i"}, []) && BlockNamesOk({"s", "n"}, []);
      assert Reads(Id("s")) == {"s"};
    }
    assert {"s", "n"} + {"i"} == {"s", "n", "i"} && Reads(Id("n")) == {"n"};
  }
}
