/** Compiled code always resolves: the assembler accepts whatever fits the store and the immediate fields. */
module CompiledAssembles {
  import opened Prelude
  import opened Isa
  import opened Assembler
  import opened Ast
  import opened CodeTree
  import opened CodeWords
  import opened Lowering
  import opened StmtCorrect

  // ----- label names -----

  lemma {:induction false} DecimalInjective(m: nat, n: nat)
    requires Decimal(m) == Decimal(n)
    ensures m == n
  {
    var s, t := Decimal(m), Decimal(n);
    assert s[|s| - 1] == t[|t| - 1];
    assert m % 10 == n % 10;
    if m >= 10 && n >= 10 {
      assert s[..|s| - 1] == Decimal(m / 10) && t[..|t| - 1] == Decimal(n / 10);
      DecimalInjective(m / 10, n / 10);
    } else if m >= 10 {
      DecimalSome(m / 10);
    } else if n >= 10 {
      DecimalSome(n / 10);
    }
  }

  lemma DecimalSome(n: nat)
    ensures Decimal(n) != []
  {
  }

  predicate Prefix(p: string) { p == "for_end" || p == "if_skip" }

  lemma LabelsDiffer(p: string, m: nat, q: string, n: nat)
    requires Prefix(p) && Prefix(q) && m != n
    ensures LabelName(p, m) != LabelName(q, n)
  {
    hide Decimal;
    var s, t := LabelName(p, m), LabelName(q, n);
    assert s[8..] == Decimal(m) && t[8..] == Decimal(n);
    if Decimal(m) == Decimal(n) { DecimalInjective(m, n); }
  }

  // ----- the trees the compiler builds -----

  /** Labels used. */
  function Count(cs: seq<Node>): nat
    decreases cs, 0
  {
    if cs == [] then 0 else CountOne(cs[0]) + Count(cs[1..])
  }

  function CountOne(c: Node): nat
    decreases c, 0
  {
    match c
    case Loop(_, _, body) => 1 + Count(body)
    case Skip(_, _, body) => 1 + Count(body)
    case _ => 0
  }

  /** Labels are numbered from `lo` + 1 in order, loop bodies end with an instruction, instructions are complete. */
  predicate Tidy(cs: seq<Node>, lo: nat)
    decreases cs, 0
  {
    cs == [] || (TidyOne(cs[0], lo) && Tidy(cs[1..], lo + CountOne(cs[0])))
  }

  predicate TidyOne(c: Node, lo: nat)
    decreases c, 0
  {
    match c
    case Ins(i) => Complete(i)
    case Loop(_, end, body) =>
      end == LabelName("for_end", lo + 1) && Tidy(body, lo + 1) && body != [] && body[|body| - 1].Ins?
    case Skip(_, end, body) => end == LabelName("if_skip", lo + 1) && Tidy(body, lo + 1)
    case _ => true
  }

  lemma {:induction false} TidyAppend(x: seq<Node>, y: seq<Node>, lo: nat)
    requires Tidy(x, lo) && Tidy(y, lo + Count(x))
    ensures Tidy(x + y, lo) && Count(x + y) == Count(x) + Count(y)
    decreases |x|
  {
    hide TidyOne, CountOne;
    if x == [] {
      assert x + y == y;
    } else {
      assert (x + y)[1..] == x[1..] + y;
      TidyAppend(x[1..], y, lo + CountOne(x[0]));
    }
  }

  lemma {:induction false} LinearTidy(cs: seq<Node>, lo: nat)
    requires Linear(cs)
    ensures Tidy(cs, lo) && Count(cs) == 0
  {
    if cs != [] {
      assert cs[0] in cs && forall c :: c in cs[1..] ==> c in cs;
      LinearTidy(cs[1..], lo);
      assert CountOne(cs[0]) == 0 && TidyOne(cs[0], lo);
    }
  }

  lemma TidySingle(c: Node, lo: nat)
    requires TidyOne(c, lo)
    ensures Tidy([c], lo) && Count([c]) == CountOne(c)
  {
    assert [c][1..] == [];
  }

  /** What lowering from `a` to `b` does with labels. */
  predicate Labelled(a: Alloc, b: Alloc, code: seq<Node>) {
    Tidy(code, a.labelId) && b.labelId == a.labelId + Count(code)
  }

  lemma {:induction false} StmtTidy(a: Alloc, s: Stmt)
    requires LowerStmt(a, s).Ok?
    ensures Labelled(a, LowerStmt(a, s).value.0, LowerStmt(a, s).value.1)
    decreases s, 1
  {
    hide Lower, MaybeFree, AddLocal, LowerAddr, LowerCall, LowerCondNegated, LowerAssign, Free, Tidy, Count, LabelName;
    var code := LowerStmt(a, s).value.1;
    match s
    case Decl(name, _, init) =>
      AddLocalKeepsLabels(a, name);
      if init.Some? { LowerLinear(AddLocal(a, name).value.0, init.value); }
      LinearTidy(code, a.labelId);
    case Assign(op, lhs, rhs) =>
      AssignLinear(a, lhs, if op.Set? then rhs else Bin(FoldedOp(op), lhs, rhs));
      LinearTidy(code, a.labelId);
    case For(ind, bound, body) =>
      AddLocalKeepsLabels(a, ind);
      var (a1, r) := AddLocal(a, ind).value;
      LowerLinear(a1, bound);
      var n := Lower(a1, bound).value;
      var (a2, end) := Fresh(n.a, "for_end");
      BlockTidy(a2, body);
      LoopTidy(n.code, n.r, a.labelId, LowerBlock(a2, body).value.1, AluImm(ADDI, r, r, 1));
    case If(cond, body) =>
      if cond.Const? && cond.v != 0 {
        BlockTidy(a, body);
      } else {
        CondLinear(a, cond);
        var x := LowerCondNegated(a, cond).value;
        var (a1, skip) := Fresh(x.a, "if_skip");
        BlockTidy(MaybeFree(a1, x.r), body);
        SkipTidy(x.code, x.r, a.labelId, LowerBlock(MaybeFree(a1, x.r), body).value.1);
      }
    case Return(value) =>
      if value.Some? { ReturnTidy(a, value.value); } else { TidySingle(Ret(0), a.labelId); }
    case ExprCall(call) =>
      LowerCallLinear(a, call.fn, call.args);
      LinearTidy(code, a.labelId);
    case IncDec(_, _) => LinearTidy(code, a.labelId);
  }

  lemma AddLocalKeepsLabels(a: Alloc, name: string)
    requires AddLocal(a, name).Ok?
    ensures AddLocal(a, name).value.0.labelId == a.labelId
  {
  }

  lemma LoopTidy(count: seq<Node>, n: reg, lo: nat, body: seq<Node>, step: Instr)
    requires Linear(count) && Tidy(body, lo + 1) && Complete(step)
    ensures var code := count + [Loop(n, LabelName("for_end", lo + 1), body + [Ins(step)])];
            Tidy(code, lo) && Count(code) == 1 + Count(body)
  {
    hide Tidy, Count, LabelName;
    LinearTidy(count, lo);
    TidySingle(Ins(step), lo + 1 + Count(body));
    TidyAppend(body, [Ins(step)], lo + 1);
    TidySingle(Loop(n, LabelName("for_end", lo + 1), body + [Ins(step)]), lo);
    TidyAppend(count, [Loop(n, LabelName("for_end", lo + 1), body + [Ins(step)])], lo);
  }

  lemma SkipTidy(cond: seq<Node>, r: reg, lo: nat, body: seq<Node>)
    requires Linear(cond) && Tidy(body, lo + 1)
    ensures var code := cond + [Skip(r, LabelName("if_skip", lo + 1), body)];
            Tidy(code, lo) && Count(code) == 1 + Count(body)
  {
    hide Tidy, Count, LabelName;
    LinearTidy(cond, lo);
    TidySingle(Skip(r, LabelName("if_skip", lo + 1), body), lo);
    TidyAppend(cond, [Skip(r, LabelName("if_skip", lo + 1), body)], lo);
  }

  lemma ReturnTidy(a: Alloc, e: Expr)
    requires LowerStmt(a, Return(Some(e))).Ok?
    ensures Labelled(a, LowerStmt(a, Return(Some(e))).value.0, LowerStmt(a, Return(Some(e))).value.1)
  {
    hide Lower, MaybeFree, Tidy, Count;
    LowerLinear(a, e);
    var x := Lower(a, e).value;
    var moved := x.code + (if x.r != 1 then [Move(1, x.r)] else []);
    LinearTidy(moved, a.labelId);
    TidySingle(Ret(1), a.labelId);
    TidyAppend(moved, [Ret(1)], a.labelId);
  }

  lemma {:induction false} BlockTidy(a: Alloc, ss: seq<Stmt>)
    requires LowerBlock(a, ss).Ok?
    ensures Labelled(a, LowerBlock(a, ss).value.0, LowerBlock(a, ss).value.1)
    decreases ss, 0
  {
    hide LowerStmt, Tidy, Count;
    if ss == [] {
      LinearTidy([], a.labelId);
    } else {
      var (a1, first) := LowerStmt(a, ss[0]).value;
      StmtTidy(a, ss[0]);
      BlockTidy(a1, ss[1..]);
      TidyAppend(first, LowerBlock(a1, ss[1..]).value.1, a.labelId);
    }
  }

  // ----- labels are distinct -----

  /** `name` is a label numbered in (lo, hi]. */
  predicate Numbered(name: string, lo: nat, hi: nat) {
    exists n :: lo < n <= hi && (name == LabelName("for_end", n) || name == LabelName("if_skip", n))
  }

  lemma NumberedApart(x: string, y: string, lo: nat, m: nat, hi: nat)
    requires Numbered(x, lo, m) && Numbered(y, m, hi)
    ensures x != y
  {
    hide LabelName;
    var i :| lo < i <= m && (x == LabelName("for_end", i) || x == LabelName("if_skip", i));
    var j :| m < j <= hi && (y == LabelName("for_end", j) || y == LabelName("if_skip", j));
    LabelsDiffer("for_end", i, "for_end", j);
    LabelsDiffer("for_end", i, "if_skip", j);
    LabelsDiffer("if_skip", i, "for_end", j);
    LabelsDiffer("if_skip", i, "if_skip", j);
  }

  lemma NumberedWider(x: string, lo: nat, m: nat, n: nat, hi: nat)
    requires Numbered(x, m, n) && lo <= m && n <= hi
    ensures Numbered(x, lo, hi)
  {
    hide LabelName;
  }

  ghost predicate AllNumbered(lines: seq<Line>, lo: nat, hi: nat) {
    forall name :: Label(name) in lines ==> Numbered(name, lo, hi)
  }

  predicate Distinct(lines: seq<Line>) {
    forall i, j :: 0 <= i < j < |lines| && lines[i].Label? && lines[j].Label? ==> lines[i].name != lines[j].name
  }

  lemma DistinctAppend(x: seq<Line>, y: seq<Line>, lo: nat, m: nat, hi: nat)
    requires Distinct(x) && Distinct(y) && AllNumbered(x, lo, m) && AllNumbered(y, m, hi) && lo <= m <= hi
    ensures Distinct(x + y) && AllNumbered(x + y, lo, hi)
  {
    hide Numbered;
    var z := x + y;
    forall i, j | 0 <= i < j < |z| && z[i].Label? && z[j].Label? ensures z[i].name != z[j].name {
      if i < |x| <= j {
        assert Label(x[i].name) in x && Label(y[j - |x|].name) in y;
        NumberedApart(x[i].name, y[j - |x|].name, lo, m, hi);
      }
    }
    forall name | Label(name) in z ensures Numbered(name, lo, hi) {
      if Label(name) in x { NumberedWider(name, lo, lo, m, hi); } else { NumberedWider(name, lo, m, hi, hi); }
    }
  }

  lemma {:induction false} TidyDistinct(cs: seq<Node>, lo: nat)
    requires Tidy(cs, lo)
    ensures Distinct(Flatten(cs)) && AllNumbered(Flatten(cs), lo, lo + Count(cs))
    decreases cs, 1
  {
    hide FlattenOne, TidyOne, CountOne, Numbered, AllNumbered, Distinct;
    if cs == [] {
      NoLines(lo);
    } else {
      OneDistinct(cs[0], lo);
      TidyDistinct(cs[1..], lo + CountOne(cs[0]));
      DistinctAppend(FlattenOne(cs[0]), Flatten(cs[1..]), lo, lo + CountOne(cs[0]), lo + Count(cs));
    }
  }

  lemma NoLines(lo: nat)
    ensures Distinct([]) && AllNumbered([], lo, lo)
  {
  }

  lemma {:induction false} OneDistinct(c: Node, lo: nat)
    requires TidyOne(c, lo)
    ensures Distinct(FlattenOne(c)) && AllNumbered(FlattenOne(c), lo, lo + CountOne(c))
    decreases c, 0
  {
    hide Numbered, LabelName, Tidy, Count, Flatten;
    if c.Loop? || c.Skip? {
      TidyDistinct(c.body, lo + 1);
      BracketDistinct(FlattenOne(c)[0], Flatten(c.body), c.end, lo, lo + CountOne(c));
    }
  }

  lemma BracketDistinct(head: Line, body: seq<Line>, end: string, lo: nat, hi: nat)
    requires !head.Label? && Distinct(body) && lo + 1 <= hi && AllNumbered(body, lo + 1, hi)
    requires end == LabelName("for_end", lo + 1) || end == LabelName("if_skip", lo + 1)
    ensures Distinct([head] + body + [Label(end)]) && AllNumbered([head] + body + [Label(end)], lo, hi)
  {
    hide LabelName;
    assert Numbered(end, lo, lo + 1);
    assert [Label(end)][0] == Label(end);
    var z := [head] + body + [Label(end)];
    forall i, j | 0 <= i < j < |z| && z[i].Label? && z[j].Label? ensures z[i].name != z[j].name {
      assert z[i] == body[i - 1] && Label(body[i - 1].name) in body;
      if j <= |body| {
        assert z[j] == body[j - 1];
      } else {
        NumberedApart(end, z[i].name, lo, lo + 1, hi);
      }
    }
    forall name | Label(name) in z ensures Numbered(name, lo, hi) {
      if Label(name) in body {
        NumberedWider(name, lo, lo + 1, hi, hi);
      } else {
        NumberedWider(name, lo, lo, lo + 1, hi);
      }
    }
  }

  // ----- every line assembles -----

  /** A line the assembler's encoder accepts. */
  predicate LineFits(line: Line) { !line.Malformed? && (line.Op? ==> EncodableImm(line.instr.imm)) }

  /** An instruction line is complete, or a JUMP or LOOP whose label stands far enough after it. */
  predicate Resolves(lines: seq<Line>, k: nat)
    requires k < |lines|
  {
    lines[k].Op? ==>
      var i := lines[k].instr;
      match lines[k].ref
      case None => Complete(i) || i.op.RET?
      case Some(name) =>
        && (i.op.JUMP? || i.op.LOOP?)
        && exists j :: k < j < |lines| && lines[j] == Label(name)
             && Size(lines[..j]) > Size(lines[..k]) + (if i.op.LOOP? then 1 else 0)
  }

  lemma {:induction false} OneResolves(lines: seq<Line>, k: nat, c: Node, lo: nat)
    requires StandsAt(lines, k, FlattenOne(c)) && TidyOne(c, lo)
    ensures forall i :: k <= i < k + |FlattenOne(c)| ==> Resolves(lines, i)
    decreases c, 0
  {
    hide Size, Flatten, Complete, LabelName, Tidy;
    NodeLines(lines, k, c);
    if c.Loop? || c.Skip? {
      TreeResolves(lines, k + 1, c.body, lo + 1);
      var n := |Flatten(c.body)|;
      OpSize(lines, k);
      BodySize(lines, k + 1, c.body);
      if c.Loop? { LastIns(lines, k + 1, c.body); }
      forall i | k <= i < k + |FlattenOne(c)| ensures Resolves(lines, i) {
        if i == k { assert lines[k + 1 + n] == Label(c.end); }
      }
    }
  }

  lemma BodySize(lines: seq<Line>, k: nat, body: seq<Node>)
    requires StandsAt(lines, k, Flatten(body))
    ensures Size(lines[..k + |Flatten(body)|]) >= Size(lines[..k])
  {
    hide Flatten;
    SizeAt(lines, k, Flatten(body));
  }

  /** A body that ends with an instruction takes a word. */
  lemma LastIns(lines: seq<Line>, k: nat, body: seq<Node>)
    requires StandsAt(lines, k, Flatten(body)) && body != [] && body[|body| - 1].Ins?
    ensures Size(lines[..k + |Flatten(body)|]) > Size(lines[..k])
  {
    hide Flatten, FlattenOne, Size;
    var n := |body| - 1;
    var line := Line.Op(body[n].i, None);
    assert body == body[..n] + [body[n]];
    FlattenAppend(body[..n], [body[n]]);
    FlattenIns(body[n].i);
    SizeAt(lines, k, Flatten(body));
    SizeAppend(Flatten(body[..n]), [line]);
    SizeOne(line);
  }

  lemma {:induction false} TreeResolves(lines: seq<Line>, k: nat, cs: seq<Node>, lo: nat)
    requires StandsAt(lines, k, Flatten(cs)) && Tidy(cs, lo)
    ensures forall i :: k <= i < k + |Flatten(cs)| ==> Resolves(lines, i)
    decreases cs, 1
  {
    hide FlattenOne, TidyOne, CountOne, Resolves;
    if cs != [] {
      var first := FlattenOne(cs[0]);
      StandsSplit(lines, k, first, Flatten(cs[1..]));
      OneResolves(lines, k, cs[0], lo);
      TreeResolves(lines, k + |first|, cs[1..], lo + CountOne(cs[0]));
    }
  }

  // ----- the assembler accepts -----

  lemma {:induction false} LaysOut(lines: seq<Line>)
    requires Distinct(lines) && forall k :: 0 <= k < |lines| ==> !lines[k].Malformed?
    ensures LayOut(lines).Ok?
  {
    if lines != [] {
      var n := |lines| - 1;
      LaysOut(lines[..n]);
      LabelsAreOffsets(lines[..n]);
      assert forall k :: 0 <= k < n ==> lines[..n][k] == lines[k];
    }
  }

  lemma {:induction false} Emits(pendings: seq<Pending>, labels: map<string, nat>)
    requires forall p :: p in pendings ==> Patch(p, labels).Ok? && Encode(Patch(p, labels).value).Ok?
    ensures Emit(pendings, labels).Ok?
  {
    hide Patch, Encode;
    if pendings != [] {
      var n := |pendings| - 1;
      assert pendings[n] in pendings && forall p :: p in pendings[..n] ==> p in pendings;
      Emits(pendings[..n], labels);
    }
  }

  lemma EncodesIff(i: Instr)
    requires Complete(i) || (!TwoWord(i.op) && !i.op.ILLEGAL?)
    ensures Encode(i).Ok? <==> EncodableImm(i.imm)
  {
  }

  lemma PendingFits(lines: seq<Line>, p: Pending)
    requires LayOut(lines).Ok? && p in LayOut(lines).value.pendings && Size(lines) <= INSTR_STORE_DEPTH
    requires forall k :: 0 <= k < |lines| ==> LineFits(lines[k]) && Resolves(lines, k)
    ensures var labels := LayOut(lines).value.labels; Patch(p, labels).Ok? && Encode(Patch(p, labels).value).Ok?
  {
    hide LayOut, Encode, Size;
    var k := PendingFromLine(lines, p);
    assert LineFits(lines[k]) && Resolves(lines, k);
    LabelsAreOffsets(lines);
    if p.ref.Some? {
      var j :| k < j < |lines| && lines[j] == Label(p.ref.value)
        && Size(lines[..j]) > Size(lines[..k]) + (if p.instr.op.LOOP? then 1 else 0);
      SizeMonotone(lines, j);
      EncodesIff(Patch(p, LayOut(lines).value.labels).value);
    } else {
      EncodesIff(p.instr);
    }
  }

  lemma AssemblesWhenFits(lines: seq<Line>)
    requires Distinct(lines) && Size(lines) <= INSTR_STORE_DEPTH
    requires forall k :: 0 <= k < |lines| ==> LineFits(lines[k]) && Resolves(lines, k)
    ensures Assemble(lines).Ok?
  {
    hide Patch, Encode, Emit, LayOut, Resolves, Size;
    assert forall k :: 0 <= k < |lines| ==> !lines[k].Malformed? by {
      forall k | 0 <= k < |lines| ensures !lines[k].Malformed? { assert LineFits(lines[k]); }
    }
    LaysOut(lines);
    LabelsAreOffsets(lines);
    var l := LayOut(lines).value;
    forall p | p in l.pendings ensures Patch(p, l.labels).Ok? && Encode(Patch(p, l.labels).value).Ok? {
      PendingFits(lines, p);
    }
    Emits(l.pendings, l.labels);
  }

  lemma FitsWhenAssembles(lines: seq<Line>, k: nat)
    requires Assemble(lines).Ok? && k < |lines| && Resolves(lines, k)
    requires lines[k].Op? && lines[k].ref.Some? ==> lines[k].instr.imm == 0
    ensures LineFits(lines[k])
  {
    hide LayOut, Emit, Size, Encode;
    NoBad(lines, k);
    if lines[k].Op? && lines[k].ref.None? {
      OpLinePlaced(lines, k);
      EncodesIff(lines[k].instr);
    }
  }

  lemma {:induction false} ControlImmZero(cs: seq<Node>, line: Line)
    requires line in Flatten(cs) && line.Op? && line.ref.Some?
    ensures line.instr.imm == 0
    decreases cs
  {
    var c, rest := cs[0], cs[1..];
    if line in Flatten(rest) {
      ControlImmZero(rest, line);
    } else if (c.Loop? || c.Skip?) && line in Flatten(c.body) {
      ControlImmZero(c.body, line);
    }
  }

  lemma FunctionTidy(fn: FuncDef)
    requires LowerFunction(fn).Ok?
    ensures AddArgs(fn.params).Ok? && Tidy(LowerFunction(fn).value, AddArgs(fn.params).value.labelId)
  {
    hide LowerBlock, Tidy, Count;
    var a := AddArgs(fn.params).value;
    BlockTidy(a, fn.body);
    var code := LowerBlock(a, fn.body).value.1;
    TidySingle(Ret(0), a.labelId + Count(code));
    TidyAppend(code, [Ret(0)], a.labelId);
  }

  /**
   * The assembler accepts compiled code exactly when it fits: at most 1024 words, every immediate encodable, no
   * negative `tiara_andi` mask.  Labels are never a reason to refuse it.
   */
  lemma CompiledAssemblesIff(fn: FuncDef)
    requires Compile(fn).Ok?
    ensures var lines := Compile(fn).value;
            Assemble(lines).Ok? <==>
              Size(lines) <= INSTR_STORE_DEPTH && forall k :: 0 <= k < |lines| ==> LineFits(lines[k])
  {
    hide LowerFunction, Flatten, Assemble, LineFits, Resolves, Size, Distinct, SweepExact, ReferencesExact, LabelsExact,
         Tidy;
    var lines, code := Compile(fn).value, LowerFunction(fn).value;
    FunctionTidy(fn);
    var lo := AddArgs(fn.params).value.labelId;
    TidyDistinct(code, lo);
    assert lines[0..|lines|] == lines;
    TreeResolves(lines, 0, code, lo);
    if Assemble(lines).Ok? {
      AssembledProgram(lines);
      forall k | 0 <= k < |lines| ensures LineFits(lines[k]) {
        if lines[k].Op? && lines[k].ref.Some? { ControlImmZero(code, lines[k]); }
        FitsWhenAssembles(lines, k);
      }
    }
    if Size(lines) <= INSTR_STORE_DEPTH && forall k :: 0 <= k < |lines| ==> LineFits(lines[k]) {
      AssemblesWhenFits(lines);
    }
  }
}
