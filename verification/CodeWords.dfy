/** Assembling a flattened tree gives a well-nested program that does what the tree does. */
module CodeWords {
  import opened Prelude
  import opened Isa
  import opened Machine
  import opened Structured
  import opened LoopShape
  import opened Assembler
  import opened CodeTree

  // ----- placing lines -----

  lemma {:induction false} PendingOfLine(lines: seq<Line>, k: nat)
    requires LayOut(lines).Ok? && k < |lines| && lines[k].Op?
    ensures Pending(lines[k].instr, lines[k].ref, Size(lines[..k])) in LayOut(lines).value.pendings
  {
    var n := |lines| - 1;
    if k < n {
      PendingOfLine(lines[..n], k);
      assert lines[..n][..k] == lines[..k];
    } else {
      LabelsAreOffsets(lines[..n]);
    }
  }

  lemma {:induction false} PendingFromLine(lines: seq<Line>, p: Pending) returns (k: nat)
    requires LayOut(lines).Ok? && p in LayOut(lines).value.pendings
    ensures k < |lines| && lines[k] == Line.Op(p.instr, p.ref) && p.pc == Size(lines[..k])
  {
    var n := |lines| - 1;
    if p in LayOut(lines[..n]).value.pendings {
      k := PendingFromLine(lines[..n], p);
      assert lines[..n][..k] == lines[..k];
    } else {
      k := n;
      LabelsAreOffsets(lines[..n]);
    }
  }

  /** An instruction line is encoded, patched, at the size of the lines before it. */
  lemma OpLinePlaced(lines: seq<Line>, k: nat)
    requires Assemble(lines).Ok? && k < |lines| && lines[k].Op?
    ensures var prog, p := Assemble(lines).value, Pending(lines[k].instr, lines[k].ref, Size(lines[..k]));
            Patch(p, prog.labels).Ok? && Encodes(prog.words, p.pc, Patch(p, prog.labels).value)
  {
    hide Encode, Patch, Emit, LayOut, EndToEnd, Size;
    var l := LayOut(lines).value;
    PendingOfLine(lines, k);
    LayOutEndToEnd(lines);
    EmitPlaces(l.pendings, l.labels, l.pc);
  }

  /** Decoding at an encoded instruction. */
  lemma EncodesSeen(words: Code, pc: int, i: Instr)
    requires Encodes(words, pc, i)
    ensures Fetchable(words, pc) && At(words, pc) == Seen(i) && ExtraReg(words, pc) == ExtraRd(i)
    ensures pc + Width(i.op) <= |words|
  {
    hide Encode, DecodeWord;
    EncodeFaithful(i);
    var e := Encode(i).value;
    assert words[pc] == words[pc..pc + |e|][0];
    if TwoWord(i.op) {
      assert words[pc + 1] == words[pc..pc + |e|][1];
    }
  }

  /** `seg` stands in `lines` from line `k` on. */
  predicate StandsAt(lines: seq<Line>, k: nat, seg: seq<Line>) {
    k + |seg| <= |lines| && lines[k..k + |seg|] == seg
  }

  lemma StandsSplit(lines: seq<Line>, k: nat, a: seq<Line>, b: seq<Line>)
    requires StandsAt(lines, k, a + b)
    ensures StandsAt(lines, k, a) && StandsAt(lines, k + |a|, b)
  {
    assert lines[k..k + |a|] == (a + b)[..|a|];
    assert lines[k + |a|..k + |a| + |b|] == (a + b)[|a|..];
  }

  lemma SizeAt(lines: seq<Line>, k: nat, seg: seq<Line>)
    requires StandsAt(lines, k, seg)
    ensures Size(lines[..k + |seg|]) == Size(lines[..k]) + Size(seg)
  {
    assert lines[..k + |seg|] == lines[..k] + seg;
    SizeAppend(lines[..k], seg);
  }

  lemma SizeOne(line: Line)
    ensures Size([line]) == if line.Op? then Width(line.instr.op) else 0
  {
    assert [line][..0] == [];
  }

  /** The word offset of line `k`. */
  function Pos(lines: seq<Line>, k: nat): nat
    requires k <= |lines|
  {
    Size(lines[..k])
  }

  // ----- composing well-nested blocks -----

  lemma {:induction false} NestedAppend(code: Code, lo: int, m: int, hi: int)
    requires WellNested(code, lo, m) && WellNested(code, m, hi) && 0 <= lo <= m <= hi <= |code|
    ensures WellNested(code, lo, hi) && OnChain(code, lo, hi, m)
    decreases m - lo
  {
    hide At;
    if lo < m {
      NestedAppend(code, After(code, lo), m, hi);
      if At(code, lo).op.JUMP? {
        ChainLonger(code, lo + 1, m, hi, lo + At(code, lo).imm);
      }
    }
  }

  lemma {:induction false} ChainLonger(code: Code, lo: int, m: int, hi: int, t: int)
    requires OnChain(code, lo, m, t) && m <= hi <= |code|
    ensures OnChain(code, lo, hi, t)
    decreases m - lo
  {
    hide At;
    if lo != t {
      ChainLonger(code, After(code, lo), m, hi, t);
    }
  }

  lemma {:induction false} BlockAppend(code: Code, lo: int, m: int, hi: int, d: Data)
    requires WellNested(code, lo, m) && WellNested(code, m, hi) && 0 <= lo <= m <= hi <= |code|
    ensures WellNested(code, lo, hi)
    ensures var first := Block(code, lo, m, d);
            Block(code, lo, hi, d) ==
              (if first.stop.Halted? then first else Tick(first.steps, Block(code, m, hi, first.d)))
    decreases m - lo
  {
    hide At, EffectAt, Repeat;
    NestedAppend(code, lo, m, hi);
    if lo < m {
      var h := At(code, lo);
      var d' := EffectAt(code, lo, d);
      if h.op.LOOP? {
        BlockAppend(code, After(code, lo), m, hi, Repeat(code, lo + 1, After(code, lo), d.regs[h.rs1], d').d);
      } else if !h.op.RET? && !h.op.ILLEGAL? {
        PlainBlock(code, lo, m, d);
        PlainBlock(code, lo, hi, d);
        BlockAppend(code, Arrive(h, lo, d.regs), m, hi, d');
      }
    }
  }

  // ----- the tree and its words -----

  /** Block outcome `o` and tree result `r` are the same. */
  predicate Same(o: Outcome, r: Ran) {
    o.d == r.d && o.stop.Halted? == r.returned && (o.stop.Halted? ==> o.stop.status == Returned)
  }

  /** No place in the block has more than `depth` of its loops around it. */
  ghost predicate NestsWithin(words: Code, p: int, q: int, depth: nat)
    requires WellNested(words, p, q)
  {
    forall pc :: |Enclosing(words, p, q, pc)| <= depth
  }

  /** The words in [p, q) are a well-nested block that does what `cs` does, nested as deep as `cs`. */
  ghost predicate Realises(words: Code, p: nat, q: nat, cs: seq<Node>) {
    && p <= q <= |words| && WellNested(words, p, q) && NestsWithin(words, p, q, Depth(cs))
    && forall d :: Same(Block(words, p, q, d), Exec(cs, d))
  }

  lemma {:induction false} EnclosingAppend(code: Code, lo: int, m: int, hi: int, pc: int)
    requires WellNested(code, lo, m) && WellNested(code, m, hi) && WellNested(code, lo, hi) && lo <= m <= hi
    ensures Enclosing(code, lo, hi, pc) == if pc < m then Enclosing(code, lo, m, pc) else Enclosing(code, m, hi, pc)
    decreases m - lo
  {
    hide At;
    if lo < m {
      EnclosingAppend(code, After(code, lo), m, hi, pc);
      if pc >= m { EnclosingPast(code, lo, m, pc); }
    }
  }

  lemma {:induction false} EnclosingPast(code: Code, lo: int, hi: int, pc: int)
    requires WellNested(code, lo, hi) && pc >= hi
    ensures Enclosing(code, lo, hi, pc) == [] && lo <= hi
    decreases hi - lo
  {
    hide At;
    if lo < hi {
      EnclosingPast(code, After(code, lo), hi, pc);
    }
  }

  lemma NestsAppend(words: Code, p: int, m: int, q: int, x: nat, y: nat)
    requires WellNested(words, p, m) && WellNested(words, m, q) && WellNested(words, p, q) && p <= m <= q
    requires NestsWithin(words, p, m, x) && NestsWithin(words, m, q, y)
    ensures NestsWithin(words, p, q, Max(x, y))
  {
    forall pc ensures |Enclosing(words, p, q, pc)| <= Max(x, y) {
      EnclosingAppend(words, p, m, q, pc);
    }
  }

  /** One instruction, or a LOOP around a body, or a JUMP before one. */
  lemma NestsItem(words: Code, p: int, q: int, depth: nat)
    requires WellNested(words, p, q) && p < q && After(words, p) == q
    requires At(words, p).op.LOOP? ==> depth > 0 && NestsWithin(words, p + 1, q, depth - 1)
    ensures NestsWithin(words, p, q, depth)
  {
    hide At;
    forall pc ensures |Enclosing(words, p, q, pc)| <= depth {
      EnclosingPast(words, q, q, Max(pc, q));
      if At(words, p).op.LOOP? { assert |Enclosing(words, p + 1, q, pc)| <= depth - 1; }
    }
  }

  lemma NilRealised(words: Code, p: nat)
    requires p <= |words|
    ensures Realises(words, p, p, [])
  {
  }

  lemma AppendRealised(words: Code, p: nat, m: nat, q: nat, a: seq<Node>, b: seq<Node>)
    requires Realises(words, p, m, a) && Realises(words, m, q, b)
    ensures Realises(words, p, q, a + b)
  {
    hide Block, Exec, WellNested, NestsWithin;
    NestedAppend(words, p, m, q);
    NestsAppend(words, p, m, q, Depth(a), Depth(b));
    DepthAppend(a, b);
    forall d ensures Same(Block(words, p, q, d), Exec(a + b, d)) {
      BlockAppend(words, p, m, q, d);
      ExecAppend(a, b, d);
    }
  }

  lemma InsRealised(words: Code, p: nat, i: Instr)
    requires Encodes(words, p, i) && Straight(i.op)
    ensures Realises(words, p, p + Width(i.op), [Ins(i)])
  {
    hide Encode, At, Effect, ExecOne;
    EncodesSeen(words, p, i);
    var q := p + Width(i.op);
    assert WellNested(words, q, q) && After(words, p) == q;
    NestsItem(words, p, q, 0);
    forall d ensures Same(Block(words, p, q, d), Exec([Ins(i)], d)) {
      ExecSingle(Ins(i), d);
      assert ExecOne(Ins(i), d) == Ran(Effect(Seen(i), ExtraRd(i), d), false) by { ExecIns(i, d); }
    }
  }

  lemma ExecIns(i: Instr, d: Data)
    ensures ExecOne(Ins(i), d) == Ran(Effect(Seen(i), ExtraRd(i), d), false)
  {
  }

  lemma RetRealised(words: Code, p: nat, r: reg)
    requires Encodes(words, p, Plain(RET, r))
    ensures Realises(words, p, p + 1, [Ret(r)])
  {
    hide Encode, At, Effect;
    EncodesSeen(words, p, Plain(RET, r));
    assert WellNested(words, p + 1, p + 1) && After(words, p) == p + 1;
    NestsItem(words, p, p + 1, 0);
    forall d ensures Same(Block(words, p, p + 1, d), Exec([Ret(r)], d)) {
      ExecSingle(Ret(r), d);
    }
  }

  /** JUMP, LOOP and RET touch data the same way whatever their immediate. */
  lemma CtrlAt(words: Code, p: nat, op: LegalOp, r: reg, imm: int, d: Data)
    requires Encodes(words, p, Plain(op, r).(imm := imm)) && (op.JUMP? || op.LOOP?)
    ensures Fetchable(words, p) && EffectAt(words, p, d) == Ctrl(op, r, d)
  {
    hide Encode, At;
    EncodesSeen(words, p, Plain(op, r).(imm := imm));
  }

  lemma {:induction false} RepeatIsIterate(words: Code, p: nat, q: nat, body: seq<Node>, n: nat, d: Data)
    requires Realises(words, p, q, body)
    ensures Same(Repeat(words, p, q, n, d), Iterate(body, n, d))
    decreases n
  {
    hide Block, Exec, WellNested;
    if n > 0 {
      var o := Block(words, p, q, d);
      assert Same(o, Exec(body, d));
      RepeatIsIterate(words, p, q, body, n - 1, o.d);
    }
  }

  lemma LoopRealised(words: Code, p: nat, q: nat, r: reg, end: string, body: seq<Node>)
    requires Encodes(words, p, Plain(LOOP, r).(imm := q - p - 1)) && p + 1 < q && q - p <= 1024
    requires Realises(words, p + 1, q, body)
    ensures Realises(words, p, q, [Loop(r, end, body)])
  {
    hide Encode, At, EffectAt, Ctrl, Exec, Repeat, Realises, NestsWithin, Depth;
    LoopBlock(words, p, q, r, body);
    NestsItem(words, p, q, 1 + Depth(body));
    DepthSingle(Loop(r, end, body));
    forall d ensures Same(Block(words, p, q, d), Exec([Loop(r, end, body)], d)) {
      ExecSingle(Loop(r, end, body), d);
      LoopBlockRuns(words, p, q, r, body, d);
    }
    RealisesIntro(words, p, q, [Loop(r, end, body)]);
  }

  lemma RealisesIntro(words: Code, p: nat, q: nat, cs: seq<Node>)
    requires p <= q <= |words| && WellNested(words, p, q) && NestsWithin(words, p, q, Depth(cs))
    requires forall d :: Same(Block(words, p, q, d), Exec(cs, d))
    ensures Realises(words, p, q, cs)
  {
  }

  lemma LoopBlock(words: Code, p: nat, q: nat, r: reg, body: seq<Node>)
    requires Encodes(words, p, Plain(LOOP, r).(imm := q - p - 1)) && p + 1 < q && q - p <= 1024
    requires Realises(words, p + 1, q, body)
    ensures Fetchable(words, p) && At(words, p).op == LOOP && At(words, p).rs1 == r && After(words, p) == q
    ensures p <= q <= |words| && WellNested(words, p, q)
    ensures WellNested(words, p + 1, q) && NestsWithin(words, p + 1, q, Depth(body))
  {
    hide Encode, At, Same, NestsWithin;
    EncodesSeen(words, p, Plain(LOOP, r).(imm := q - p - 1));
    assert WellNested(words, q, q);
  }

  lemma LoopBlockRuns(words: Code, p: nat, q: nat, r: reg, body: seq<Node>, d: Data)
    requires Encodes(words, p, Plain(LOOP, r).(imm := q - p - 1)) && p + 1 < q && q - p <= 1024
    requires Realises(words, p + 1, q, body) && WellNested(words, p, q)
    ensures Same(Block(words, p, q, d), Iterate(body, d.regs[r], Ctrl(LOOP, r, d)))
  {
    hide Encode, At, EffectAt, Ctrl, Exec, Repeat, Iterate, Realises;
    LoopBlock(words, p, q, r, body);
    CtrlAt(words, p, LOOP, r, q - p - 1, d);
    RepeatIsIterate(words, p + 1, q, body, d.regs[r], Ctrl(LOOP, r, d));
    assert Block(words, q, q, Repeat(words, p + 1, q, d.regs[r], Ctrl(LOOP, r, d)).d).stop == Through;
  }

  lemma SkipNests(words: Code, p: int, q: int, depth: nat)
    requires 0 <= p < q && WellNested(words, p, q) && At(words, p).op.JUMP?
    requires WellNested(words, p + 1, q) && NestsWithin(words, p + 1, q, depth)
    ensures NestsWithin(words, p, q, depth)
  {
    hide At;
    forall pc ensures |Enclosing(words, p, q, pc)| <= depth {
      assert |Enclosing(words, p + 1, q, pc)| <= depth;
    }
  }

  lemma SkipRealised(words: Code, p: nat, q: nat, r: reg, end: string, body: seq<Node>)
    requires Encodes(words, p, Plain(JUMP, r).(imm := q - p)) && p < q && q - p <= 1024
    requires Realises(words, p + 1, q, body)
    ensures Realises(words, p, q, [Skip(r, end, body)])
  {
    hide Encode, At, EffectAt, Ctrl, Exec, Effect;
    EncodesSeen(words, p, Plain(JUMP, r).(imm := q - p));
    assert WellNested(words, q, q);
    NestedAppend(words, p + 1, q, q);
    assert After(words, p) == p + 1 && WellNested(words, p, q);
    DepthSingle(Skip(r, end, body));
    SkipNests(words, p, q, Depth(body));
    forall d ensures Same(Block(words, p, q, d), Exec([Skip(r, end, body)], d)) {
      ExecSingle(Skip(r, end, body), d);
      CtrlAt(words, p, JUMP, r, q - p, d);
      assert Same(Block(words, p + 1, q, Ctrl(JUMP, r, d)), Exec(body, Ctrl(JUMP, r, d)));
    }
  }

  // ----- the tree stands in the lines -----

  lemma {:induction false} NoMalformed(lines: seq<Line>, k: nat)
    requires LayOut(lines).Ok? && k < |lines|
    ensures !lines[k].Malformed?
  {
    if k < |lines| - 1 {
      NoMalformed(lines[..|lines| - 1], k);
    }
  }

  /** The word offset of the line after an instruction. */
  lemma OpSize(lines: seq<Line>, k: nat)
    requires k < |lines|
    ensures Pos(lines, k + 1) == Pos(lines, k) + (if lines[k].Op? then Width(lines[k].instr.op) else 0)
  {
    SizeOne(lines[k]);
    SizeAt(lines, k, [lines[k]]);
  }

  /** A JUMP or LOOP line that refers to the label `n` lines after it, patched with the distance. */
  lemma ReferencePlaced(lines: seq<Line>, k: nat, op: LegalOp, r: reg, end: string, n: nat)
    requires Assemble(lines).Ok? && (op.JUMP? || op.LOOP?)
    requires k + 1 + n < |lines| && lines[k] == Line.Op(Plain(op, r), Some(end)) && lines[k + 1 + n] == Label(end)
    ensures var p, q := Pos(lines, k), Pos(lines, k + 1 + n);
            var imm := if op.JUMP? then q - p else q - p - 1;
            imm > 0 && q - p <= 1024 && Encodes(Assemble(lines).value.words, p, Plain(op, r).(imm := imm))
    ensures Pos(lines, k + 1) == Pos(lines, k) + 1
  {
    hide Encode, Emit, LayOut, Size;
    OpLinePlaced(lines, k);
    LabelsAreOffsets(lines);
    OpSize(lines, k);
    SizeMonotone(lines, k + 1 + n);
  }

  lemma SizeMonotone(lines: seq<Line>, k: nat)
    requires k <= |lines|
    ensures Pos(lines, k) <= Size(lines)
  {
    assert lines == lines[..k] + lines[k..];
    SizeAppend(lines[..k], lines[k..]);
  }

  lemma {:induction false} OneRealised(lines: seq<Line>, k: nat, c: Node)
    requires Assemble(lines).Ok? && StandsAt(lines, k, FlattenOne(c)) && Wf([c])
    ensures Realises(Assemble(lines).value.words, Pos(lines, k), Pos(lines, k + |FlattenOne(c)|), [c])
    decreases c, 0, 0
  {
    hide Encode, Emit, LayOut, Size, Realises, Assemble, FlattenOne, Encodes, Patch;
    var words := Assemble(lines).value.words;
    NodeLines(lines, k, c);
    match c
    case Ins(i) =>
      InsPlaced(lines, k);
      OpSize(lines, k);
      assert c in [c];
      InsRealised(words, Pos(lines, k), i);
    case Bad => NoBad(lines, k);
    case Ret(r) =>
      InsPlaced(lines, k);
      OpSize(lines, k);
      RetRealised(words, Pos(lines, k), r);
    case Loop(r, end, body) =>
      BodyRealised(lines, k + 1, c, body);
      ReferencePlaced(lines, k, LOOP, r, end, |Flatten(body)|);
      OpSize(lines, k + 1 + |Flatten(body)|);
      LoopRealised(words, Pos(lines, k), Pos(lines, k + 1 + |Flatten(body)|), r, end, body);
    case Skip(r, end, body) =>
      BodyRealised(lines, k + 1, c, body);
      ReferencePlaced(lines, k, JUMP, r, end, |Flatten(body)|);
      OpSize(lines, k + 1 + |Flatten(body)|);
      SkipRealised(words, Pos(lines, k), Pos(lines, k + 1 + |Flatten(body)|), r, end, body);
  }

  lemma {:induction false} BodyRealised(lines: seq<Line>, k: nat, c: Node, body: seq<Node>)
    requires Assemble(lines).Ok? && StandsAt(lines, k, Flatten(body)) && Wf([c])
    requires (c.Loop? || c.Skip?) && body == c.body
    ensures Realises(Assemble(lines).value.words, Pos(lines, k), Pos(lines, k + |Flatten(body)|), body)
    decreases body, 2, 0
  {
    hide Encode, Emit, LayOut, Size, Realises, Assemble, FlattenOne, Flatten;
    assert c in [c];
    TreeRealised(lines, k, body);
  }

  lemma NoBad(lines: seq<Line>, k: nat)
    requires Assemble(lines).Ok? && k < |lines|
    ensures !lines[k].Malformed?
  {
    hide LayOut, Emit;
    NoMalformed(lines, k);
  }

  lemma InsPlaced(lines: seq<Line>, k: nat)
    requires Assemble(lines).Ok? && k < |lines| && lines[k].Op? && lines[k].ref.None?
    ensures Encodes(Assemble(lines).value.words, Pos(lines, k), lines[k].instr)
  {
    hide Assemble, Encodes, Size;
    OpLinePlaced(lines, k);
  }

  /** The lines of a node, one by one. */
  lemma NodeLines(lines: seq<Line>, k: nat, c: Node)
    requires StandsAt(lines, k, FlattenOne(c))
    ensures k < |lines| && lines[k] == FlattenOne(c)[0]
    ensures c.Loop? || c.Skip? ==>
              var n := |Flatten(c.body)|;
              && |FlattenOne(c)| == n + 2 && k + n + 1 < |lines|
              && StandsAt(lines, k + 1, Flatten(c.body)) && lines[k + 1 + n] == Label(c.end)
    ensures c.Ins? ==> FlattenOne(c) == [Line.Op(c.i, None)]
    ensures c.Bad? ==> FlattenOne(c) == [Malformed]
    ensures c.Ret? ==> FlattenOne(c) == [Line.Op(Plain(RET, c.value), None)]
    ensures c.Loop? ==> FlattenOne(c)[0] == Line.Op(Plain(LOOP, c.count), Some(c.end))
    ensures c.Skip? ==> FlattenOne(c)[0] == Line.Op(Plain(JUMP, c.cond), Some(c.end))
  {
    hide Flatten;
    var f := FlattenOne(c);
    assert lines[k] == lines[k..k + |f|][0];
    if c.Loop? || c.Skip? { assert f == [f[0]] + (Flatten(c.body) + [Label(c.end)]); }
    if c.Loop? || c.Skip? {
      var n := |Flatten(c.body)|;
      StandsSplit(lines, k, [f[0]], Flatten(c.body) + [Label(c.end)]);
      StandsSplit(lines, k + 1, Flatten(c.body), [Label(c.end)]);
      assert lines[k + 1 + n] == lines[k + 1 + n..k + 2 + n][0];
    }
  }

  /** The main result: wherever a flattened tree stands in an assembled program, its words realise it. */
  lemma {:induction false} TreeRealised(lines: seq<Line>, k: nat, cs: seq<Node>)
    requires Assemble(lines).Ok? && StandsAt(lines, k, Flatten(cs)) && Wf(cs)
    ensures Realises(Assemble(lines).value.words, Pos(lines, k), Pos(lines, k + |Flatten(cs)|), cs)
    decreases cs, 1, 0
  {
    hide Encode, Emit, LayOut, Size, Realises, Assemble, FlattenOne;
    var words := Assemble(lines).value.words;
    if cs == [] {
      PosWithin(lines, k);
      NilRealised(words, Pos(lines, k));
    } else {
      var a, b := FlattenOne(cs[0]), Flatten(cs[1..]);
      StandsSplit(lines, k, a, b);
      assert cs[0] in cs && forall c :: c in cs[1..] ==> c in cs;
      OneRealised(lines, k, cs[0]);
      TreeRealised(lines, k + |a|, cs[1..]);
      AppendRealised(words, Pos(lines, k), Pos(lines, k + |a|), Pos(lines, k + |a| + |b|), [cs[0]], cs[1..]);
      assert cs == [cs[0]] + cs[1..];
    }
  }

  lemma PosWithin(lines: seq<Line>, k: nat)
    requires Assemble(lines).Ok? && k <= |lines|
    ensures Pos(lines, k) <= |Assemble(lines).value.words|
  {
    hide Assemble, Size, SweepExact, ReferencesExact, LabelsExact;
    AssembledProgram(lines);
    SizeMonotone(lines, k);
  }
}
