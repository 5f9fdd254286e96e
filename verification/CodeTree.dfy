/**
 * Structured target code: the assembly lines the compiler emits are the flattening of a tree whose nodes are
 * instructions, LOOP bodies and code skipped by a forward JUMP.
 */
module CodeTree {
  import opened Prelude
  import opened Isa
  import opened Machine
  import opened Assembler

  datatype Node =
    | Ins(i: Instr)
    | Bad
    | Loop(count: reg, end: string, body: seq<Node>)
    | Skip(cond: reg, end: string, body: seq<Node>)
    | Ret(value: reg)

  predicate Straight(op: Isa.Op) { !op.JUMP? && !op.LOOP? && !op.RET? && !op.ILLEGAL? }

  function Plain(op: LegalOp, rs1: reg): Instr { Instr(op, 0, rs1, 0, 0, 0, None) }

  /** The lines of one node: a label after the body of a LOOP or a skipping JUMP, `Malformed` for `Bad`. */
  function FlattenOne(c: Node): seq<Line>
    decreases c, 0
  {
    match c
    case Ins(i) => [Line.Op(i, None)]
    case Bad => [Malformed]
    case Loop(r, l, body) => [Line.Op(Plain(LOOP, r), Some(l))] + Flatten(body) + [Label(l)]
    case Skip(r, l, body) => [Line.Op(Plain(JUMP, r), Some(l))] + Flatten(body) + [Label(l)]
    case Ret(r) => [Line.Op(Plain(RET, r), None)]
  }

  function Flatten(cs: seq<Node>): seq<Line>
    decreases cs, 0
  {
    if cs == [] then [] else FlattenOne(cs[0]) + Flatten(cs[1..])
  }

  /** Every instruction node is a straight-line one. */
  predicate Wf(cs: seq<Node>) {
    forall c :: c in cs ==>
      match c
      case Ins(i) => Straight(i.op)
      case Loop(_, _, body) => Wf(body)
      case Skip(_, _, body) => Wf(body)
      case _ => true
  }

  // ----- what the tree does -----

  datatype Ran = Ran(d: Data, returned: bool)

  function Ctrl(op: LegalOp, r: reg, d: Data): Data { Effect(Seen(Plain(op, r)), 0, d) }

  function ExecOne(c: Node, d: Data): Ran
    decreases c, 0, 0
  {
    match c
    case Ins(i) => Ran(Effect(Seen(i), ExtraRd(i), d), false)
    case Bad => Ran(d, false)
    case Loop(r, _, body) => Iterate(body, d.regs[r], Ctrl(LOOP, r, d))
    case Skip(r, _, body) =>
      if d.regs[r] != 0 then Ran(Ctrl(JUMP, r, d), false) else Exec(body, Ctrl(JUMP, r, d))
    case Ret(r) => Ran(Ctrl(RET, r, d), true)
  }

  function Exec(cs: seq<Node>, d: Data): Ran
    decreases cs, 0, 0
  {
    if cs == [] then Ran(d, false)
    else
      var r := ExecOne(cs[0], d);
      if r.returned then r else Exec(cs[1..], r.d)
  }

  function Iterate(body: seq<Node>, n: nat, d: Data): Ran
    decreases body, 1, n
  {
    if n == 0 then Ran(d, false)
    else
      var r := Exec(body, d);
      if r.returned then r else Iterate(body, n - 1, r.d)
  }

  lemma ExecSingle(c: Node, d: Data)
    ensures Exec([c], d) == ExecOne(c, d)
  {
    hide ExecOne;
  }

  lemma {:induction false} ExecAppend(a: seq<Node>, b: seq<Node>, d: Data)
    ensures Exec(a + b, d) == (var r := Exec(a, d); if r.returned then r else Exec(b, r.d))
    decreases |a|
  {
    hide ExecOne;
    if a == [] {
      assert a + b == b;
    } else {
      assert (a + b)[1..] == a[1..] + b;
      ExecAppend(a[1..], b, ExecOne(a[0], d).d);
    }
  }

  lemma {:induction false} FlattenAppend(a: seq<Node>, b: seq<Node>)
    ensures Flatten(a + b) == Flatten(a) + Flatten(b)
    decreases |a|
  {
    hide FlattenOne;
    if a == [] {
      assert a + b == b;
    } else {
      assert (a + b)[1..] == a[1..] + b;
      FlattenAppend(a[1..], b);
    }
  }

  lemma FlattenIns(i: Instr)
    ensures Flatten([Ins(i)]) == [Line.Op(i, None)]
  {
    assert [Ins(i)][1..] == [];
  }

  lemma FlattenRet(r: reg)
    ensures Flatten([Ret(r)]) == [Line.Op(Plain(RET, r), None)]
  {
    assert [Ret(r)][1..] == [];
  }

  /** How deep LOOPs nest. */
  function Depth(cs: seq<Node>): nat
    decreases cs, 0
  {
    if cs == [] then 0 else Max(DepthOne(cs[0]), Depth(cs[1..]))
  }

  function DepthOne(c: Node): nat
    decreases c, 0
  {
    match c
    case Loop(_, _, body) => 1 + Depth(body)
    case Skip(_, _, body) => Depth(body)
    case _ => 0
  }

  lemma {:induction false} DepthAppend(a: seq<Node>, b: seq<Node>)
    ensures Depth(a + b) == Max(Depth(a), Depth(b))
    decreases |a|
  {
    hide DepthOne;
    if a == [] {
      assert a + b == b;
    } else {
      assert (a + b)[1..] == a[1..] + b;
      DepthAppend(a[1..], b);
    }
  }

  lemma DepthSingle(c: Node)
    ensures Depth([c]) == DepthOne(c)
  {
    assert [c][1..] == [];
  }

  /** A straight-line instruction, with the second word its opcode wants. */
  predicate Complete(i: Instr) { Straight(i.op) && (TwoWord(i.op) ==> i.extra.Some? && i.extra.value.imm == 0) }

  /** Code without control. */
  predicate Linear(cs: seq<Node>) {
    forall c :: c in cs ==> c.Bad? || (c.Ins? && Complete(c.i))
  }

  lemma {:induction false} LinearDepth(cs: seq<Node>)
    requires Linear(cs)
    ensures Wf(cs) && Depth(cs) == 0
  {
    if cs != [] {
      assert cs[0] in cs && forall c :: c in cs[1..] ==> c in cs;
      LinearDepth(cs[1..]);
    }
  }
}
