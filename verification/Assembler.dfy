/** The two-pass assembler, from operand-level lines to words. */
module Assembler {
  import opened Prelude
  import opened Isa
  import opened Machine
  import opened Verifier

  /** A line after mnemonic and operands have been read; `Malformed` is one whose operands are rejected. */
  datatype Line =
    | Label(name: string)
    | Op(instr: Instr, ref: Option<string>)
    | Malformed

  datatype Pending = Pending(instr: Instr, ref: Option<string>, pc: nat)

  datatype Program = Program(words: Code, labels: map<string, nat>, instrs: seq<Instr>, pcToInstr: map<int, int>)

  // ----- first pass: offsets and labels -----

  datatype Layout = Layout(pendings: seq<Pending>, labels: map<string, nat>, pc: nat)

  function Place(l: Layout, line: Line): Result<Layout> {
    match line
    case Label(name) =>
      if name in l.labels then Err else Ok(l.(labels := l.labels[name := l.pc]))
    case Op(instr, ref) =>
      Ok(Layout(l.pendings + [Pending(instr, ref, l.pc)], l.labels, l.pc + Width(instr.op)))
    case Malformed => Err
  }

  function LayOut(lines: seq<Line>): Result<Layout> {
    if lines == [] then Ok(Layout([], map[], 0))
    else
      var l :- LayOut(lines[..|lines| - 1]);
      Place(l, lines[|lines| - 1])
  }

  // ----- second pass: label references and words -----

  /** Patch the immediate of an instruction that refers to a label. */
  function Patch(p: Pending, labels: map<string, nat>): Result<Instr> {
    if p.ref.None? then Ok(p.instr)
    else if p.ref.value !in labels then Err
    else
      var offset := labels[p.ref.value] - p.pc;
      if p.instr.op.JUMP? then (if offset <= 0 then Err else Ok(p.instr.(imm := offset)))
      else if p.instr.op.LOOP? then (if offset - 1 <= 0 then Err else Ok(p.instr.(imm := offset - 1)))
      else Ok(p.instr.(imm := offset))
  }

  datatype Emitted = Emitted(words: Code, instrs: seq<Instr>, pcToInstr: map<int, int>)

  function Append(e: Emitted, p: Pending, labels: map<string, nat>): Result<Emitted> {
    var instr :- Patch(p, labels);
    var words :- Encode(instr);
    Ok(Emitted(e.words + words, e.instrs + [instr], e.pcToInstr[p.pc as int := |e.instrs|]))
  }

  function Emit(pendings: seq<Pending>, labels: map<string, nat>): Result<Emitted> {
    if pendings == [] then Ok(Emitted([], [], map[]))
    else
      var e :- Emit(pendings[..|pendings| - 1], labels);
      Append(e, pendings[|pendings| - 1], labels)
  }

  function Assemble(lines: seq<Line>): Result<Program> {
    var l :- LayOut(lines);
    if l.pc > INSTR_STORE_DEPTH then Err
    else
      var e :- Emit(l.pendings, l.labels);
      Ok(Program(e.words, l.labels, e.instrs, e.pcToInstr))
  }

  // ----- the assembler as written: a loop over lines, then a loop over pending instructions -----

  method FirstPass(lines: seq<Line>) returns (r: Result<Layout>)
    ensures r == LayOut(lines)
  {
    var pendings: seq<Pending> := [];
    var labels: map<string, nat> := map[];
    var pc: nat := 0;
    for i := 0 to |lines|
      invariant LayOut(lines[..i]) == Ok(Layout(pendings, labels, pc))
    {
      assert lines[..i + 1][..i] == lines[..i];
      match lines[i] {
        case Label(name) =>
          if name in labels { LayOutFails(lines, i + 1); return Err; }
          labels := labels[name := pc];
        case Op(instr, ref) =>
          pendings := pendings + [Pending(instr, ref, pc)];
          pc := pc + Width(instr.op);
        case Malformed => LayOutFails(lines, i + 1); return Err;
      }
    }
    assert lines[..|lines|] == lines;
    r := Ok(Layout(pendings, labels, pc));
  }

  method PatchPending(p: Pending, labels: map<string, nat>) returns (r: Result<Instr>)
    ensures r == Patch(p, labels)
  {
    var instr := p.instr;
    if p.ref.Some? {
      if p.ref.value !in labels { return Err; }
      var target := labels[p.ref.value];
      var offset := target - p.pc;
      if instr.op.JUMP? {
        if offset <= 0 { return Err; }
        instr := instr.(imm := offset);
      } else if instr.op.LOOP? {
        var bodyLen := target - (p.pc + 1);
        if bodyLen <= 0 { return Err; }
        instr := instr.(imm := bodyLen);
      } else {
        instr := instr.(imm := offset);
      }
    }
    r := Ok(instr);
  }

  method SecondPass(pendings: seq<Pending>, labels: map<string, nat>) returns (r: Result<Emitted>)
    ensures r == Emit(pendings, labels)
  {
    hide Encode, Patch;
    var words: Code, instrs: seq<Instr>, pcToInstr: map<int, int> := [], [], map[];
    for i := 0 to |pendings|
      invariant Emit(pendings[..i], labels) == Ok(Emitted(words, instrs, pcToInstr))
    {
      assert pendings[..i + 1][..i] == pendings[..i];
      var p := pendings[i];
      var patched := PatchPending(p, labels);
      if patched.Err? { EmitFails(pendings, labels, i + 1); return Err; }
      pcToInstr := pcToInstr[p.pc as int := |instrs|];
      var encoded := Encode(patched.value);
      if encoded.Err? { EmitFails(pendings, labels, i + 1); return Err; }
      words := words + encoded.value;
      instrs := instrs + [patched.value];
    }
    assert pendings[..|pendings|] == pendings;
    r := Ok(Emitted(words, instrs, pcToInstr));
  }

  method RunAssembler(lines: seq<Line>) returns (r: Result<Program>)
    ensures r == Assemble(lines)
  {
    var l := FirstPass(lines);
    if l.Err? || l.value.pc > INSTR_STORE_DEPTH { return Err; }
    var e := SecondPass(l.value.pendings, l.value.labels);
    if e.Err? { return Err; }
    r := Ok(Program(e.value.words, l.value.labels, e.value.instrs, e.value.pcToInstr));
  }

  lemma {:induction false} LayOutFails(lines: seq<Line>, i: nat)
    requires i <= |lines| && LayOut(lines[..i]).Err?
    ensures LayOut(lines).Err?
    decreases |lines| - i
  {
    if i < |lines| {
      assert lines[..i + 1][..i] == lines[..i];
      LayOutFails(lines, i + 1);
    } else {
      assert lines[..i] == lines;
    }
  }

  lemma {:induction false} EmitFails(pendings: seq<Pending>, labels: map<string, nat>, i: nat)
    requires i <= |pendings| && Emit(pendings[..i], labels).Err?
    ensures Emit(pendings, labels).Err?
    decreases |pendings| - i
  {
    if i < |pendings| {
      assert pendings[..i + 1][..i] == pendings[..i];
      EmitFails(pendings, labels, i + 1);
    } else {
      assert pendings[..i] == pendings;
    }
  }

  // ----- layout -----

  /** Words taken by the instructions among `lines`. */
  function Size(lines: seq<Line>): nat {
    if lines == [] then 0
    else
      var last := lines[|lines| - 1];
      Size(lines[..|lines| - 1]) + (if last.Op? then Width(last.instr.op) else 0)
  }

  lemma {:induction false} SizeAppend(a: seq<Line>, b: seq<Line>)
    ensures Size(a + b) == Size(a) + Size(b)
  {
    if b == [] {
      assert a + b == a;
    } else {
      assert (a + b)[..|a + b| - 1] == a + b[..|b| - 1];
      SizeAppend(a, b[..|b| - 1]);
    }
  }

  /** A label stands at the size of the lines before it, and at no other line. */
  lemma {:induction false} LabelsAreOffsets(lines: seq<Line>)
    requires LayOut(lines).Ok?
    ensures var l := LayOut(lines).value;
            && l.pc == Size(lines)
            && (forall k :: 0 <= k < |lines| && lines[k].Label? ==>
                  lines[k].name in l.labels && l.labels[lines[k].name] == Size(lines[..k]))
            && (forall name :: name in l.labels ==> exists k :: 0 <= k < |lines| && lines[k] == Label(name))
  {
    if lines != [] {
      var n := |lines| - 1;
      var rest := lines[..n];
      LabelsAreOffsets(rest);
      forall k | 0 <= k < |lines| && lines[k].Label?
        ensures var l := LayOut(lines).value; lines[k].name in l.labels && l.labels[lines[k].name] == Size(lines[..k])
      {
        if k < n {
          assert rest[k] == lines[k] && rest[..k] == lines[..k];
        }
      }
      forall name | name in LayOut(lines).value.labels ensures exists k :: 0 <= k < |lines| && lines[k] == Label(name) {
        if lines[n] != Label(name) {
          var k :| 0 <= k < |rest| && rest[k] == Label(name);
          assert lines[k] == Label(name);
        }
      }
    }
  }

  // ----- the words of a program -----

  /** The words from `pc` on begin with the encoding of `instr`. */
  predicate Encodes(words: Code, pc: int, instr: Instr) {
    && Encode(instr).Ok?
    && 0 <= pc <= pc + |Encode(instr).value| <= |words|
    && words[pc..pc + |Encode(instr).value|] == Encode(instr).value
  }

  /** Pendings lie end to end. */
  predicate EndToEnd(pendings: seq<Pending>, pc: int) {
    if pendings == [] then pc == 0
    else
      var last := pendings[|pendings| - 1];
      last.pc + Width(last.instr.op) == pc && EndToEnd(pendings[..|pendings| - 1], last.pc)
  }

  lemma {:induction false} LayOutEndToEnd(lines: seq<Line>)
    requires LayOut(lines).Ok?
    ensures EndToEnd(LayOut(lines).value.pendings, LayOut(lines).value.pc)
  {
    if lines != [] {
      LayOutEndToEnd(lines[..|lines| - 1]);
      var l := LayOut(lines[..|lines| - 1]).value;
      var l' := LayOut(lines).value;
      if lines[|lines| - 1].Op? {
        assert l'.pendings[..|l.pendings|] == l.pendings;
      }
    }
  }

  /** The `k`th pending instruction, patched, is the `k`th instruction, encoded at its offset. */
  predicate Placed(e: Emitted, p: Pending, labels: map<string, nat>, k: int)
    requires 0 <= k < |e.instrs|
  {
    Patch(p, labels) == Ok(e.instrs[k]) && Encodes(e.words, p.pc, e.instrs[k])
  }

  lemma {:induction false} EmitPlaces(pendings: seq<Pending>, labels: map<string, nat>, pc: int)
    requires Emit(pendings, labels).Ok? && EndToEnd(pendings, pc)
    ensures var e := Emit(pendings, labels).value;
            && |e.words| == pc && |e.instrs| == |pendings|
            && forall k :: 0 <= k < |pendings| ==> Placed(e, pendings[k], labels, k)
  {
    hide Encode, Patch, Placed;
    if pendings != [] {
      var n := |pendings| - 1;
      var rest, last := pendings[..n], pendings[n];
      EmitPlaces(rest, labels, last.pc);
      var e', e := Emit(rest, labels).value, Emit(pendings, labels).value;
      AppendPlaces(e', last, labels);
      forall k | 0 <= k < |pendings| ensures Placed(e, pendings[k], labels, k) {
        if k < n {
          assert pendings[k] == rest[k];
          PlacedLonger(e', last, labels, pendings[k], k);
        }
      }
    }
  }

  lemma AppendPlaces(e: Emitted, p: Pending, labels: map<string, nat>)
    requires Append(e, p, labels).Ok? && p.pc == |e.words|
    ensures var e' := Append(e, p, labels).value;
            && |e'.instrs| == |e.instrs| + 1 && |e'.words| == p.pc + Width(p.instr.op)
            && Placed(e', p, labels, |e.instrs|)
  {
    hide Encode, Patch;
    PatchKeepsOp(p, labels);
    EncodeFaithful(Patch(p, labels).value);
  }

  lemma PlacedLonger(e: Emitted, last: Pending, labels: map<string, nat>, p: Pending, k: nat)
    requires Append(e, last, labels).Ok? && k < |e.instrs| && Placed(e, p, labels, k)
    ensures Placed(Append(e, last, labels).value, p, labels, k)
  {
    hide Encode, Patch;
    EncodesLonger(e.words, Encode(Patch(last, labels).value).value, p.pc, e.instrs[k]);
  }

  lemma PatchKeepsOp(p: Pending, labels: map<string, nat>)
    requires Patch(p, labels).Ok?
    ensures Patch(p, labels).value.(imm := p.instr.imm) == p.instr
  {
  }

  lemma EncodesLonger(words: Code, more: Code, pc: int, instr: Instr)
    requires Encodes(words, pc, instr)
    ensures Encodes(words + more, pc, instr)
  {
    hide Encode;
    var end := pc + |Encode(instr).value|;
    assert (words + more)[pc..end] == words[pc..end];
  }

  /** The map holds the offset of every pending instruction with its index, and nothing else. */
  predicate Numbers(m: map<int, int>, pendings: seq<Pending>) {
    && (forall k :: 0 <= k < |pendings| ==> pendings[k].pc as int in m && m[pendings[k].pc as int] == k)
    && (forall at :: at in m ==> 0 <= m[at] < |pendings| && pendings[m[at]].pc == at)
  }

  /** The pc map numbers the instructions laid out. */
  lemma {:induction false} PcMapIsExact(pendings: seq<Pending>, labels: map<string, nat>, pc: int)
    requires Emit(pendings, labels).Ok? && EndToEnd(pendings, pc)
    ensures Numbers(Emit(pendings, labels).value.pcToInstr, pendings)
  {
    hide Encode, Patch, EndToEnd, Numbers;
    if pendings == [] {
      assert Numbers(map[], []) by { NothingNumbered(); }
    } else {
      var n := |pendings| - 1;
      var rest, last := pendings[..n], pendings[n];
      LastPlace(pendings, pc);
      PcMapIsExact(rest, labels, last.pc);
      EmitPlaces(rest, labels, last.pc);
      PlacesBelow(rest, last.pc);
      NumberNext(Emit(rest, labels).value.pcToInstr, rest, last);
      assert pendings == rest + [last];
    }
  }

  lemma NothingNumbered()
    ensures Numbers(map[], [])
  {
  }

  lemma NumberNext(m: map<int, int>, rest: seq<Pending>, last: Pending)
    requires Numbers(m, rest) && forall k :: 0 <= k < |rest| ==> rest[k].pc < last.pc
    ensures Numbers(m[last.pc as int := |rest|], rest + [last])
  {
  }

  lemma LastPlace(pendings: seq<Pending>, pc: int)
    requires pendings != [] && EndToEnd(pendings, pc)
    ensures EndToEnd(pendings[..|pendings| - 1], pendings[|pendings| - 1].pc) && pendings[|pendings| - 1].pc < pc
  {
  }

  lemma {:induction false} PlacesBelow(pendings: seq<Pending>, pc: int)
    requires EndToEnd(pendings, pc)
    ensures forall k :: 0 <= k < |pendings| ==> pendings[k].pc < pc
  {
    hide EndToEnd;
    if pendings != [] {
      var n := |pendings| - 1;
      LastPlace(pendings, pc);
      PlacesBelow(pendings[..n], pendings[n].pc);
      forall k | 0 <= k < |pendings| ensures pendings[k].pc < pc {
        if k < n { assert pendings[k] == pendings[..n][k]; }
      }
    }
  }

  // ----- what the verifier's sweep sees of an assembled program -----

  /** A sweep entry shows instruction `i` at `pc`. */
  predicate Shows(entry: (int, Decoded), pc: int, i: Instr) { entry == (pc, Seen(i)) }

  lemma PendingShows(e: Emitted, pendings: seq<Pending>, labels: map<string, nat>, pc: int, k: nat)
    requires Emit(pendings, labels) == Ok(e) && EndToEnd(pendings, pc) && k < |pendings|
    ensures |e.instrs| == |pendings| && |e.words| == pc && pendings[k].pc < pc
    ensures Shows((pendings[k].pc, At(e.words, pendings[k].pc)), pendings[k].pc, e.instrs[k])
    ensures Width(At(e.words, pendings[k].pc).op) == Width(pendings[k].instr.op)
  {
    hide Encode, Patch, DecodeWord, EndToEnd, Emit;
    EmitPlaces(pendings, labels, pc);
    var at, instr := pendings[k].pc, e.instrs[k];
    EncodeFaithful(instr);
    PatchKeepsOp(pendings[k], labels);
    assert e.words[at] == e.words[at..at + |Encode(instr).value|][0];
  }

  /** The sweep from pending `k` on visits the offsets of the pendings from `k` on, in order. */
  lemma {:induction false} SweepVisitsPendings(
    e: Emitted, pendings: seq<Pending>, labels: map<string, nat>, pc: int, k: nat)
    requires Emit(pendings, labels) == Ok(e) && EndToEnd(pendings, pc) && k <= |pendings|
    ensures |e.words| == pc && |e.instrs| == |pendings|
    ensures var sweep := SweepFrom(e.words, if k < |pendings| then pendings[k].pc else pc);
            && |sweep| == |pendings| - k
            && forall i :: k <= i < |pendings| ==> Shows(sweep[i - k], pendings[i].pc, e.instrs[i])
    decreases |pendings| - k
  {
    hide At, EndToEnd, Emit, Shows;
    EmitPlaces(pendings, labels, pc);
    if k < |pendings| {
      PendingShows(e, pendings, labels, pc, k);
      NextPending(pendings, pc, k);
      SweepVisitsPendings(e, pendings, labels, pc, k + 1);
      var rest := SweepFrom(e.words, if k + 1 < |pendings| then pendings[k + 1].pc else pc);
      assert SweepFrom(e.words, pendings[k].pc) == [(pendings[k].pc as int, At(e.words, pendings[k].pc))] + rest;
    }
  }

  lemma {:induction false} NextPending(pendings: seq<Pending>, pc: int, k: nat)
    requires EndToEnd(pendings, pc) && k < |pendings|
    ensures pendings[0].pc == 0
    ensures pendings[k].pc + Width(pendings[k].instr.op) == (if k + 1 < |pendings| then pendings[k + 1].pc else pc)
  {
    var n := |pendings| - 1;
    if k < n {
      NextPending(pendings[..n], pendings[n].pc, k);
    } else if n > 0 {
      NextPending(pendings[..n], pendings[n].pc, 0);
    }
  }

  /** The sweep visits exactly the offsets in the pc map, in order, and shows each instruction. */
  predicate SweepExact(prog: Program) {
    var sweep := SweepFrom(prog.words, 0);
    && |sweep| == |prog.instrs|
    && (forall k :: 0 <= k < |sweep| ==>
          Shows(sweep[k], sweep[k].0, prog.instrs[k]) && sweep[k].0 in prog.pcToInstr
            && prog.pcToInstr[sweep[k].0] == k)
    && (forall at :: at in prog.pcToInstr ==> 0 <= prog.pcToInstr[at] < |sweep| && sweep[prog.pcToInstr[at]].0 == at)
  }

  /** JUMP and LOOP at `pc` lead forward to `target`. */
  predicate LeadsTo(i: Instr, pc: int, target: int) {
    && (i.op.JUMP? ==> i.imm > 0 && pc + i.imm == target)
    && (i.op.LOOP? ==> i.imm > 0 && pc + 1 + i.imm == target)
  }

  /** Every reference leads to its label. */
  predicate ReferencesExact(prog: Program, pendings: seq<Pending>) {
    && |pendings| == |prog.instrs|
    && forall k :: 0 <= k < |pendings| && pendings[k].ref.Some? ==>
         && pendings[k].ref.value in prog.labels
         && LeadsTo(prog.instrs[k], pendings[k].pc, prog.labels[pendings[k].ref.value])
  }

  /** Every label stands at the size of the lines before it. */
  predicate LabelsExact(prog: Program, lines: seq<Line>) {
    forall j :: 0 <= j < |lines| && lines[j].Label? ==>
      lines[j].name in prog.labels && prog.labels[lines[j].name] == Size(lines[..j])
  }

  lemma SweepIsExact(lines: seq<Line>)
    requires Assemble(lines).Ok?
    ensures SweepExact(Assemble(lines).value) && |Assemble(lines).value.words| == Size(lines) <= INSTR_STORE_DEPTH
    ensures var prog, pendings := Assemble(lines).value, LayOut(lines).value.pendings;
            && |pendings| == |prog.instrs|
            && forall k :: 0 <= k < |pendings| ==> pendings[k].pc == SweepFrom(prog.words, 0)[k].0
  {
    hide SweepFrom, LayOut, Emit, EndToEnd, Size, SweepExact, Shows, Numbers;
    var l := LayOut(lines).value;
    LayOutEndToEnd(lines);
    LabelsAreOffsets(lines);
    PcMapIsExact(l.pendings, l.labels, l.pc);
    StartsAtZero(l.pendings, l.pc);
    SweepVisitsPendings(Emit(l.pendings, l.labels).value, l.pendings, l.labels, l.pc, 0);
    MapShowsSweep(Assemble(lines).value, l.pendings, SweepFrom(Assemble(lines).value.words, 0));
  }

  /** The sweep shows the pendings, and the map numbers them. */
  lemma MapShowsSweep(prog: Program, pendings: seq<Pending>, sweep: seq<(int, Decoded)>)
    requires sweep == SweepFrom(prog.words, 0) && |sweep| == |pendings| == |prog.instrs|
    requires forall i :: 0 <= i < |pendings| ==> Shows(sweep[i], pendings[i].pc, prog.instrs[i])
    requires Numbers(prog.pcToInstr, pendings)
    ensures SweepExact(prog) && forall k :: 0 <= k < |pendings| ==> pendings[k].pc == sweep[k].0
  {
    hide SweepFrom, Seen;
    assert forall k :: 0 <= k < |sweep| ==> sweep[k].0 == pendings[k].pc;
  }

  lemma StartsAtZero(pendings: seq<Pending>, pc: int)
    requires EndToEnd(pendings, pc)
    ensures (if pendings != [] then pendings[0].pc else pc) == 0
  {
    if pendings != [] { NextPending(pendings, pc, 0); }
  }

  lemma ReferencesAreExact(lines: seq<Line>)
    requires Assemble(lines).Ok?
    ensures ReferencesExact(Assemble(lines).value, LayOut(lines).value.pendings)
  {
    hide Encode, LayOut, Emit, EndToEnd;
    var l := LayOut(lines).value;
    LayOutEndToEnd(lines);
    EmitPlaces(l.pendings, l.labels, l.pc);
  }

  /** The main result about assembled programs: what the sweep sees, where references lead, where labels stand. */
  lemma AssembledProgram(lines: seq<Line>)
    requires Assemble(lines).Ok?
    ensures var prog := Assemble(lines).value;
            && SweepExact(prog) && |prog.words| == Size(lines) <= INSTR_STORE_DEPTH
            && ReferencesExact(prog, LayOut(lines).value.pendings)
            && LabelsExact(prog, lines)
  {
    hide SweepExact, ReferencesExact, Emit, LayOut, Size;
    SweepIsExact(lines);
    ReferencesAreExact(lines);
    LabelsAreOffsets(lines);
  }
}
