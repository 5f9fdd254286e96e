/** Whatever the assembler accepts halts: jumps only go forward and second words are no instructions. */
module AssembledHalts {
  import opened Isa
  import opened Machine
  import opened Assembler
  import opened Termination
  import opened CodeWords

  /** As the mnemonics build them: a JUMP or LOOP refers to a label. */
  predicate ControlNamesLabel(lines: seq<Line>) {
    forall k :: 0 <= k < |lines| && lines[k].Op? && (lines[k].instr.op.JUMP? || lines[k].instr.op.LOOP?)
      ==> lines[k].ref.Some?
  }

  /** Every word belongs to the instruction at it or to the one just before it. */
  lemma {:induction false} WordOwned(pendings: seq<Pending>, pc: int, w: nat) returns (k: nat)
    requires EndToEnd(pendings, pc) && w < pc
    ensures k < |pendings| && pendings[k].pc <= w < pendings[k].pc + Width(pendings[k].instr.op)
  {
    var n := |pendings| - 1;
    if w < pendings[n].pc {
      k := WordOwned(pendings[..n], pendings[n].pc, w);
    } else {
      k := n;
    }
  }

  /** A word starts an instruction whose jump, if it is one, goes forward, or is a second word and decodes as NOP. */
  lemma WordForward(lines: seq<Line>, w: nat)
    requires Assemble(lines).Ok? && ControlNamesLabel(lines) && w < |Assemble(lines).value.words|
    ensures var words := Assemble(lines).value.words;
            && (At(words, w).op.JUMP? || At(words, w).op.LOOP? ==> At(words, w).imm > 0)
            && w + Width(At(words, w).op) <= |words|
  {
    hide Encode, Patch, Emit, LayOut, EndToEnd, DecodeWord, Size, ControlNamesLabel;
    var prog, l := Assemble(lines).value, LayOut(lines).value;
    LayOutEndToEnd(lines);
    EmitPlaces(l.pendings, l.labels, l.pc);
    var k := WordOwned(l.pendings, l.pc, w);
    var p, instr := l.pendings[k], prog.instrs[k];
    PatchKeepsOp(p, l.labels);
    EncodeFaithful(instr);
    EncodesSeen(prog.words, p.pc, instr);
    if w == p.pc {
      if p.instr.op.JUMP? || p.instr.op.LOOP? {
        ReferencesAreExact(lines);
        SweepIsExact(lines);
        LabelsInside(lines, p);
      }
    } else {
      var e := Encode(instr).value;
      assert prog.words[w] == prog.words[p.pc..p.pc + |e|][1] == e[1];
    }
  }

  lemma LabelsInside(lines: seq<Line>, p: Pending)
    requires LayOut(lines).Ok? && p in LayOut(lines).value.pendings && ControlNamesLabel(lines)
    requires p.instr.op.JUMP? || p.instr.op.LOOP?
    ensures p.ref.Some?
    ensures forall name :: name in LayOut(lines).value.labels ==> LayOut(lines).value.labels[name] <= Size(lines)
  {
    hide LayOut, Size;
    var k := PendingFromLine(lines, p);
    LabelsAreOffsets(lines);
    forall name | name in LayOut(lines).value.labels ensures LayOut(lines).value.labels[name] <= Size(lines) {
      var j :| 0 <= j < |lines| && lines[j] == Label(name);
      SizeMonotone(lines, j);
    }
  }

  /**
   * The main result: every program the assembler accepts halts for all arguments and memory, without the step
   * limit and without ever fetching an undefined word.
   */
  lemma AssembledTerminates(lines: seq<Line>, args: seq<int>, mem: Mem)
    requires Assemble(lines).Ok? && ControlNamesLabel(lines) && Assemble(lines).value.words != []
    ensures var words := Assemble(lines).value.words;
            Run(words, Reset(args, mem), Budget(|words|)).status != Running
  {
    hide Assemble, At, Run, Budget, ControlNamesLabel;
    var words := Assemble(lines).value.words;
    forall w | 0 <= w < |words|
      ensures (At(words, w).op.JUMP? || At(words, w).op.LOOP? ==> At(words, w).imm > 0)
          && w + Width(At(words, w).op) <= |words|
    {
      WordForward(lines, w);
    }
    Terminates(words, args, mem);
  }
}
