/** Which sources the assembler accepts, read off the lines, and the words it makes of them. */
module AssemblerExact {
  import opened Isa
  import opened Assembler
  import opened CodeWords
  import opened CompiledAssembles

  /** An instruction whose immediates the encoder takes, with a second word if it wants one. */
  predicate Encodable(i: Instr) {
    && -0x80_0000_0000 <= i.imm < 0x100_0000_0000
    && (i.op.MEMCPY? || i.op.CAS? || i.op.CAA? ==>
          i.extra.Some? && -0x80_0000_0000 <= i.extra.value.imm < 0x100_0000_0000)
  }

  /** The instruction with its distance to a label `off` words on. */
  function Aimed(i: Instr, off: int): Instr { i.(imm := if i.op.LOOP? then off - 1 else off) }

  /**
   * An instruction line is encodable as it stands, or refers to a label of the source: a JUMP to one after it, a LOOP
   * to one with a word between.
   */
  predicate Resolved(lines: seq<Line>, k: nat)
    requires k < |lines|
  {
    lines[k].Op? ==>
      match lines[k].ref
      case None => Encodable(lines[k].instr)
      case Some(name) =>
        exists j :: 0 <= j < |lines| && lines[j] == Label(name)
          && AimedAt(lines[k].instr, Size(lines[..j]) - Size(lines[..k]))
  }

  predicate AimedAt(i: Instr, off: int) {
    (i.op.JUMP? ==> off > 0) && (i.op.LOOP? ==> off > 1) && Encodable(Aimed(i, off))
  }

  lemma EncodableIs(i: Instr)
    ensures Encode(i).Ok? <==> Encodable(i)
  {
  }

  lemma {:induction false} LaidOutDistinct(lines: seq<Line>)
    requires LayOut(lines).Ok?
    ensures Distinct(lines) && forall k :: 0 <= k < |lines| ==> !lines[k].Malformed?
  {
    hide Distinct;
    if lines == [] {
      assert Distinct(lines) by { NoLines(0); }
    } else {
      var n := |lines| - 1;
      LaidOutDistinct(lines[..n]);
      OnceOnly(lines[..n], lines[n]);
      assert lines == lines[..n] + [lines[n]];
    }
  }

  /** A line laid out after others is well formed, and no label of theirs. */
  lemma OnceOnly(rest: seq<Line>, last: Line)
    requires LayOut(rest).Ok? && Place(LayOut(rest).value, last).Ok? && Distinct(rest)
    ensures !last.Malformed? && Distinct(rest + [last])
  {
    hide LayOut, Size;
    LabelsAreOffsets(rest);
  }

  lemma LabelOnce(lines: seq<Line>, i: nat, j: nat)
    requires Distinct(lines) && i < |lines| && j < |lines| && lines[i].Label? && lines[i] == lines[j]
    ensures i == j
  {
  }

  /** A pending instruction is patched and encoded exactly when its line resolves. */
  lemma PendingResolves(lines: seq<Line>, k: nat)
    requires LayOut(lines).Ok? && k < |lines| && lines[k].Op?
    ensures var (p, labels) := (Pending(lines[k].instr, lines[k].ref, Size(lines[..k])), LayOut(lines).value.labels);
            Patch(p, labels).Ok? && Encode(Patch(p, labels).value).Ok? <==> Resolved(lines, k)
  {
    hide LayOut, Size, Encode, Encodable;
    var (p, labels) := (Pending(lines[k].instr, lines[k].ref, Size(lines[..k])), LayOut(lines).value.labels);
    LabelsAreOffsets(lines);
    LaidOutDistinct(lines);
    EncodableIs(p.instr);
    if p.ref.Some? && p.ref.value in labels {
      var j :| 0 <= j < |lines| && lines[j] == Label(p.ref.value);
      var off := Size(lines[..j]) - Size(lines[..k]);
      assert labels[p.ref.value] == Size(lines[..j]);
      EncodableIs(Aimed(p.instr, off));
      forall i | 0 <= i < |lines| && lines[i] == Label(p.ref.value) ensures i == j {
        LabelOnce(lines, i, j);
      }
    }
  }

  /**
   * Acceptance, exactly: a source assembles if and only if its lines are well formed, no label stands twice, it takes
   * at most 1024 words, and every instruction resolves.
   */
  lemma AssemblesIff(lines: seq<Line>)
    ensures Assemble(lines).Ok? <==>
              && (forall k :: 0 <= k < |lines| ==> !lines[k].Malformed?)
              && (forall i, j :: 0 <= i < j < |lines| && lines[i].Label? && lines[j].Label? ==>
                    lines[i].name != lines[j].name)
              && Size(lines) <= 1024
              && (forall k :: 0 <= k < |lines| ==> Resolved(lines, k))
  {
    hide Patch, Encode, Emit, LayOut, Resolved, Size;
    if Assemble(lines).Ok? {
      LaidOutDistinct(lines);
      LabelsAreOffsets(lines);
      forall k | 0 <= k < |lines| ensures Resolved(lines, k) {
        if lines[k].Op? { AssembledResolves(lines, k); } else { NoInstruction(lines, k); }
      }
    }
    if Distinct(lines) && (forall k :: 0 <= k < |lines| ==> !lines[k].Malformed?) && Size(lines) <= 1024
       && (forall k :: 0 <= k < |lines| ==> Resolved(lines, k)) {
      LaysOut(lines);
      LabelsAreOffsets(lines);
      var l := LayOut(lines).value;
      forall p | p in l.pendings ensures Patch(p, l.labels).Ok? && Encode(Patch(p, l.labels).value).Ok? {
        var k := PendingFromLine(lines, p);
        PendingResolves(lines, k);
      }
      Emits(l.pendings, l.labels);
    }
  }

  lemma AssembledResolves(lines: seq<Line>, k: nat)
    requires Assemble(lines).Ok? && k < |lines| && lines[k].Op?
    ensures Resolved(lines, k)
  {
    hide Patch, Encode, Emit, LayOut, Resolved, Size;
    OpLinePlaced(lines, k);
    PendingResolves(lines, k);
  }

  lemma NoInstruction(lines: seq<Line>, k: nat)
    requires k < |lines| && !lines[k].Op?
    ensures Resolved(lines, k)
  {
  }

  /** The words of an accepted source: each instruction encoded at the size of the lines before it. */
  lemma AssembledWords(lines: seq<Line>, k: nat)
    requires Assemble(lines).Ok? && k < |lines| && lines[k].Op?
    ensures var (words, at) := (Assemble(lines).value.words, Size(lines[..k]));
            if lines[k].ref.None? then Encodes(words, at, lines[k].instr)
            else exists j :: 0 <= j < |lines| && lines[j] == Label(lines[k].ref.value)
                   && Encodes(words, at, Aimed(lines[k].instr, Size(lines[..j]) - at))
  {
    hide Encode, Emit, LayOut, Size, Encodes;
    OpLinePlaced(lines, k);
    if lines[k].ref.Some? {
      LabelsAreOffsets(lines);
      var j :| 0 <= j < |lines| && lines[j] == Label(lines[k].ref.value);
    }
  }
}
