/** The word copy of MEMCPY: when it is exact, and what it leaves alone. */
module Copy {
  import opened Prelude
  import opened Machine

  function DstWord(dst: u64, i: int): u64 { Mask64(dst + i * 8) }

  /** No destination word written earlier is a later source word. */
  predicate NoOverrun(dst: u64, src: u64, n: int) {
    forall i, j :: 0 <= i < j < n ==> DstWord(dst, i) != DstWord(src, j)
  }

  /** Destination word `i` holds what source word `i` held, for all `i` below `n`, and nothing else has changed. */
  predicate Copied(before: Mem, after: Mem, dst: u64, src: u64, n: int) {
    && (forall i :: 0 <= i < n ==> Load(after, DstWord(dst, i)) == Load(before, DstWord(src, i)))
    && (forall a: u64 :: (forall i :: 0 <= i < n ==> a != DstWord(dst, i)) ==> Load(after, a) == Load(before, a))
  }

  /** Up to the cap the destination words are distinct. */
  lemma WordsDistinct(dst: u64, i: int, j: int)
    requires 0 <= i < j < 0x2000_0000_0000_0000
    ensures DstWord(dst, i) != DstWord(dst, j)
  {
    var x, d, m := dst + i * 8, (j - i) * 8, 0x1_0000_0000_0000_0000;
    var q, r := x / m, x % m;
    if r + d < m {
      DivModUnique(x + d, q, r + d, m);
    } else {
      DivModUnique(x + d, q + 1, r + d - m, m);
    }
  }

  lemma {:induction false} CopyFromFrame(mem: Mem, dst: u64, src: u64, i: nat, n: int, a: u64)
    requires forall k :: i <= k < n ==> a != DstWord(dst, k)
    ensures Load(CopyFrom(mem, dst, src, i, n), a) == Load(mem, a)
    decreases n - i
  {
    if i < n {
      assert a != DstWord(dst, i);
      CopyFromFrame(mem[Mask64(dst + i * 8) := Load(mem, Mask64(src + i * 8))], dst, src, i + 1, n, a);
    }
  }

  lemma {:induction false} CopyFromAt(mem: Mem, dst: u64, src: u64, i: nat, n: int, k: nat)
    requires i <= k < n <= DATA_COPY_WORD_CAP
    requires forall j :: i <= j < k ==> DstWord(dst, j) != DstWord(src, k)
    ensures Load(CopyFrom(mem, dst, src, i, n), DstWord(dst, k)) == Load(mem, DstWord(src, k))
    decreases n - i
  {
    var mem' := mem[Mask64(dst + i * 8) := Load(mem, Mask64(src + i * 8))];
    if i < k {
      CopyFromAt(mem', dst, src, i + 1, n, k);
      assert DstWord(dst, i) != DstWord(src, k);
    } else {
      forall j | i + 1 <= j < n ensures DstWord(dst, k) != DstWord(dst, j) {
        WordsDistinct(dst, k, j);
      }
      CopyFromFrame(mem', dst, src, i + 1, n, DstWord(dst, k));
    }
  }

  /** The copy never writes outside the destination words, whatever the overlap. */
  lemma CopyFrame(mem: Mem, dst: u64, src: u64, length: int, a: u64)
    requires forall i :: 0 <= i < CopyWords(length) ==> a != DstWord(dst, i)
    ensures Load(Memcpy(mem, dst, src, length), a) == Load(mem, a)
  {
    CopyFromFrame(mem, dst, src, 0, CopyWords(length), a);
  }

  lemma CopyExactWhenNoOverrun(mem: Mem, dst: u64, src: u64, length: int)
    requires NoOverrun(dst, src, CopyWords(length))
    ensures Copied(mem, Memcpy(mem, dst, src, length), dst, src, CopyWords(length))
  {
    var n := CopyWords(length);
    forall i | 0 <= i < n
      ensures Load(Memcpy(mem, dst, src, length), DstWord(dst, i)) == Load(mem, DstWord(src, i))
    {
      CopyFromAt(mem, dst, src, 0, n, i);
    }
    forall a: u64 | forall i :: 0 <= i < n ==> a != DstWord(dst, i)
      ensures Load(Memcpy(mem, dst, src, length), a) == Load(mem, a)
    {
      CopyFromFrame(mem, dst, src, 0, n, a);
    }
  }

  // ----- the condition is exact -----

  lemma {:induction false} CopyFromSplit(mem: Mem, dst: u64, src: u64, i: nat, m: nat, n: nat)
    requires i <= m <= n
    ensures CopyFrom(mem, dst, src, i, n) == CopyFrom(CopyFrom(mem, dst, src, i, m), dst, src, m, n)
    decreases m - i
  {
    if i < m {
      CopyFromSplit(mem[Mask64(dst + i * 8) := Load(mem, Mask64(src + i * 8))], dst, src, i + 1, m, n);
    }
  }

  lemma {:induction false} FirstOverrun(dst: u64, src: u64, n: nat) returns (i: nat, j: nat)
    requires !NoOverrun(dst, src, n)
    ensures i < j < n && DstWord(dst, i) == DstWord(src, j) && NoOverrun(dst, src, j)
  {
    if !NoOverrun(dst, src, n - 1) {
      i, j := FirstOverrun(dst, src, n - 1);
    } else {
      i, j :| 0 <= i < j < n && DstWord(dst, i) == DstWord(src, j);
    }
  }

  /** At the first overrun, at `j`, the copy delivers the source word that overwrote source word `j`. */
  lemma OverrunDelivers(mem: Mem, dst: u64, src: u64, i: nat, j: nat, n: nat)
    requires i < j < n <= DATA_COPY_WORD_CAP && DstWord(dst, i) == DstWord(src, j) && NoOverrun(dst, src, j)
    ensures Load(CopyFrom(mem, dst, src, 0, n), DstWord(dst, j)) == Load(mem, DstWord(src, i))
  {
    var before := CopyFrom(mem, dst, src, 0, i);
    var after := before[Mask64(dst + i * 8) := Load(before, Mask64(src + i * 8))];
    CopyFromSplit(mem, dst, src, 0, i, n);
    assert CopyFrom(before, dst, src, i, n) == CopyFrom(after, dst, src, i + 1, n);
    forall k | i + 1 <= k < j ensures DstWord(dst, k) != DstWord(src, j) {
      WordsDistinct(dst, i, k);
    }
    CopyFromAt(after, dst, src, i + 1, n, j);
    CopyFromFrame(mem, dst, src, 0, i, DstWord(src, i));
  }

  lemma OverrunSpoils(dst: u64, src: u64, length: int) returns (mem: Mem)
    requires !NoOverrun(dst, src, CopyWords(length))
    ensures !Copied(mem, Memcpy(mem, dst, src, length), dst, src, CopyWords(length))
  {
    var n := CopyWords(length);
    var i, j := FirstOverrun(dst, src, n);
    mem := map[DstWord(src, j) := 1];
    WordsDistinct(src, i, j);
    OverrunDelivers(mem, dst, src, i, j, n);
  }

  /**
   * The main result: the copy is exact on every memory if and only if no earlier destination word is a later source
   * word.
   */
  lemma CopyExactIff(dst: u64, src: u64, length: int)
    ensures (forall mem: Mem :: Copied(mem, Memcpy(mem, dst, src, length), dst, src, CopyWords(length)))
            <==> NoOverrun(dst, src, CopyWords(length))
  {
    if NoOverrun(dst, src, CopyWords(length)) {
      forall mem: Mem ensures Copied(mem, Memcpy(mem, dst, src, length), dst, src, CopyWords(length)) {
        CopyExactWhenNoOverrun(mem, dst, src, length);
      }
    } else {
      var mem := OverrunSpoils(dst, src, length);
    }
  }

  lemma MaskSmall(v: u64)
    ensures Mask64(v) == v
  {
  }

  /** Without address wrap-around: disjoint and downward copies are exact; an upward overlap by whole words is not. */
  lemma OverrunClosedForm(dst: u64, src: u64, n: nat)
    requires n > 0 && dst + n * 8 <= 0x1_0000_0000_0000_0000 && src + n * 8 <= 0x1_0000_0000_0000_0000
    ensures NoOverrun(dst, src, n) <==> !(src < dst <= src + (n - 1) * 8 && (dst - src) % 8 == 0)
  {
    if src < dst <= src + (n - 1) * 8 && (dst - src) % 8 == 0 {
      var k := (dst - src) / 8;
      assert dst + 0 * 8 == src + k * 8 && 0 < k < n;
      assert DstWord(dst, 0) == DstWord(src, k);
    }
    forall i, j | 0 <= i < j < n && DstWord(dst, i) == DstWord(src, j)
      ensures src < dst <= src + (n - 1) * 8 && (dst - src) % 8 == 0
    {
      MaskSmall(dst + i * 8);
      MaskSmall(src + j * 8);
      assert dst - src == (j - i) * 8;
    }
  }
}
