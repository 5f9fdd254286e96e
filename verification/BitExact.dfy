/** What the bitwise operations and shifts compute, bit by bit and against addition. */
module BitExact {
  import opened Prelude

  /** Bit `k` of a number. */
  function Bit(a: nat, k: nat): nat { a / Pow2(k) % 2 }

  lemma BitNext(a: nat, k: nat)
    ensures Bit(a, 0) == a % 2 && Bit(a, k + 1) == Bit(a / 2, k)
  {
    hide Pow2;
    Pow2Next(k);
    DivTwice(a, 2, Pow2(k));
  }

  // ----- and, or, exclusive or -----

  lemma {:induction false} BitOfAnd(a: nat, b: nat, n: nat, k: nat)
    requires k < n
    ensures Bit(Bits(BAND, a, b, n), k) == (if Bit(a, k) == 1 && Bit(b, k) == 1 then 1 else 0)
  {
    hide Bit;
    BitStep(BAND, a, b, n, k);
    if k > 0 { BitOfAnd(a / 2, b / 2, n - 1, k - 1); }
  }

  lemma {:induction false} BitOfOr(a: nat, b: nat, n: nat, k: nat)
    requires k < n
    ensures Bit(Bits(BOR, a, b, n), k) == (if Bit(a, k) == 1 || Bit(b, k) == 1 then 1 else 0)
  {
    hide Bit;
    BitStep(BOR, a, b, n, k);
    if k > 0 { BitOfOr(a / 2, b / 2, n - 1, k - 1); }
  }

  lemma {:induction false} BitOfXor(a: nat, b: nat, n: nat, k: nat)
    requires k < n
    ensures Bit(Bits(BXOR, a, b, n), k) == (if Bit(a, k) != Bit(b, k) then 1 else 0)
  {
    hide Bit;
    BitStep(BXOR, a, b, n, k);
    if k > 0 { BitOfXor(a / 2, b / 2, n - 1, k - 1); }
  }

  /** The bits of the operands and of the result, one step down. */
  lemma BitStep(op: BitOp, a: nat, b: nat, n: nat, k: nat)
    requires k < n
    ensures var r := Bits(op, a, b, n);
            && r / 2 == Bits(op, a / 2, b / 2, n - 1)
            && (k == 0 ==> Bit(a, k) == a % 2 && Bit(b, k) == b % 2 && Bit(r, k) == r % 2)
            && (k == 0 ==> r % 2 == (if OnBit(op, a % 2 == 1, b % 2 == 1) then 1 else 0))
            && (k > 0 ==> Bit(a, k) == Bit(a / 2, k - 1) && Bit(b, k) == Bit(b / 2, k - 1))
            && (k > 0 ==> Bit(r, k) == Bit(r / 2, k - 1))
  {
    hide Bit, Pow2, OnBit;
    var r := Bits(op, a, b, n);
    var j := if k > 0 then k - 1 else 0;
    BitNext(a, j);
    BitNext(b, j);
    BitNext(r, j);
  }

  lemma {:induction false} AndOrSum(a: nat, b: nat, n: nat)
    requires a < Pow2(n) && b < Pow2(n)
    ensures Bits(BOR, a, b, n) + Bits(BAND, a, b, n) == a + b
    ensures Bits(BXOR, a, b, n) + 2 * Bits(BAND, a, b, n) == a + b
  {
    if n > 0 {
      AndOrSum(a / 2, b / 2, n - 1);
    }
  }

  /** Bit k of the result is set when both, either or exactly one of the operand bits are. */
  lemma LogicBits(a: u64, b: u64, k: nat)
    requires k < 64
    ensures Bitwise(BAND, a, b) / Pow2(k) % 2 == 1 <==> a / Pow2(k) % 2 == 1 && b / Pow2(k) % 2 == 1
    ensures Bitwise(BOR, a, b) / Pow2(k) % 2 == 1 <==> a / Pow2(k) % 2 == 1 || b / Pow2(k) % 2 == 1
    ensures Bitwise(BXOR, a, b) / Pow2(k) % 2 == 1 <==> a / Pow2(k) % 2 != b / Pow2(k) % 2
  {
    hide Bits, Pow2;
    BitOfAnd(a, b, 64, k);
    BitOfOr(a, b, 64, k);
    BitOfXor(a, b, 64, k);
  }

  /** What both operands have is counted twice by a sum, once by `|` and not at all by `^`. */
  lemma LogicSums(a: u64, b: u64)
    ensures Bitwise(BOR, a, b) + Bitwise(BAND, a, b) == a + b
    ensures Bitwise(BXOR, a, b) + 2 * Bitwise(BAND, a, b) == a + b
  {
    hide Bits;
    Pow2At64();
    AndOrSum(a, b, 64);
  }

  // ----- shifts -----

  lemma {:induction false} BitOfProduct(a: nat, s: nat, k: nat)
    ensures Bit(a * Pow2(s), k) == if k < s then 0 else Bit(a, k - s)
    decreases s
  {
    hide Bit, Pow2;
    if s == 0 {
      Pow2Next(0);
      assert a * Pow2(s) == a;
    } else {
      Pow2Next(s - 1);
      var p := a * Pow2(s - 1);
      assert a * Pow2(s) == 2 * p by { Reassociate(2, a, Pow2(s - 1)); Reassociate(a, 2, Pow2(s - 1)); }
      BitNext(2 * p, if k > 0 then k - 1 else 0);
      assert (2 * p) / 2 == p && (2 * p) % 2 == 0;
      if k > 0 { BitOfProduct(a, s - 1, k - 1); }
    }
  }

  lemma {:induction false} BitOfReduced(a: nat, n: nat, k: nat)
    requires k < n
    ensures Bit(a % Pow2(n), k) == Bit(a, k)
    decreases k
  {
    hide Bit, Pow2;
    Pow2Next(n - 1);
    var r, j := a % Pow2(n), if k > 0 then k - 1 else 0;
    BitNext(a, j);
    BitNext(r, j);
    HalfReduced(a, Pow2(n - 1));
    if k > 0 { BitOfReduced(a / 2, n - 1, k - 1); }
  }

  lemma HalfReduced(a: nat, p: nat)
    requires p > 0
    ensures a % (2 * p) / 2 == a / 2 % p && a % (2 * p) % 2 == a % 2
  {
    var q, r := a / 2 / p, a / 2 % p;
    assert a / 2 == q * p + r;
    var low := 2 * r + a % 2;
    assert a == q * (2 * p) + low by { assert q * (2 * p) == 2 * (q * p); }
    DivModUnique(a, q, low, 2 * p);
  }

  /** Shifts move bits by the amount mod 64 and bring in zeros. */
  lemma ShiftsMoveBits(a: u64, sh: int, k: nat)
    requires k < 64
    ensures var s := sh % 64;
            && ShiftLeft(a, sh) / Pow2(k) % 2 == (if k < s then 0 else a / Pow2(k - s) % 2)
            && ShiftRight(a, sh) == a / Pow2(s)
  {
    hide Pow2;
    Pow2At64();
    HalveIs(a, sh % 64);
    BitOfReduced(a * Pow2(sh % 64), 64, k);
    BitOfProduct(a, sh % 64, k);
  }
}
