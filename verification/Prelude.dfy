/** Result and option types, 64-bit words and the bitwise operations on them. */
module Prelude {

  datatype Option<+T> = None | Some(value: T)

  /** A computation that may throw.  Which message it throws is not modelled. */
  datatype Result<+T> = Ok(value: T) | Err {
    predicate IsFailure() { Err? }

    function PropagateFailure<U>(): Result<U>
      requires Err?
    {
      Err
    }

    function Extract(): T
      requires Ok?
    {
      value
    }
  }

  type u64 = x: int | 0 <= x < 0x1_0000_0000_0000_0000

  const U64_MAX: u64 := 0xFFFF_FFFF_FFFF_FFFF

  /** `v & (2^64 - 1)` on an unbounded two's-complement integer. */
  function Mask64(v: int): u64 {
    v % 0x1_0000_0000_0000_0000
  }

  lemma MaskedSum(a: int, c: int)
    ensures Mask64(a + Mask64(c)) == Mask64(a + c)
  {
  }

  function Min(a: int, b: int): int { if a <= b then a else b }

  function Max(a: int, b: int): int { if a >= b then a else b }

  /** ceil(a / b), the quotient taken exactly. */
  function CeilDiv(a: int, b: int): int
    requires b > 0
  {
    -((-a) / b)
  }

  function Pow2(n: nat): (r: nat)
    ensures r > 0
  {
    if n == 0 then 1 else 2 * Pow2(n - 1)
  }

  lemma Pow2At64()
    ensures Pow2(64) == 0x1_0000_0000_0000_0000
  {
    assert Pow2(8) == 0x100;
    Pow2Add(8, 8);
    Pow2Add(16, 16);
    assert Pow2(32) == 0x1_0000_0000;
    Pow2Add(32, 32);
  }

  lemma {:induction false} Pow2Add(a: nat, b: nat)
    ensures Pow2(a + b) == Pow2(a) * Pow2(b)
  {
    hide Pow2;
    if a == 0 {
      Pow2Next(0);
    } else {
      Pow2Add(a - 1, b);
      Pow2Next(a - 1);
      Pow2Next(a - 1 + b);
      Reassociate(2, Pow2(a - 1), Pow2(b));
    }
  }

  lemma Pow2Next(n: nat)
    ensures Pow2(0) == 1 && Pow2(n + 1) == 2 * Pow2(n)
  {
  }

  lemma Reassociate(a: int, b: int, c: int)
    ensures a * (b * c) == a * b * c
  {
  }

  datatype BitOp = BAND | BOR | BXOR

  function OnBit(op: BitOp, a: bool, b: bool): bool {
    match op
    case BAND => a && b
    case BOR => a || b
    case BXOR => a != b
  }

  /** The low `n` bits of a bitwise operation, bit by bit. */
  function Bits(op: BitOp, a: nat, b: nat, n: nat): (r: nat)
    ensures r < Pow2(n)
  {
    if n == 0 then 0
    else 2 * Bits(op, a / 2, b / 2, n - 1) + (if OnBit(op, a % 2 == 1, b % 2 == 1) then 1 else 0)
  }

  function Bitwise(op: BitOp, a: u64, b: u64): u64 {
    Pow2At64();
    Bits(op, a, b, 64)
  }

  /** Masking never exceeds the mask. */
  lemma {:induction false} AndAtMostMask(a: nat, b: nat, n: nat)
    ensures Bits(BAND, a, b, n) <= b
  {
    if n > 0 {
      AndAtMostMask(a / 2, b / 2, n - 1);
    }
  }

  /** The low `k` bits. */
  function LowBits(a: nat, k: nat): (r: nat)
    ensures r < Pow2(k)
  {
    if k == 0 then 0 else 2 * LowBits(a / 2, k - 1) + a % 2
  }

  lemma {:induction false} MaskIsLowBits(a: nat, k: nat, n: nat)
    requires k <= n
    ensures Bits(BAND, a, Pow2(k) - 1, n) == LowBits(a, k)
    decreases n
  {
    if k > 0 {
      hide Pow2, Bits;
      MaskIsLowBits(a / 2, k - 1, n - 1);
      Pow2Next(k - 1);
      BitsNext(BAND, a, Pow2(k) - 1, n);
      OddHalf(Pow2(k - 1) - 1);
    } else {
      AndZero(a, n);
    }
  }

  lemma OddHalf(p: nat)
    ensures (2 * p + 1) / 2 == p && (2 * p + 1) % 2 == 1
  {
  }

  /** What is left of `a` above its low bits is a multiple of a power of two. */
  lemma {:induction false} LowBitsRest(a: nat, k: nat) returns (q: nat)
    ensures a == q * Pow2(k) + LowBits(a, k)
    decreases k
  {
    if k == 0 {
      q := a;
    } else {
      q := LowBitsRest(a / 2, k - 1);
      assert q * Pow2(k) == 2 * (q * Pow2(k - 1));
    }
  }

  /** A mask of low bits keeps the value modulo a power of two. */
  lemma MaskKeepsLow(a: nat, k: nat, n: nat)
    requires k <= n
    ensures Bits(BAND, a, Pow2(k) - 1, n) == a % Pow2(k)
  {
    hide Bits, Pow2, LowBits;
    MaskIsLowBits(a, k, n);
    LowBitsIs(a, k);
  }

  lemma LowBitsIs(a: nat, k: nat)
    ensures LowBits(a, k) == a % Pow2(k)
  {
    hide Pow2, LowBits;
    var q := LowBitsRest(a, k);
    DivModUnique(a, q, LowBits(a, k), Pow2(k));
  }

  lemma {:induction false} AndZero(a: nat, n: nat)
    ensures Bits(BAND, a, 0, n) == 0
  {
    if n > 0 {
      AndZero(a / 2, n - 1);
    }
  }

  lemma MaskFits(w: nat)
    requires w < 64
    ensures 0 <= Pow2(w) - 1 <= U64_MAX
  {
    Pow2Add(w, 64 - w);
    Pow2At64();
    MulAtLeast(Pow2(64 - w), Pow2(w));
  }

  /** The bits from `k` up. */
  function HighBits(a: nat, k: nat): nat {
    if k == 0 then a else HighBits(a / 2, k - 1)
  }

  lemma {:induction false} HighBitsIs(a: nat, k: nat)
    ensures HighBits(a, k) == a / Pow2(k)
    decreases k
  {
    if k > 0 {
      HighBitsIs(a / 2, k - 1);
      DivTwice(a, 2, Pow2(k - 1));
    }
  }

  /** A bitwise operation works on low and high bits apart. */
  lemma {:induction false} BitsSplit(op: BitOp, a: nat, b: nat, k: nat, n: nat)
    requires k <= n
    ensures Bits(op, a, b, n) == Bits(op, a, b, k) + Pow2(k) * Bits(op, HighBits(a, k), HighBits(b, k), n - k)
    decreases k
  {
    hide Pow2, Bits, HighBits;
    BitsNext(op, a, b, n);
    BitsNext(op, a, b, k);
    HighBitsNext(a, k);
    HighBitsNext(b, k);
    if k == 0 {
      Pow2Next(0);
    } else {
      BitsSplit(op, a / 2, b / 2, k - 1, n - 1);
      DoubledProduct(k - 1, Bits(op, HighBits(a, k), HighBits(b, k), n - k));
    }
  }

  lemma BitsNext(op: BitOp, a: nat, b: nat, n: nat)
    ensures Bits(op, a, b, n) == if n == 0 then 0
              else 2 * Bits(op, a / 2, b / 2, n - 1) + (if OnBit(op, a % 2 == 1, b % 2 == 1) then 1 else 0)
  {
  }

  lemma HighBitsNext(a: nat, k: nat)
    ensures HighBits(a, k) == if k == 0 then a else HighBits(a / 2, k - 1)
  {
  }

  lemma DoubledProduct(k: nat, x: nat)
    ensures Pow2(k + 1) * x == 2 * (Pow2(k) * x)
  {
    hide Pow2;
    Pow2Next(k);
    Reassociate(2, Pow2(k), x);
  }

  /** Its low bits come from the low bits of its operands. */
  lemma {:induction false} BitsLow(op: BitOp, a: nat, b: nat, c: nat, k: nat)
    requires LowBits(b, k) == LowBits(c, k)
    ensures Bits(op, a, b, k) == Bits(op, a, c, k)
    decreases k
  {
    if k > 0 {
      BitsLow(op, a / 2, b / 2, c / 2, k - 1);
    }
  }

  /** XOR with one flips a 0/1 flag. */
  lemma XorOneFlips(a: u64)
    requires a <= 1
    ensures Bitwise(BXOR, a, 1) == 1 - a
  {
    Pow2At64();
    assert a == 0 || a == 1;
    XorZeros(63);
    assert a / 2 == 0 && 1 / 2 == 0;
  }

  lemma {:induction false} XorZeros(n: nat)
    ensures Bits(BXOR, 0, 0, n) == 0
  {
    if n > 0 {
      XorZeros(n - 1);
    }
  }

  /** `a << sh` and `a >> sh` on 64-bit words; the amount is taken mod 64. */
  function ShiftLeft(a: u64, sh: int): u64 {
    Mask64(a * Pow2(sh % 64))
  }

  function ShiftRight(a: u64, sh: int): (r: u64) {
    Halve(a, sh % 64)
  }

  /** floor(a / 2^n), one bit at a time. */
  function Halve(a: u64, n: nat): (r: u64)
    ensures r <= a
  {
    if n == 0 then a else Halve(a / 2, n - 1)
  }

  lemma {:induction false} HalveIs(a: u64, n: nat)
    ensures Halve(a, n) == a / Pow2(n)
    decreases n
  {
    if n > 0 {
      hide Pow2;
      HalveIs(a / 2, n - 1);
      Pow2Next(n - 1);
      DivTwice(a, 2, Pow2(n - 1));
    } else {
      Pow2Next(0);
    }
  }

  lemma MulAtLeast(k: int, b: int)
    requires k >= 1 && b > 0
    ensures k * b >= b
  {
  }

  /** Quotient and remainder are unique. */
  lemma DivModUnique(x: int, q: int, r: int, b: int)
    requires b > 0 && 0 <= r < b && x == q * b + r
    ensures x / b == q && x % b == r
  {
    var d := x / b;
    assert x == b * d + x % b;
    assert (d - q) * b == r - x % b;
    if d > q { MulAtLeast(d - q, b); }
    if d < q { MulAtLeast(q - d, b); }
  }

  lemma DivTwice(x: int, a: int, b: int)
    requires a > 0 && b > 0
    ensures a * b > 0
    ensures x / (a * b) == x / a / b
  {
    var q, m := x / a / b, x / a % b;
    assert x / a == b * q + m;
    assert a * (b * q + m) == q * (a * b) + a * m;
    assert a * m <= a * (b - 1) == a * b - a;
    DivModUnique(x, q, x % a + a * m, a * b);
  }

  lemma SubsetSize(a: set<int>, b: set<int>)
    requires a <= b
    ensures |a| <= |b|
  {
    assert b == a + (b - a);
  }
}
