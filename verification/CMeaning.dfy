/**
 * The value C gives an expression, as a mathematical integer in the range of its type (sections 6.3.1, 6.5.3 to 6.5.9
 * of ISO/IEC 9899:2011), and the theorem that the explicit form, evaluated on words, is that value modulo 2^64.
 */
module CMeaning {
  import opened Prelude
  import opened Machine
  import opened Ast
  import opened Conversions
  import opened Source
  import opened ExprCorrect

  const HALF := 0x8000_0000_0000_0000

  const WHOLE := 0x1_0000_0000_0000_0000

  /** A value, its kind, and the memory after it. */
  datatype CVal = CVal(n: int, kind: Kind, mem: Mem)

  /** The range of a kind. */
  predicate InKind(n: int, k: Kind) {
    match k
    case Natural => 0 <= n < HALF
    case Signed => -HALF <= n < HALF
    case Narrow => 0 <= n < 0x1_0000_0000
    case _ => 0 <= n < WHOLE
  }

  /** The value of a kind that a word holds. */
  function FromWord(w: u64, k: Kind): int { if k.Signed? && w >= HALF then w - WHOLE else w }

  /** A value out of the range of a signed kind is an overflow. */
  function Checked(n: int, k: Kind, mem: Mem): Result<CVal> {
    if InKind(n, k) then Ok(CVal(n, k, mem)) else Err
  }

  predicate Relates(op: BinOp, a: int, b: int)
    requires IsRelation(op)
  {
    match op
    case Equal => a == b
    case NotEqual => a != b
    case Less => a < b
    case LessEqual => a <= b
    case Greater => a > b
    case GreaterEqual => a >= b
  }

  /** An operation on operands of one kind, before its result is brought into range. */
  function Arith(op: BinOp, a: int, b: int, k: Kind): Result<int>
    requires !IsRelation(op)
  {
    match op
    case Plus => Ok(a + b)
    case Minus => Ok(a - b)
    case Times => Ok(a * b)
    case Divide => if a < 0 || b <= 0 then Err else Ok(a / b)
    case Modulo => if a < 0 || b <= 0 then Err else Ok(a % b)
    case ShiftL => if 0 <= b < 64 then Ok(a * Pow2(b)) else Err
    case ShiftR => if a >= 0 && 0 <= b < 64 then Ok(a / Pow2(b)) else Err
    case BitAnd => Ok(FromWord(Bitwise(BAND, Mask64(a), Mask64(b)), k))
    case BitOr => Ok(FromWord(Bitwise(BOR, Mask64(a), Mask64(b)), k))
    case BitXor => Ok(FromWord(Bitwise(BXOR, Mask64(a), Mask64(b)), k))
  }

  /** Unsigned words when either operand is one, the integers themselves otherwise. */
  predicate Unsigned64(a: Kind, b: Kind) { a.Word? || b.Word? || a.Pointer? || b.Pointer? }

  function CBin(op: BinOp, x: CVal, y: CVal): Result<CVal> {
    if IsRelation(op) then
      var a := if Unsigned64(x.kind, y.kind) then Mask64(x.n) else x.n;
      var b := if Unsigned64(x.kind, y.kind) then Mask64(y.n) else y.n;
      Ok(CVal(if Relates(op, a, b) then 1 else 0, Natural, y.mem))
    else if x.kind.Pointer? && !y.kind.Pointer? && (op.Plus? || op.Minus?) then
      var size :- SizeOf(x.kind.pointee);
      Ok(CVal(Mask64(if op.Plus? then x.n + y.n * size else x.n - y.n * size), x.kind, y.mem))
    else if y.kind.Pointer? && !x.kind.Pointer? && op.Plus? then
      var size :- SizeOf(y.kind.pointee);
      Ok(CVal(Mask64(y.n + x.n * size), y.kind, y.mem))
    else
      var k :- ArithKind(op, x.kind, y.kind);
      // A shift converts its left operand alone; the others convert both.
      var a := if k.Word? then Mask64(x.n) else x.n;
      var b := if k.Word? && !op.ShiftL? && !op.ShiftR? then Mask64(y.n) else y.n;
      var v :- Arith(op, a, b, k);
      if k.Word? then Ok(CVal(Mask64(v), k, y.mem)) else Checked(v, k, y.mem)
  }

  function CUn(op: UnOp, x: CVal): Result<CVal> {
    if op.LogicalNot? then Ok(CVal(if x.n == 0 then 1 else 0, Natural, x.mem))
    else
      var k :- UnKind(op, x.kind);
      var v := if op.Negate? then -x.n else -x.n - 1;
      if k.Word? then Ok(CVal(Mask64(v), k, x.mem)) else Checked(v, k, x.mem)
  }

  /** A cast: to a word, to fewer bits by reduction if unsigned, to fewer bits of a signed type only what fits. */
  function CCast(ty: CType, x: CVal): Result<CVal> {
    if KindOf(ty).Ok? then Ok(CVal(FromWord(Mask64(x.n), KindOf(ty).value), KindOf(ty).value, x.mem))
    else
      match BitsOf(ty.names)
      case None => Err
      case Some(w) =>
        if IsUnsigned(ty.names) then Ok(CVal(x.n % Pow2(w), Narrow, x.mem))
        else if w > 0 && 0 <= x.n < Pow2(w - 1) then Ok(CVal(x.n, Natural, x.mem))
        else Err
  }

  function CEval(ks: Kinds, e: Expr, vars: Vars, mem: Mem): Result<CVal>
    decreases e
  {
    match e
    case Const(v) => Checked(v, Natural, mem)
    case Id(name) =>
      if name in ks && name in vars then Checked(FromWord(vars[name], ks[name]), ks[name], mem) else Err
    case Bin(op, l, r) =>
      var x :- CEval(ks, l, vars, mem);
      var y :- CEval(ks, r, vars, x.mem);
      CBin(op, x, y)
    case Un(op, inner) =>
      var x :- CEval(ks, inner, vars, mem);
      CUn(op, x)
    case Index(base, index) =>
      if !base.Id? || base.name !in ks || base.name !in vars || !ks[base.name].Pointer? then Err
      else
        var k :- KindOf(ks[base.name].pointee);
        var i :- CEval(ks, index, vars, mem);
        Ok(CVal(FromWord(Load(i.mem, Mask64(vars[base.name] + i.n * 8)), k), k, i.mem))
    case Call(fn, args) => CCall(ks, fn, args, vars, mem)
    case Cast(ty, inner) =>
      var x :- CEval(ks, inner, vars, mem);
      CCast(ty, x)
  }

  /** A constant argument after its conversions. */
  function ConstArg(ks: Kinds, e: Expr): Result<int> {
    var t :- Explicit(ks, e);
    RequireConst(t.e)
  }

  /** The builtins take and return 64-bit words. */
  function CCall(ks: Kinds, fn: string, args: seq<Expr>, vars: Vars, mem: Mem): Result<CVal>
    decreases args
  {
    if fn == "tiara_andi" && |args| == 2 then
      var x :- CEval(ks, args[0], vars, mem);
      var m :- CEval(ks, args[1], vars, x.mem);
      Ok(CVal(Bitwise(BAND, Mask64(x.n), Mask64(m.n)), Word, m.mem))
    else if fn == "tiara_memcpy" && |args| == 4 then
      var d :- CEval(ks, args[0], vars, mem);
      var s :- CEval(ks, args[1], vars, d.mem);
      var length :- ConstArg(ks, args[2]);
      var _ :- ConstArg(ks, args[3]);
      Ok(CVal(0, Word, Memcpy(s.mem, Mask64(d.n), Mask64(s.n), length)))
    else if fn == "tiara_cas" && |args| == 3 then
      var x :- CEval(ks, args[0], vars, mem);
      var e :- CEval(ks, args[1], vars, x.mem);
      var n :- CEval(ks, args[2], vars, e.mem);
      var cur := Load(n.mem, Mask64(x.n));
      Ok(CVal(cur, Word, if cur == Mask64(e.n) then n.mem[Mask64(x.n) := Mask64(n.n)] else n.mem))
    else if fn == "tiara_caa" && |args| == 2 then
      var x :- CEval(ks, args[0], vars, mem);
      var y :- CEval(ks, args[1], vars, x.mem);
      var cur := Load(y.mem, Mask64(x.n));
      Ok(CVal(cur, Word, y.mem[Mask64(x.n) := Mask64(cur + y.n)]))
    else if fn == "tiara_wait" && |args| == 1 then
      var _ :- ConstArg(ks, args[0]);
      Ok(CVal(0, Word, mem))
    else Err
  }

  // ----- arithmetic modulo 2^64 -----

  /** The word of a value determines what its sums and products are modulo 2^64. */
  lemma MaskedSums(a: int, b: int)
    ensures Mask64(Mask64(a) + Mask64(b)) == Mask64(a + b) && Mask64(Mask64(a) - Mask64(b)) == Mask64(a - b)
  {
    var qa, qb := a / WHOLE, b / WHOLE;
    assert a == qa * WHOLE + Mask64(a) && b == qb * WHOLE + Mask64(b);
    MaskedMultiple(qa + qb, Mask64(a) + Mask64(b));
    MaskedMultiple(qa - qb, Mask64(a) - Mask64(b));
  }

  lemma MaskedProducts(a: int, b: int)
    ensures Mask64(Mask64(a) * Mask64(b)) == Mask64(a * b)
  {
    hide Mask64;
    MaskedProduct(a, Mask64(b));
    MaskedProduct(b, a);
    assert a * Mask64(b) == Mask64(b) * a && a * b == b * a;
  }

  lemma MaskedProduct(a: int, b: int)
    ensures Mask64(Mask64(a) * b) == Mask64(a * b)
  {
    var q := a / WHOLE;
    assert a == q * WHOLE + Mask64(a);
    assert a * b == (q * b) * WHOLE + Mask64(a) * b;
    MaskedMultiple(q * b, Mask64(a) * b);
  }

  lemma MaskedMultiple(q: int, x: int)
    ensures Mask64(q * WHOLE + x) == Mask64(x)
  {
    DivModUnique(q * WHOLE + x, q + x / WHOLE, x % WHOLE, WHOLE);
  }

  lemma MaskedTwice(a: int)
    ensures Mask64(Mask64(a)) == Mask64(a)
  {
  }

  lemma WordsDecide(a: int, b: int, ka: Kind, kb: Kind)
    requires InKind(a, ka) && InKind(b, kb) && !Unsigned64(ka, kb)
    ensures Mask64(a) == Mask64(b) <==> a == b
  {
  }

  lemma FromWordBack(w: u64, k: Kind)
    ensures Mask64(FromWord(w, k)) == w
  {
  }

  // ----- operators -----

  lemma RelationMeans(op: BinOp, x: CVal, y: CVal)
    requires IsRelation(op) && Comparable(op, x.kind, y.kind) && InKind(x.n, x.kind) && InKind(y.n, y.kind)
    ensures CBin(op, x, y).Ok? && BinValue(op, Mask64(x.n), Mask64(y.n)) == Ok(Mask64(CBin(op, x, y).value.n))
  {
    hide Mask64;
    WordsStay();
    if !Unsigned64(x.kind, y.kind) { WordsDecide(x.n, y.n, x.kind, y.kind); }
  }

  lemma ShiftsMean(op: BinOp, a: int, b: int, k: Kind)
    requires (op.ShiftL? || op.ShiftR?) && Arith(op, a, b, k).Ok? && (op.ShiftR? ==> a < WHOLE)
    ensures BinValue(op, Mask64(a), Mask64(b)) == Ok(Mask64(Arith(op, a, b, k).value))
  {
    hide Pow2, Halve, FromWord, Bitwise, Mask64;
    WordsStay();
    assert Mask64(b) % 64 == b;
    if op.ShiftL? {
      MaskedProduct(a, Pow2(b));
    } else {
      HalveIs(a, b);
      QuotientFits(a, Pow2(b));
    }
  }

  lemma QuotientsMean(op: BinOp, a: int, b: int, k: Kind)
    requires (op.Divide? || op.Modulo?) && Arith(op, a, b, k).Ok? && a < WHOLE && b < WHOLE
    ensures BinValue(op, Mask64(a), Mask64(b)) == Ok(Mask64(Arith(op, a, b, k).value))
  {
    hide Pow2, FromWord, Bitwise, Mask64, ShiftLeft, ShiftRight;
    QuotientFits(a, b);
    WordsStay();
    if op.Modulo? { RemainderFits(a, b); }
  }

  lemma RemainderFits(a: int, b: int)
    requires b > 0
    ensures 0 <= a % b < b
  {
  }

  /** The word operation on the words of two integers is the word of the operation on the integers. */
  lemma ArithMeans(op: BinOp, a: int, b: int, k: Kind)
    requires !IsRelation(op) && Arith(op, a, b, k).Ok?
    requires op.Divide? || op.Modulo? || op.ShiftR? ==> a < WHOLE
    requires op.Divide? || op.Modulo? ==> b < WHOLE
    ensures BinValue(op, Mask64(a), Mask64(b)) == Ok(Mask64(Arith(op, a, b, k).value))
  {
    hide Pow2, Bitwise, FromWord, ShiftLeft, ShiftRight, Quotient, Mask64;
    match op
    case Plus => MaskedSums(a, b);
    case Minus => MaskedSums(a, b);
    case Times => MaskedProducts(a, b);
    case Divide => QuotientsMean(op, a, b, k);
    case Modulo => QuotientsMean(op, a, b, k);
    case ShiftL => ShiftsMean(op, a, b, k);
    case ShiftR => ShiftsMean(op, a, b, k);
    case BitAnd => FromWordBack(Bitwise(BAND, Mask64(a), Mask64(b)), k);
    case BitOr => FromWordBack(Bitwise(BOR, Mask64(a), Mask64(b)), k);
    case BitXor => FromWordBack(Bitwise(BXOR, Mask64(a), Mask64(b)), k);
  }

  /** Evaluating an operator's explicit operands in turn. */
  lemma EvalBin(op: BinOp, l: Expr, r: Expr, vars: Vars, mem: Mem, x: Val, y: Val)
    requires Eval(l, vars, mem) == Ok(x) && Eval(r, vars, x.mem) == Ok(y) && BinValue(op, x.v, y.v).Ok?
    ensures Eval(Bin(op, l, r), vars, mem) == Ok(Val(BinValue(op, x.v, y.v).value, y.mem))
  {
    hide BinValue;
  }

  /** An integer of bytes. */
  lemma ScaledMeans(e: Expr, pointee: CType, vars: Vars, mem: Mem, n: int, after: Mem)
    requires Eval(e, vars, mem) == Ok(Val(Mask64(n), after)) && Scaled(e, pointee).Ok?
    ensures SizeOf(pointee).Ok?
    ensures Eval(Scaled(e, pointee).value, vars, mem) == Ok(Val(Mask64(n * SizeOf(pointee).value), after))
  {
    hide SizeOf;
    var size := SizeOf(pointee).value;
    if size != 1 {
      MaskedProducts(n, size);
      EvalBin(Times, e, Ast.Const(size), vars, mem, Val(Mask64(n), after), Val(Mask64(size), after));
    }
  }

  lemma IntegersMean(op: BinOp, x: CVal, y: CVal)
    requires !IsRelation(op) && InKind(x.n, x.kind) && InKind(y.n, y.kind) && ArithKind(op, x.kind, y.kind).Ok?
    requires CBin(op, x, y).Ok? && !x.kind.Pointer? && !y.kind.Pointer?
    ensures var c := CBin(op, x, y).value;
            && BinValue(op, Mask64(x.n), Mask64(y.n)) == Ok(Mask64(c.n))
            && c.kind == ArithKind(op, x.kind, y.kind).value && InKind(c.n, c.kind) && c.mem == y.mem
  {
    hide BinValue, Arith;
    var k := ArithKind(op, x.kind, y.kind).value;
    var a := if k.Word? then Mask64(x.n) else x.n;
    var b := if k.Word? && !op.ShiftL? && !op.ShiftR? then Mask64(y.n) else y.n;
    ArithOperands(op, a, b, k);
    MaskedTwice(x.n);
    MaskedTwice(y.n);
    ArithMeans(op, a, b, k);
    MaskedTwice(Arith(op, a, b, k).value);
  }

  lemma ArithOperands(op: BinOp, a: int, b: int, k: Kind)
    requires !IsRelation(op) && Arith(op, a, b, k).Ok?
    ensures op.Divide? || op.Modulo? ==> 0 <= a && 0 < b
    ensures op.ShiftR? ==> 0 <= a
    ensures op.ShiftL? || op.ShiftR? ==> 0 <= b < 64
  {
  }

  predicate IsStep(op: BinOp, a: Kind, b: Kind) {
    (a.Pointer? && !b.Pointer? && (op.Plus? || op.Minus?)) || (b.Pointer? && !a.Pointer? && op.Plus?)
  }

  /** A pointer step. */
  lemma StepMeans(op: BinOp, l: Typed, r: Typed, x: CVal, y: CVal, vars: Vars, mem: Mem)
    requires IsStep(op, x.kind, y.kind)
    requires ExplicitBin(op, l, r).Ok? && CBin(op, x, y).Ok? && l.kind == x.kind && r.kind == y.kind
    requires Eval(l.e, vars, mem) == Ok(Val(Mask64(x.n), x.mem))
    requires Eval(r.e, vars, x.mem) == Ok(Val(Mask64(y.n), y.mem))
    ensures var t, c := ExplicitBin(op, l, r).value, CBin(op, x, y).value;
            t.kind == c.kind && InKind(c.n, c.kind) && Eval(t.e, vars, mem) == Ok(Val(Mask64(c.n), c.mem))
  {
    hide BinValue, Eval, Arith, ArithKind, Scaled, SizeOf, Comparable, Mask64;
    if x.kind.Pointer? {
      ScaledMeans(r.e, x.kind.pointee, vars, x.mem, y.n, y.mem);
      var step := y.n * SizeOf(x.kind.pointee).value;
      SumMeans(op, x.n, step);
      MaskedTwice(if op.Plus? then x.n + step else x.n - step);
      var u := Val(Mask64(x.n), x.mem);
      EvalBin(op, l.e, Scaled(r.e, x.kind.pointee).value, vars, mem, u, Val(Mask64(step), y.mem));
    } else {
      ScaledMeans(l.e, y.kind.pointee, vars, mem, x.n, x.mem);
      var step := x.n * SizeOf(y.kind.pointee).value;
      SumMeans(op, step, y.n);
      MaskedTwice(step + y.n);
      var v := Val(Mask64(y.n), y.mem);
      EvalBin(op, Scaled(l.e, y.kind.pointee).value, r.e, vars, mem, Val(Mask64(step), x.mem), v);
    }
  }

  lemma BinMeans(op: BinOp, l: Typed, r: Typed, x: CVal, y: CVal, vars: Vars, mem: Mem)
    requires ExplicitBin(op, l, r).Ok? && CBin(op, x, y).Ok? && l.kind == x.kind && r.kind == y.kind
    requires Eval(l.e, vars, mem) == Ok(Val(Mask64(x.n), x.mem)) && InKind(x.n, x.kind)
    requires Eval(r.e, vars, x.mem) == Ok(Val(Mask64(y.n), y.mem)) && InKind(y.n, y.kind)
    ensures var t, c := ExplicitBin(op, l, r).value, CBin(op, x, y).value;
            t.kind == c.kind && InKind(c.n, c.kind) && Eval(t.e, vars, mem) == Ok(Val(Mask64(c.n), c.mem))
  {
    hide BinValue, Eval, Arith, ArithKind, Scaled, SizeOf, Comparable, Mask64, Relates;
    if IsStep(op, x.kind, y.kind) {
      StepMeans(op, l, r, x, y, vars, mem);
    } else {
      if IsRelation(op) {
        RelationMeans(op, x, y);
      } else {
        NoPointers(op, x.kind, y.kind);
        IntegersMean(op, x, y);
      }
      EvalBin(op, l.e, r.e, vars, mem, Val(Mask64(x.n), x.mem), Val(Mask64(y.n), y.mem));
    }
  }

  lemma NoPointers(op: BinOp, a: Kind, b: Kind)
    requires ArithKind(op, a, b).Ok?
    ensures !a.Pointer? && !b.Pointer?
  {
  }

  lemma SumMeans(op: BinOp, a: int, b: int)
    requires op.Plus? || op.Minus?
    ensures BinValue(op, Mask64(a), Mask64(b)) == Ok(Mask64(if op.Plus? then a + b else a - b))
  {
    hide Mask64;
    MaskedSums(a, b);
  }

  lemma UnMeans(op: UnOp, x: CVal)
    requires CUn(op, x).Ok? && InKind(x.n, x.kind) && UnKind(op, x.kind).Ok?
    ensures var c := CUn(op, x).value;
            && c.kind == UnKind(op, x.kind).value && InKind(c.n, c.kind) && c.mem == x.mem
            && UnValue(op, Mask64(x.n)) == Mask64(c.n)
  {
    hide Mask64;
    NegatedWord(x.n);
    MaskedTwice(-x.n);
    MaskedTwice(-x.n - 1);
    ZeroWord(x.n, x.kind);
  }

  lemma NegatedWord(n: int)
    ensures Mask64(0 - Mask64(n) as int) == Mask64(-n) && U64_MAX - Mask64(n) == Mask64(-n - 1)
  {
    MaskedSums(0, n);
    var q := n / WHOLE;
    assert n == q * WHOLE + Mask64(n);
    DivModUnique(-n - 1, -q - 1, U64_MAX - Mask64(n), WHOLE);
  }

  lemma ZeroWord(n: int, k: Kind)
    requires InKind(n, k)
    ensures Mask64(n) == 0 <==> n == 0
    ensures Mask64(1) == 1 && Mask64(0) == 0
  {
  }

  // ----- casts -----

  /** Reducing to w bits needs only the word. */
  lemma ReducedWord(n: int, w: nat)
    requires w <= 64
    ensures Mask64(n) % Pow2(w) == n % Pow2(w)
  {
    hide Pow2;
    Pow2Add(w, 64 - w);
    Pow2At64();
    var p, k, q := Pow2(w), Pow2(64 - w), n / WHOLE;
    assert n == q * WHOLE + Mask64(n);
    assert q * (p * k) == (q * k) * p;
    var m := Mask64(n);
    assert n == (q * k + m / p) * p + m % p by {
      assert m == p * (m / p) + m % p;
      assert (q * k + m / p) * p == (q * k) * p + p * (m / p);
    }
    DivModUnique(n, q * k + m / p, m % p, p);
  }

  lemma NarrowWidth(ty: CType)
    requires KindOf(ty).Err? && BitsOf(ty.names).Some?
    ensures var w := BitsOf(ty.names).value; w == 8 || w == 16 || w == 32
  {
  }

  lemma SmallPowers()
    ensures Pow2(8) == 0x100 && Pow2(16) == 0x1_0000 && Pow2(32) == 0x1_0000_0000
    ensures Pow2(7) == 0x80 && Pow2(15) == 0x8000 && Pow2(31) == 0x8000_0000
  {
    assert Pow2(7) == 0x80;
    Pow2Add(8, 8);
    Pow2Add(16, 16);
    assert Pow2(16) == 2 * Pow2(15) && Pow2(32) == 2 * Pow2(31);
  }

  lemma EvalCast(ty: CType, e: Expr, vars: Vars, mem: Mem)
    ensures Eval(Cast(ty, e), vars, mem) == Eval(e, vars, mem)
  {
  }

  lemma CastMeans(ty: CType, t: Typed, x: CVal, vars: Vars, mem: Mem)
    requires Convert(ty, t).Ok? && CCast(ty, x).Ok? && InKind(x.n, x.kind)
    requires Eval(t.e, vars, mem) == Ok(Val(Mask64(x.n), x.mem))
    ensures var u, c := Convert(ty, t).value, CCast(ty, x).value;
            u.kind == c.kind && InKind(c.n, c.kind) && Eval(u.e, vars, mem) == Ok(Val(Mask64(c.n), c.mem))
  {
    hide IsUnsigned, BitsOf, KindOf, Pow2, Bits, TryConst, Eval, Mask64, InKind;
    EvalCast(ty, t.e, vars, mem);
    if KindOf(ty).Ok? {
      FromWordBack(Mask64(x.n), KindOf(ty).value);
      WordInKind(ty, Mask64(x.n));
    } else {
      NarrowWidth(ty);
      NarrowingMeans(ty, BitsOf(ty.names).value, t, x, vars, mem);
    }
  }

  lemma NarrowingMeans(ty: CType, w: nat, t: Typed, x: CVal, vars: Vars, mem: Mem)
    requires KindOf(ty).Err? && BitsOf(ty.names) == Some(w) && (w == 8 || w == 16 || w == 32)
    requires Convert(ty, t).Ok? && CCast(ty, x).Ok? && InKind(x.n, x.kind)
    requires Eval(t.e, vars, mem) == Ok(Val(Mask64(x.n), x.mem))
    ensures var u, c := Convert(ty, t).value, CCast(ty, x).value;
            u.kind == c.kind && InKind(c.n, c.kind) && Eval(u.e, vars, mem) == Ok(Val(Mask64(c.n), c.mem))
  {
    hide IsUnsigned, BitsOf, KindOf, Pow2, TryConst, Eval, Mask64;
    SmallPowers();
    WordsStay();
    ReducedWord(x.n, w);
    var v := TryConst(t.e);
    if v.Some? && 0 <= v.value < Pow2(w - 1) {
      ConstMeaning(t.e, vars, mem);
      EvalCast(ty, t.e, vars, mem);
      SmallWord(x.n, v.value, w);
    } else {
      MaskedMeans(t.e, w, Mask64(x.n), vars, mem, x.mem);
    }
  }

  lemma SmallWord(n: int, v: int, w: nat)
    requires Mask64(n) == Mask64(v) && 0 <= v < Pow2(w) <= 0x1_0000_0000 && w <= 64
    ensures n % Pow2(w) == v == Mask64(n)
  {
    hide Pow2;
    ReducedWord(n, w);
    DivModUnique(v, 0, v, Pow2(w));
  }

  lemma MaskedMeans(e: Expr, w: nat, v: u64, vars: Vars, mem: Mem, after: Mem)
    requires w < 64 && Eval(e, vars, mem) == Ok(Val(v, after))
    ensures Pow2(w) - 1 <= U64_MAX && v % Pow2(w) <= v
    ensures Eval(Bin(BitAnd, e, Ast.Const(Pow2(w) - 1)), vars, mem) == Ok(Val(v % Pow2(w), after))
  {
    hide Pow2, Eval, BinValue, Bits;
    MaskKeepsLow(v, w, 64);
    AndAtMostValue(v, w);
    MaskFits(w);
    var mask := Pow2(w) - 1;
    assert BinValue(BitAnd, v, mask) == Ok(Bitwise(BAND, v, mask)) by { AndMeaning(v, mask); }
    EvalConst(mask, vars, after);
    EvalBin(BitAnd, e, Ast.Const(mask), vars, mem, Val(v, after), Val(mask, after));
  }

  lemma AndAtMostValue(v: nat, w: nat)
    ensures 0 <= v % Pow2(w) <= v
  {
    hide Pow2;
    QuotientFits(v, Pow2(w));
    assert v == Pow2(w) * (v / Pow2(w)) + v % Pow2(w);
  }

  lemma EvalConst(v: u64, vars: Vars, mem: Mem)
    ensures Eval(Ast.Const(v), vars, mem) == Ok(Val(v, mem))
  {
  }

  lemma WordInKind(ty: CType, w: u64)
    requires KindOf(ty).Ok?
    ensures InKind(FromWord(w, KindOf(ty).value), KindOf(ty).value)
  {
  }

  // ----- the theorem -----

  /** The explicit form evaluated on words gives C's value modulo 2^64 and C's memory, with C's kind. */
  lemma {:induction false} ExplicitMeans(ks: Kinds, e: Expr, vars: Vars, mem: Mem)
    requires Explicit(ks, e).Ok? && CEval(ks, e, vars, mem).Ok?
    ensures var t, c := Explicit(ks, e).value, CEval(ks, e, vars, mem).value;
            t.kind == c.kind && InKind(c.n, c.kind) && Eval(t.e, vars, mem) == Ok(Val(Mask64(c.n), c.mem))
    decreases e, 1
  {
    hide CBin, CUn, CCast, ExplicitBin, Convert, UnKind, UnValue, BinValue, InKind, KindOf;
    match e
    case Const(v) => CheckedIs(v, Natural, mem);
    case Id(name) =>
      CheckedIs(FromWord(vars[name], ks[name]), ks[name], mem);
      FromWordBack(vars[name], ks[name]);
    case Bin(op, l, r) =>
      var x := CEval(ks, l, vars, mem).value;
      ExplicitMeans(ks, l, vars, mem);
      ExplicitMeans(ks, r, vars, x.mem);
      BinMeans(op, Explicit(ks, l).value, Explicit(ks, r).value, x, CEval(ks, r, vars, x.mem).value, vars, mem);
    case Un(op, inner) =>
      ExplicitMeans(ks, inner, vars, mem);
      UnMeans(op, CEval(ks, inner, vars, mem).value);
    case Index(base, index) =>
      ExplicitMeans(ks, index, vars, mem);
      ElementMeans(ks, base.name, Explicit(ks, index).value.e, CEval(ks, index, vars, mem).value, vars, mem);
    case Call(fn, args) => CallMeans(ks, fn, args, vars, mem);
    case Cast(ty, inner) =>
      ExplicitMeans(ks, inner, vars, mem);
      CastMeans(ty, Explicit(ks, inner).value, CEval(ks, inner, vars, mem).value, vars, mem);
  }

  lemma CheckedIs(n: int, k: Kind, mem: Mem)
    ensures Checked(n, k, mem).Ok? ==> InKind(n, k) && Checked(n, k, mem).value == CVal(n, k, mem)
  {
    hide InKind;
  }

  lemma ElementWord(base: u64, i: int)
    ensures Element(base, Mask64(i)) == Mask64(base + i * 8)
  {
    var q := i / WHOLE;
    assert i == q * WHOLE + Mask64(i);
    assert base + i * 8 == (q * 8) * WHOLE + (base + Mask64(i) * 8);
    MaskedMultiple(q * 8, base + Mask64(i) * 8);
  }

  lemma ElementMeans(ks: Kinds, name: string, index: Expr, i: CVal, vars: Vars, mem: Mem)
    requires name in ks && name in vars && ks[name].Pointer? && KindOf(ks[name].pointee).Ok?
    requires Eval(index, vars, mem) == Ok(Val(Mask64(i.n), i.mem))
    ensures var k := KindOf(ks[name].pointee).value;
            var w := Load(i.mem, Mask64(vars[name] + i.n * 8));
            && Eval(Index(Id(name), index), vars, mem) == Ok(Val(w, i.mem))
            && Mask64(FromWord(w, k)) == w && InKind(FromWord(w, k), k)
  {
    hide KindOf;
    ElementWord(vars[name], i.n);
    var w := Load(i.mem, Mask64(vars[name] + i.n * 8));
    FromWordBack(w, KindOf(ks[name].pointee).value);
    WordInKind(ks[name].pointee, w);
  }

  lemma {:induction false} CallMeans(ks: Kinds, fn: string, args: seq<Expr>, vars: Vars, mem: Mem)
    requires ExplicitArgs(ks, args).Ok? && CCall(ks, fn, args, vars, mem).Ok?
    ensures var c := CCall(ks, fn, args, vars, mem).value;
            && c.kind == Word && InKind(c.n, Word)
            && EvalCall(fn, ExplicitArgs(ks, args).value, vars, mem) == Ok(Val(Mask64(c.n), c.mem))
    decreases args, 0
  {
    hide Explicit, CEval, Eval, Memcpy, Bitwise, Mask64, RequireConst, Load, InKind;
    ArgsExplicit(ks, args);
    WordsStay();
    if fn != "tiara_wait" {
      ExplicitMeans(ks, args[0], vars, mem);
      var x := CEval(ks, args[0], vars, mem).value;
      ExplicitMeans(ks, args[1], vars, x.mem);
      var y := CEval(ks, args[1], vars, x.mem).value;
      if fn == "tiara_caa" {
        AddedWord(Load(y.mem, Mask64(x.n)), y.n);
      } else if fn == "tiara_cas" {
        ExplicitMeans(ks, args[2], vars, y.mem);
      }
    }
    WordKind(CCall(ks, fn, args, vars, mem).value);
  }

  lemma WordKind(c: CVal)
    ensures 0 <= c.n < WHOLE ==> InKind(c.n, Word)
  {
  }

  lemma AddedWord(w: u64, n: int)
    ensures Mask64(w + Mask64(n)) == Mask64(w + n)
  {
  }

  lemma WordsStay()
    ensures forall w: u64 :: Mask64(w) == w
  {
  }

  /** Each argument is made explicit on its own. */
  lemma {:induction false} ArgsExplicit(ks: Kinds, args: seq<Expr>)
    requires ExplicitArgs(ks, args).Ok?
    ensures var xs := ExplicitArgs(ks, args).value;
            && |xs| == |args|
            && forall i :: 0 <= i < |args| ==> Explicit(ks, args[i]).Ok? && xs[i] == Explicit(ks, args[i]).value.e
    decreases args
  {
    hide Explicit;
    if args != [] {
      ArgsExplicit(ks, args[1..]);
    }
  }

  // ----- types and pointers -----

  /** The types of one word: eight bytes, signed or not, or fewer. */
  lemma SingleWordTypes()
    ensures forall t :: t in {"uint64_t", "u64", "int64_t"} ==>
              KindOf(CType([t], 0)) == Ok(Word) && SizeOf(CType([t], 0)) == Ok(8)
    ensures KindOf(CType(["long"], 0)) == Ok(Signed) && SizeOf(CType(["long"], 0)) == Ok(8)
    ensures forall t :: t in {"int", "signed", "unsigned", "uint32_t"} ==>
              KindOf(CType([t], 0)).Err? && SizeOf(CType([t], 0)) == Ok(4)
    ensures KindOf(CType(["short"], 0)).Err? && SizeOf(CType(["short"], 0)) == Ok(2)
    ensures KindOf(CType(["char"], 0)).Err? && SizeOf(CType(["char"], 0)) == Ok(1)
    ensures KindOf(CType(["void"], 0)).Err? && SizeOf(CType(["void"], 0)).Err?
  {
    forall t: string ensures t in [t] { assert [t][0] == t; }
  }

  lemma WordWide(ty: CType)
    requires KindOf(ty).Ok?
    ensures SizeOf(ty) == Ok(8)
  {
  }

  /** The address of an element is the pointer and its index: `&p[e]` is `p + e`, whatever words or pointers p is to. */
  lemma SubscriptIsStep(ks: Kinds, name: string, ty: CType, e: Expr, vars: Vars, mem: Mem)
    requires name in ks && ks[name] == Pointer(ty) && KindOf(ty).Ok? && name in vars
    requires Explicit(ks, e).Ok? && !Explicit(ks, e).value.kind.Pointer?
    requires Eval(Explicit(ks, e).value.e, vars, mem).Ok?
    ensures var (step, i) := (Explicit(ks, Bin(Plus, Id(name), e)), Eval(Explicit(ks, e).value.e, vars, mem).value);
            && step.Ok? && step.value.kind == Pointer(ty)
            && Eval(step.value.e, vars, mem) == Ok(Val(Mask64(vars[name] + i.v * 8), i.mem))
  {
    hide KindOf, SizeOf, Explicit, Bitwise, Scaled, Eval;
    WordWide(ty);
    NameAlone(ks, name, vars, mem);
    StepIs(ks, name, ty, e);
    var (x, i) := (Explicit(ks, e).value.e, Eval(Explicit(ks, e).value.e, vars, mem).value);
    var scaled := Scaled(x, ty).value;
    WordsStay();
    assert Eval(x, vars, mem) == Ok(Val(Mask64(i.v), i.mem));
    ScaledMeans(x, ty, vars, mem, i.v, i.mem);
    EvalBin(Plus, Id(name), scaled, vars, mem, Val(vars[name], mem), Val(Mask64(i.v * 8), i.mem));
    MaskedSum(vars[name], i.v * 8);
  }

  /**
   * `l op= r` takes the operand `l op r` would, a step on a pointer counting elements; it is refused exactly where that
   * is, for a pointer on the right, and where a loop variable might become negative.
   */
  lemma CompoundIsBinary(op: AssignOp, l: Typed, r: Typed)
    requires !op.Set?
    ensures var (rhs, sum) := (ExplicitRhs(op, l, r), ExplicitBin(FoldedMeaning(op), l, r));
            && (rhs.Ok? <==> sum.Ok? && !r.kind.Pointer? && (l.kind.Natural? ==> sum.value.kind.Natural?))
            && (rhs.Ok? ==> sum.value.e == Bin(FoldedMeaning(op), l.e, rhs.value))
  {
    hide SizeOf, Comparable, ArithKind;
  }

  lemma NameAlone(ks: Kinds, name: string, vars: Vars, mem: Mem)
    requires name in ks && name in vars
    ensures Explicit(ks, Id(name)) == Ok(Typed(Id(name), ks[name]))
    ensures Eval(Id(name), vars, mem) == Ok(Val(vars[name], mem))
  {
  }

  lemma StepIs(ks: Kinds, name: string, ty: CType, e: Expr)
    requires name in ks && ks[name] == Pointer(ty) && SizeOf(ty) == Ok(8)
    requires Explicit(ks, e).Ok? && !Explicit(ks, e).value.kind.Pointer?
    ensures Scaled(Explicit(ks, e).value.e, ty).Ok?
    ensures Explicit(ks, Bin(Plus, Id(name), e))
         == Ok(Typed(Bin(Plus, Id(name), Scaled(Explicit(ks, e).value.e, ty).value), Pointer(ty)))
  {
    hide SizeOf;
    assert Explicit(ks, Id(name)) == Ok(Typed(Id(name), ks[name]));
  }
}
