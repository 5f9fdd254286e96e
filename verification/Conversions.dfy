/**
 * The conversions of sections 6.3.1 and 6.5.6 of ISO/IEC 9899:2011 written out: a pointer step becomes a step in
 * bytes, a conversion to a narrower unsigned type a mask.  The compiler drops all types, so a tree and its explicit
 * form lower differently exactly where it departs from C.  Fails on what C rejects, and on what the subset has no
 * meaning for: variables and elements of fewer than 64 bits, signed comparison, division and right shift.
 */
module Conversions {
  import opened Prelude
  import opened Ast

  /** How C takes a value that a 64-bit word holds modulo 2^64. */
  datatype Kind =
    | Word                     // an unsigned 64-bit type
    | Natural                  // a signed type, but the value cannot be negative
    | Signed                   // a signed type
    | Narrow                   // an unsigned type of fewer than 64 bits
    | Pointer(pointee: CType)

  type Kinds = map<string, Kind>

  /** An explicit expression and the kind of its value. */
  datatype Typed = Typed(e: Expr, kind: Kind)

  // ----- types -----

  /** `uint64_t`, `u64` and `int64_t` alike stand for `unsigned long`. */
  predicate IsUnsigned(names: seq<string>) {
    "unsigned" in names || "uint64_t" in names || "u64" in names || "int64_t" in names || "uint32_t" in names
  }

  /** The bits of an integer type; `void` has none. */
  function BitsOf(names: seq<string>): Option<nat> {
    if "uint64_t" in names || "u64" in names || "int64_t" in names || "long" in names then Some(64)
    else if "char" in names then Some(8)
    else if "short" in names then Some(16)
    else if "void" in names then None
    else Some(32)
  }

  /** The kind of a variable or an element, which must fill a word. */
  function KindOf(ty: CType): Result<Kind> {
    if ty.stars > 0 then Ok(Pointer(CType(ty.names, ty.stars - 1)))
    else if BitsOf(ty.names) != Some(64) then Err
    else Ok(if IsUnsigned(ty.names) then Word else Signed)
  }

  /** The bytes of what a pointer points at. */
  function SizeOf(ty: CType): Result<nat> {
    if ty.stars > 0 then Ok(8)
    else if BitsOf(ty.names).None? then Err
    else Ok(BitsOf(ty.names).value / 8)
  }

  // ----- expressions -----

  predicate IsRelation(op: BinOp) {
    op.Equal? || op.NotEqual? || op.Less? || op.LessEqual? || op.Greater? || op.GreaterEqual?
  }

  /** Whether comparing the two words as unsigned numbers is the comparison C makes. */
  predicate Comparable(op: BinOp, a: Kind, b: Kind) {
    if op.Equal? || op.NotEqual? then !(a.Signed? && b.Narrow?) && !(a.Narrow? && b.Signed?)
    else (a.Signed? ==> b.Word?) && (b.Signed? ==> a.Word?)
  }

  /** The kind of an integer operation, after the usual conversions to the wider unsigned type. */
  function ArithKind(op: BinOp, a: Kind, b: Kind): Result<Kind> {
    if a.Pointer? || b.Pointer? then Err
    else if op.ShiftL? || op.ShiftR? then
      if a.Narrow? || (a.Signed? && op.ShiftR?) then Err else Ok(a)
    else if a.Word? || b.Word? then Ok(Word)
    else if a.Narrow? || b.Narrow? then Err
    else if op.Divide? || op.Modulo? then
      if a.Signed? || b.Signed? then Err else Ok(Natural)
    else Ok(if op.Minus? || a.Signed? || b.Signed? then Signed else Natural)
  }

  function UnKind(op: UnOp, a: Kind): Result<Kind> {
    if op.LogicalNot? then Ok(Natural)
    else if a.Pointer? || a.Narrow? then Err
    else Ok(if a.Word? then Word else Signed)
  }

  /** An integer as a number of bytes. */
  function Scaled(e: Expr, pointee: CType): Result<Expr> {
    var size :- SizeOf(pointee);
    Ok(if size == 1 then e else Bin(Times, e, Const(size)))
  }

  function ExplicitBin(op: BinOp, x: Typed, y: Typed): (t: Result<Typed>)
    ensures t.Ok? ==> t.value.e.Bin?
  {
    if IsRelation(op) then
      if Comparable(op, x.kind, y.kind) then Ok(Typed(Bin(op, x.e, y.e), Natural)) else Err
    else if x.kind.Pointer? && !y.kind.Pointer? && (op.Plus? || op.Minus?) then
      var step :- Scaled(y.e, x.kind.pointee);
      Ok(Typed(Bin(op, x.e, step), x.kind))
    else if y.kind.Pointer? && !x.kind.Pointer? && op.Plus? then
      var step :- Scaled(x.e, y.kind.pointee);
      Ok(Typed(Bin(op, step, y.e), y.kind))
    else
      var k :- ArithKind(op, x.kind, y.kind);
      Ok(Typed(Bin(op, x.e, y.e), k))
  }

  /** A cast.  To fewer bits it keeps what is known to fit, masks for an unsigned type and fails for a signed one. */
  function Convert(ty: CType, x: Typed): Result<Typed> {
    if KindOf(ty).Ok? then Ok(Typed(Cast(ty, x.e), KindOf(ty).value))
    else if BitsOf(ty.names).None? then Err
    else
      var (w, v) := (BitsOf(ty.names).value, TryConst(x.e));
      if v.Some? && w > 0 && 0 <= v.value < Pow2(w - 1) then
        Ok(Typed(Cast(ty, x.e), if IsUnsigned(ty.names) then Narrow else Natural))
      else if IsUnsigned(ty.names) then Ok(Typed(Bin(BitAnd, x.e, Const(Pow2(w) - 1)), Narrow))
      else Err
  }

  function Explicit(ks: Kinds, e: Expr): Result<Typed>
    decreases e
  {
    match e
    case Const(_) => Ok(Typed(e, Natural))
    case Id(name) => if name in ks then Ok(Typed(e, ks[name])) else Err
    case Bin(op, l, r) =>
      var x :- Explicit(ks, l);
      var y :- Explicit(ks, r);
      ExplicitBin(op, x, y)
    case Un(op, inner) =>
      var x :- Explicit(ks, inner);
      var k :- UnKind(op, x.kind);
      Ok(Typed(Un(op, x.e), k))
    case Index(base, index) =>
      var p :- Explicit(ks, base);
      var i :- Explicit(ks, index);
      if !p.kind.Pointer? || i.kind.Pointer? then Err
      else
        var k :- KindOf(p.kind.pointee);
        Ok(Typed(Index(p.e, i.e), k))
    case Call(fn, args) =>
      var xs :- ExplicitArgs(ks, args);
      Ok(Typed(Call(fn, xs), Word))
    case Cast(ty, inner) =>
      var x :- Explicit(ks, inner);
      Convert(ty, x)
  }

  function ExplicitArgs(ks: Kinds, args: seq<Expr>): Result<seq<Expr>>
    decreases args
  {
    if args == [] then Ok([])
    else
      var x :- Explicit(ks, args[0]);
      var xs :- ExplicitArgs(ks, args[1..]);
      Ok([x.e] + xs)
  }

  // ----- statements -----

  /**
   * The right side of an assignment to `lhs`: of `+=` and `-=` on a pointer it counts elements.  What a loop counts
   * with takes only what cannot be negative.
   */
  function ExplicitRhs(op: AssignOp, lhs: Typed, rhs: Typed): Result<Expr> {
    if op.Set? then if lhs.kind.Natural? && !rhs.kind.Natural? then Err else Ok(rhs.e)
    else if rhs.kind.Pointer? then Err
    else
      var b :- ExplicitBin(FoldedMeaning(op), lhs, rhs);
      if lhs.kind.Natural? && !b.kind.Natural? then Err else Ok(b.e.r)
  }

  /** A statement made explicit, and the kinds of the names after it. */
  function ExplicitStmt(ks: Kinds, s: Stmt): Result<(Stmt, Kinds)>
    decreases s
  {
    match s
    case Decl(name, ty, init) =>
      var k :- KindOf(ty);
      if name in ks then Err
      else if init.None? then Ok((s, ks[name := k]))
      else
        var x :- Explicit(ks, init.value);
        Ok((Decl(name, ty, Some(x.e)), ks[name := k]))
    case Assign(op, lhs, rhs) =>
      var l :- Explicit(ks, lhs);
      var r :- Explicit(ks, rhs);
      var rhs1 :- ExplicitRhs(op, l, r);
      Ok((Assign(op, l.e, rhs1), ks))
    case For(ind, bound, body) =>
      if ind in ks then Err
      else
        var n :- Explicit(ks[ind := Natural], bound);
        var body1 :- ExplicitBlock(ks[ind := Natural], body);
        if Comparable(Less, Natural, n.kind) && !n.kind.Pointer? then Ok((For(ind, n.e, body1), ks)) else Err
    case If(cond, body) =>
      var c :- Explicit(ks, cond);
      var body1 :- ExplicitBlock(ks, body);
      Ok((If(c.e, body1), ks))
    case Return(value) =>
      if value.None? then Ok((s, ks))
      else
        var x :- Explicit(ks, value.value);
        Ok((Return(Some(x.e)), ks))
    case ExprCall(call) =>
      var x :- Explicit(ks, call);
      Ok((ExprCall(x.e), ks))
    case IncDec(target, delta) =>
      if target !in ks || (ks[target].Natural? && delta < 0) then Err
      else if !ks[target].Pointer? then Ok((s, ks))
      else
        var size :- SizeOf(ks[target].pointee);
        Ok((IncDec(target, delta * size), ks))
  }

  function ExplicitBlock(ks: Kinds, ss: seq<Stmt>): Result<seq<Stmt>>
    decreases ss
  {
    if ss == [] then Ok([])
    else
      var (s, ks1) :- ExplicitStmt(ks, ss[0]);
      var rest :- ExplicitBlock(ks1, ss[1..]);
      Ok([s] + rest)
  }

  // ----- functions -----

  function ParamKinds(params: seq<Param>): Result<Kinds> {
    if params == [] then Ok(map[])
    else
      var n := |params| - 1;
      var ks :- ParamKinds(params[..n]);
      var k :- KindOf(params[n].ty);
      Ok(ks[params[n].name := k])
  }

  function ExplicitBody(fn: FuncDef): Result<seq<Stmt>> {
    var ks :- ParamKinds(fn.params);
    ExplicitBlock(ks, fn.body)
  }
}
