/** Syntax trees of the restricted C subset. */
module Ast {
  import opened Prelude

  /** Every binary operator the parser knows; the compiler supports only some. */
  datatype BinOp =
    | BitOr | BitXor | BitAnd | Equal | NotEqual | Less | GreaterEqual | LessEqual | Greater
    | ShiftL | ShiftR | Plus | Minus | Times | Divide | Modulo

  datatype UnOp = Negate | LogicalNot | Complement

  /** A type as written: the names of the specifier and the stars after it. */
  datatype CType = CType(names: seq<string>, stars: nat)

  const UINT64 := CType(["uint64_t"], 0)

  const UINT64_PTR := CType(["uint64_t"], 1)

  datatype Expr =
    | Const(v: nat)
    | Id(name: string)
    | Bin(op: BinOp, l: Expr, r: Expr)
    | Un(uop: UnOp, e: Expr)
    | Index(base: Expr, index: Expr)
    | Call(fn: string, args: seq<Expr>)
    | Cast(ty: CType, inner: Expr)

  datatype AssignOp = Set | PlusSet | MinusSet | TimesSet | AndSet | OrSet | XorSet | ShlSet | ShrSet

  datatype Stmt =
    | Decl(name: string, ty: CType, init: Option<Expr>)
    | Assign(aop: AssignOp, lhs: Expr, rhs: Expr)
    | For(ind: string, bound: Expr, body: seq<Stmt>)
    | If(cond: Expr, body: seq<Stmt>)
    | Return(value: Option<Expr>)
    | ExprCall(call: Expr)
    | IncDec(target: string, delta: int)

  /** The operator a compound assignment means. */
  function FoldedMeaning(op: AssignOp): BinOp
    requires !op.Set?
  {
    match op
    case PlusSet => Plus
    case MinusSet => Minus
    case TimesSet => Times
    case AndSet => BitAnd
    case OrSet => BitOr
    case XorSet => BitXor
    case ShlSet => ShiftL
    case ShrSet => ShiftR
  }

  datatype Param = Param(name: string, ty: CType) {
    predicate IsPtr() { ty.stars > 0 }
  }

  datatype FuncDef = FuncDef(params: seq<Param>, body: seq<Stmt>)

  /** The value of a constant expression: a literal, possibly negated or cast. */
  function TryConst(e: Expr): Option<int> {
    match e
    case Const(v) => Some(v)
    case Un(Negate, inner) =>
      (match TryConst(inner)
       case Some(v) => Some(-v)
       case None => None)
    case Cast(_, inner) => TryConst(inner)
    case _ => None
  }

  function RequireConst(e: Expr): Result<int> {
    match TryConst(e)
    case Some(v) => Ok(v)
    case None => Err
  }

  /** How deep `for`s nest. */
  function Nesting(ss: seq<Stmt>): nat
    decreases ss, 0
  {
    if ss == [] then 0 else Max(NestingOne(ss[0]), Nesting(ss[1..]))
  }

  function NestingOne(s: Stmt): nat
    decreases s, 0
  {
    match s
    case For(_, _, body) => 1 + Nesting(body)
    case If(_, body) => Nesting(body)
    case _ => 0
  }

  // ----- names -----

  /** The variables an expression reads. */
  function Reads(e: Expr): set<string>
    decreases e
  {
    match e
    case Const(_) => {}
    case Id(name) => {name}
    case Bin(_, l, r) => Reads(l) + Reads(r)
    case Un(_, inner) => Reads(inner)
    case Index(base, index) => Reads(base) + Reads(index)
    case Call(_, args) => ReadsAll(args)
    case Cast(_, inner) => Reads(inner)
  }

  function ReadsAll(args: seq<Expr>): set<string>
    decreases args
  {
    if args == [] then {} else Reads(args[0]) + ReadsAll(args[1..])
  }

  lemma {:induction false} ReadsArg(args: seq<Expr>, i: nat)
    requires i < |args|
    ensures Reads(args[i]) <= ReadsAll(args)
  {
    if i > 0 {
      ReadsArg(args[1..], i - 1);
    }
  }

  function ScopeAfter(scope: set<string>, s: Stmt): set<string> {
    if s.Decl? then scope + {s.name} else scope
  }

  /** Names are used as C's scopes want, and none is declared again while it is in scope. */
  predicate NamesOk(scope: set<string>, s: Stmt)
    decreases s, 1
  {
    match s
    case Decl(name, _, init) => name !in scope && (init.Some? ==> Reads(init.value) <= scope)
    case Assign(_, lhs, rhs) => Reads(lhs) <= scope && Reads(rhs) <= scope
    case For(ind, bound, body) =>
      ind !in scope && Reads(bound) <= scope + {ind} && BlockNamesOk(scope + {ind}, body)
    case If(cond, body) => Reads(cond) <= scope && BlockNamesOk(scope, body)
    case Return(value) => value.Some? ==> Reads(value.value) <= scope
    case ExprCall(call) => Reads(call) <= scope
    case IncDec(target, _) => target in scope
  }

  predicate BlockNamesOk(scope: set<string>, ss: seq<Stmt>)
    decreases ss, 0
  {
    ss == [] || (NamesOk(scope, ss[0]) && BlockNamesOk(ScopeAfter(scope, ss[0]), ss[1..]))
  }
}
