/**
 * The expression parser: precedence climbing over tokens, as functions of a position and as the class that moves it.
 */
module Parser {
  import opened Prelude
  import opened Ast

  /** `Num(None)` is a literal whose digits are rejected, such as `0x` alone. */
  datatype Token = Word(name: string) | Num(value: Option<nat>) | Punct(text: string) | Eof

  /** The lexer always ends its list with `Eof`. */
  predicate Lexed(toks: seq<Token>) { toks != [] && toks[|toks| - 1] == Eof }

  const LPAREN := Punct("(")
  const RPAREN := Punct(")")
  const LBRACKET := Punct("[")
  const RBRACKET := Punct("]")
  const COMMA := Punct(",")
  const PLUS := Punct("+")
  const STAR := Punct("*")

  predicate IsTypeName(name: string) {
    || name == "void" || name == "int" || name == "unsigned" || name == "signed" || name == "long" || name == "char"
    || name == "short" || name == "uint64_t" || name == "int64_t" || name == "u64" || name == "uint32_t"
  }

  predicate IsType(t: Token) { t.Word? && IsTypeName(t.name) }

  function BinOpOf(t: Token): Option<BinOp> {
    match t
    case Punct("|") => Some(BitOr)
    case Punct("^") => Some(BitXor)
    case Punct("&") => Some(BitAnd)
    case Punct("==") => Some(Equal)
    case Punct("!=") => Some(NotEqual)
    case Punct("<") => Some(Less)
    case Punct(">=") => Some(GreaterEqual)
    case Punct("<=") => Some(LessEqual)
    case Punct(">") => Some(Greater)
    case Punct("<<") => Some(ShiftL)
    case Punct(">>") => Some(ShiftR)
    case Punct("+") => Some(Plus)
    case Punct("-") => Some(Minus)
    case Punct("*") => Some(Times)
    case Punct("/") => Some(Divide)
    case Punct("%") => Some(Modulo)
    case _ => None
  }

  function Prec(op: BinOp): (p: nat)
    ensures 1 <= p <= 8
  {
    match op
    case BitOr => 1
    case BitXor => 2
    case BitAnd => 3
    case Equal | NotEqual => 4
    case Less | GreaterEqual | LessEqual | Greater => 5
    case ShiftL | ShiftR => 6
    case Plus | Minus => 7
    case Times | Divide | Modulo => 8
  }

  /** The precedence of a token, 0 when it is not a binary operator. */
  function Level(t: Token): (p: nat)
    ensures p <= 8
  {
    if BinOpOf(t).Some? then Prec(BinOpOf(t).value) else 0
  }

  function UnOpOf(t: Token): Option<UnOp> {
    match t
    case Punct("-") => Some(Negate)
    case Punct("!") => Some(LogicalNot)
    case Punct("~") => Some(Complement)
    case _ => None
  }

  // ----- the parser on positions -----

  /** An expression and the position after it. */
  type Parsed = Result<(Expr, nat)>

  predicate Moves(toks: seq<Token>, pos: nat, r: Parsed) { r.Ok? ==> pos < r.value.1 < |toks| }

  function ParseBin(toks: seq<Token>, pos: nat, minPrec: nat): (r: Parsed)
    requires Lexed(toks) && pos < |toks|
    ensures Moves(toks, pos, r)
    decreases |toks| - pos, 4
  {
    var (left, p) :- ParseUnary(toks, pos);
    Climb(toks, p, minPrec, left)
  }

  /** Operators of at least `minPrec` to the right of `left`. */
  function Climb(toks: seq<Token>, pos: nat, minPrec: nat, left: Expr): (r: Parsed)
    requires Lexed(toks) && pos < |toks|
    ensures r.Ok? ==> pos <= r.value.1 < |toks|
    decreases |toks| - pos, 0
  {
    if BinOpOf(toks[pos]).None? || Level(toks[pos]) < minPrec then Ok((left, pos))
    else
      var (right, p) :- ParseBin(toks, pos + 1, Level(toks[pos]) + 1);
      Climb(toks, p, minPrec, Bin(BinOpOf(toks[pos]).value, left, right))
  }

  function ParseUnary(toks: seq<Token>, pos: nat): (r: Parsed)
    requires Lexed(toks) && pos < |toks|
    ensures Moves(toks, pos, r)
    decreases |toks| - pos, 3
  {
    var t := toks[pos];
    if t == PLUS then ParseUnary(toks, pos + 1)
    else if UnOpOf(t).Some? then
      var (e, p) :- ParseUnary(toks, pos + 1);
      Ok((Un(UnOpOf(t).value, e), p))
    else if t == LPAREN && IsType(toks[pos + 1]) then
      var p := SkipType(toks, pos + 1);
      if toks[p] != RPAREN then Err
      else
        var (e, q) :- ParseUnary(toks, p + 1);
        Ok((Cast(TypeAt(toks, pos + 1), e), q))
    else ParsePostfix(toks, pos)
  }

  function SkipNames(toks: seq<Token>, pos: nat): (p: nat)
    requires Lexed(toks) && pos < |toks|
    ensures pos <= p < |toks|
    decreases |toks| - pos
  {
    if IsType(toks[pos]) then SkipNames(toks, pos + 1) else pos
  }

  function SkipStars(toks: seq<Token>, pos: nat): (p: nat)
    requires Lexed(toks) && pos < |toks|
    ensures pos <= p < |toks|
    decreases |toks| - pos
  {
    if toks[pos] == STAR then SkipStars(toks, pos + 1) else pos
  }

  function SkipType(toks: seq<Token>, pos: nat): (p: nat)
    requires Lexed(toks) && pos < |toks|
    ensures pos <= p < |toks|
  {
    SkipStars(toks, SkipNames(toks, pos))
  }

  function TypeNames(toks: seq<Token>, pos: nat): seq<string>
    requires Lexed(toks) && pos < |toks|
    decreases |toks| - pos
  {
    if IsType(toks[pos]) then [toks[pos].name] + TypeNames(toks, pos + 1) else []
  }

  lemma NamesStep(toks: seq<Token>, pos: nat)
    requires Lexed(toks) && pos < |toks|
    ensures if IsType(toks[pos])
            then && SkipNames(toks, pos) == SkipNames(toks, pos + 1)
                 && TypeNames(toks, pos) == [toks[pos].name] + TypeNames(toks, pos + 1)
            else SkipNames(toks, pos) == pos && TypeNames(toks, pos) == []
  {
  }

  lemma StarsStep(toks: seq<Token>, pos: nat)
    requires Lexed(toks) && pos < |toks|
    ensures SkipStars(toks, pos) == if toks[pos] == STAR then SkipStars(toks, pos + 1) else pos
  {
  }

  lemma Regroup(names: seq<string>, name: string, more: seq<string>)
    ensures names + ([name] + more) == names + [name] + more
  {
  }

  /** The type skipped: its names and the number of its stars. */
  function TypeAt(toks: seq<Token>, pos: nat): CType
    requires Lexed(toks) && pos < |toks|
  {
    CType(TypeNames(toks, pos), SkipType(toks, pos) - SkipNames(toks, pos))
  }

  function ParsePostfix(toks: seq<Token>, pos: nat): (r: Parsed)
    requires Lexed(toks) && pos < |toks|
    ensures Moves(toks, pos, r)
    decreases |toks| - pos, 2
  {
    var (e, p) :- ParsePrimary(toks, pos);
    Suffixes(toks, p, e)
  }

  /** Subscripts and argument lists to the right of `e`; only a name can be called. */
  function Suffixes(toks: seq<Token>, pos: nat, e: Expr): (r: Parsed)
    requires Lexed(toks) && pos < |toks|
    ensures r.Ok? ==> pos <= r.value.1 < |toks|
    decreases |toks| - pos, 0
  {
    if toks[pos] == LBRACKET then
      var (index, p) :- ParseBin(toks, pos + 1, 0);
      if toks[p] != RBRACKET then Err else Suffixes(toks, p + 1, Index(e, index))
    else if toks[pos] == LPAREN && e.Id? then
      var (args, p) :- ParseArgs(toks, pos + 1);
      if toks[p] != RPAREN then Err else Suffixes(toks, p + 1, Call(e.name, args))
    else Ok((e, pos))
  }

  function ParseArgs(toks: seq<Token>, pos: nat): (r: Result<(seq<Expr>, nat)>)
    requires Lexed(toks) && pos < |toks|
    ensures r.Ok? ==> pos <= r.value.1 < |toks|
    decreases |toks| - pos, 6
  {
    if toks[pos] == RPAREN then Ok(([], pos)) else MoreArgs(toks, pos)
  }

  function MoreArgs(toks: seq<Token>, pos: nat): (r: Result<(seq<Expr>, nat)>)
    requires Lexed(toks) && pos < |toks|
    ensures r.Ok? ==> pos < r.value.1 < |toks|
    decreases |toks| - pos, 5
  {
    var (first, p) :- ParseBin(toks, pos, 0);
    if toks[p] != COMMA then Ok(([first], p))
    else
      var (rest, q) :- MoreArgs(toks, p + 1);
      Ok(([first] + rest, q))
  }

  function ParsePrimary(toks: seq<Token>, pos: nat): (r: Parsed)
    requires Lexed(toks) && pos < |toks|
    ensures Moves(toks, pos, r)
    decreases |toks| - pos, 1
  {
    match toks[pos]
    case Num(v) => if v.None? then Err else Ok((Const(v.value), pos + 1))
    case Word(name) => Ok((Id(name), pos + 1))
    case Punct("(") =>
      var (e, p) :- ParseBin(toks, pos + 1, 0);
      if toks[p] != RPAREN then Err else Ok((e, p + 1))
    case _ => Err
  }

  // ----- the parser as written: a class that moves through its tokens -----

  /** What a parsing method leaves behind, against the function: the expression and the position, or an error. */
  predicate ParsedAs(r: Result<Expr>, pos: nat, spec: Parsed) {
    match spec
    case Err => r.Err?
    case Ok((e, p)) => r == Ok(e) && pos == p
  }

  predicate ArgsParsedAs(r: Result<seq<Expr>>, pos: nat, spec: Result<(seq<Expr>, nat)>) {
    match spec
    case Err => r.Err?
    case Ok((es, p)) => r == Ok(es) && pos == p
  }

  class Parser {
    const toks: seq<Token>
    var pos: nat

    ghost predicate Valid()
      reads this
    {
      Lexed(toks) && pos < |toks|
    }

    constructor (toks: seq<Token>)
      requires Lexed(toks)
      ensures Valid() && this.toks == toks && pos == 0
    {
      this.toks, pos := toks, 0;
    }

    /** The token `o` ahead, the last one when there is none. */
    function Peek(o: nat): (t: Token)
      requires Valid()
      reads this
      ensures pos + o < |toks| ==> t == toks[pos + o]
      ensures pos + o >= |toks| ==> t == Eof
    {
      toks[Min(pos + o, |toks| - 1)]
    }

    method Next() returns (t: Token)
      requires Valid()
      modifies `pos
      ensures t == toks[old(pos)] && pos == old(pos) + 1
    {
      t := toks[pos];
      pos := pos + 1;
    }

    /** Consume `t`, or fail. */
    method Eat(t: Token) returns (ok: bool)
      requires Valid() && t != Eof
      modifies `pos
      ensures ok == (toks[old(pos)] == t) && pos == old(pos) + (if ok then 1 else 0) && Valid()
    {
      ok := Peek(0) == t;
      if ok { var _ := Next(); }
    }

    method ParseTypeSpec() returns (ty: CType)
      requires Valid() && IsType(toks[pos])
      modifies `pos
      ensures Valid() && pos == SkipType(toks, old(pos)) > old(pos) && ty == TypeAt(toks, old(pos))
    {
      hide IsTypeName, SkipNames, SkipStars, TypeNames;
      var names := [];
      NamesStep(toks, pos);
      while IsType(Peek(0))
        invariant Valid() && pos >= old(pos) && SkipNames(toks, pos) == SkipNames(toks, old(pos))
        invariant names + TypeNames(toks, pos) == TypeNames(toks, old(pos))
        decreases |toks| - pos
      {
        NamesStep(toks, pos);
        var t := Next();
        Regroup(names, t.name, TypeNames(toks, pos));
        names := names + [t.name];
      }
      NamesStep(toks, pos);
      assert names + [] == names;
      ty := CType(names, 0);
      while Peek(0) == STAR
        invariant Valid() && pos == SkipNames(toks, old(pos)) + ty.stars
        invariant SkipStars(toks, pos) == SkipType(toks, old(pos)) && ty.names == TypeNames(toks, old(pos))
        decreases |toks| - pos
      {
        StarsStep(toks, pos);
        var _ := Next();
        ty := ty.(stars := ty.stars + 1);
      }
      StarsStep(toks, pos);
    }

    method ParseExpr() returns (r: Result<Expr>)
      requires Valid()
      modifies `pos
      ensures ParsedAs(r, pos, ParseBin(toks, old(pos), 0)) && (r.Ok? ==> Valid())
      decreases |toks| - pos, 5
    {
      r := ParseBinary(0);
    }

    method ParseBinary(minPrec: nat) returns (r: Result<Expr>)
      requires Valid()
      modifies `pos
      ensures ParsedAs(r, pos, ParseBin(toks, old(pos), minPrec)) && (r.Ok? ==> Valid())
      decreases |toks| - pos, 4
    {
      hide ParseUnary, BinOpOf;
      r := ParseUnaryExpr();
      if r.Err? { return; }
      var left := r.value;
      while true
        invariant Valid() && pos > old(pos)
        invariant ParseBin(toks, old(pos), minPrec) == Climb(toks, pos, minPrec, left)
        decreases |toks| - pos
      {
        var t := Peek(0);
        if BinOpOf(t).None? || Level(t) < minPrec { break; }
        OperatorNotEof(t);
        var _ := Next();
        var right := ParseBinary(Level(t) + 1);
        if right.Err? { return Err; }
        left := Bin(BinOpOf(t).value, left, right.value);
      }
      r := Ok(left);
    }

    method ParseUnaryExpr() returns (r: Result<Expr>)
      requires Valid()
      modifies `pos
      ensures ParsedAs(r, pos, ParseUnary(toks, old(pos))) && (r.Ok? ==> Valid())
      decreases |toks| - pos, 3
    {
      hide ParsePostfix, IsTypeName;
      var t := Peek(0);
      if t == PLUS || UnOpOf(t).Some? {
        var _ := Next();
        r := ParseUnaryExpr();
        if r.Ok? && t != PLUS { r := Ok(Un(UnOpOf(t).value, r.value)); }
        return;
      }
      if t == LPAREN && IsType(Peek(1)) {
        var _ := Next();
        var ty := ParseTypeSpec();
        var closed := Eat(RPAREN);
        if !closed { return Err; }
        r := ParseUnaryExpr();
        if r.Ok? { r := Ok(Cast(ty, r.value)); }
        return;
      }
      r := ParsePostfixExpr();
    }

    method ParsePostfixExpr() returns (r: Result<Expr>)
      requires Valid()
      modifies `pos
      ensures ParsedAs(r, pos, ParsePostfix(toks, old(pos))) && (r.Ok? ==> Valid())
      decreases |toks| - pos, 2
    {
      hide ParsePrimary, ParseBin, ParseArgs, Suffixes;
      r := ParsePrimaryExpr();
      if r.Err? { return; }
      var e := r.value;
      while true
        invariant Valid() && pos > old(pos)
        invariant ParsePostfix(toks, old(pos)) == Suffixes(toks, pos, e)
        decreases |toks| - pos
      {
        var t := Peek(0);
        SuffixStep(toks, pos, e);
        if t == LBRACKET {
          var _ := Next();
          var index := ParseExpr();
          if index.Err? { return Err; }
          var closed := Eat(RBRACKET);
          if !closed { return Err; }
          e := Index(e, index.value);
        } else if t == LPAREN && e.Id? {
          var _ := Next();
          var args := ParseArguments();
          if args.Err? { return Err; }
          var closed := Eat(RPAREN);
          if !closed { return Err; }
          e := Call(e.name, args.value);
        } else {
          break;
        }
      }
      r := Ok(e);
    }

    method ParseArguments() returns (r: Result<seq<Expr>>)
      requires Valid()
      modifies `pos
      ensures ArgsParsedAs(r, pos, ParseArgs(toks, old(pos))) && (r.Ok? ==> Valid() && pos >= old(pos))
      decreases |toks| - pos, 6
    {
      hide ParseBin, MoreArgs;
      if Peek(0) == RPAREN { return Ok([]); }
      var args: seq<Expr> := [];
      PrependFresh(MoreArgs(toks, pos));
      while true
        invariant Valid() && pos >= old(pos)
        invariant ParseArgs(toks, old(pos)) == Prepend(args, MoreArgs(toks, pos))
        decreases |toks| - pos
      {
        var at := pos;
        var e := ParseExpr();
        if e.Err? { NoArg(toks, at); return Err; }
        var more := Peek(0) == COMMA;
        OneMoreArg(toks, at, e.value, pos);
        args := args + [e.value];
        if !more { break; }
        var _ := Next();
        PrependAgain(args[..|args| - 1], e.value, MoreArgs(toks, pos));
      }
      r := Ok(args);
    }

    method ParsePrimaryExpr() returns (r: Result<Expr>)
      requires Valid()
      modifies `pos
      ensures ParsedAs(r, pos, ParsePrimary(toks, old(pos))) && (r.Ok? ==> Valid())
      decreases |toks| - pos, 1
    {
      hide ParseBin;
      var t := Next();
      if t.Num? {
        r := if t.value.None? then Err else Ok(Const(t.value.value));
      } else if t.Word? {
        r := Ok(Id(t.name));
      } else if t == LPAREN {
        r := ParseExpr();
        if r.Err? { return; }
        var closed := Eat(RPAREN);
        if !closed { return Err; }
      } else {
        r := Err;
      }
    }
  }

  /** One subscript or argument list, or the end. */
  lemma SuffixStep(toks: seq<Token>, pos: nat, e: Expr)
    requires Lexed(toks) && pos < |toks|
    ensures toks[pos] == LBRACKET ==>
              pos + 1 < |toks| &&
              match ParseBin(toks, pos + 1, 0)
              case Err => Suffixes(toks, pos, e).Err?
              case Ok((index, p)) =>
                Suffixes(toks, pos, e) == if toks[p] != RBRACKET then Err else Suffixes(toks, p + 1, Index(e, index))
    ensures toks[pos] == LPAREN && e.Id? ==>
              pos + 1 < |toks| &&
              match ParseArgs(toks, pos + 1)
              case Err => Suffixes(toks, pos, e).Err?
              case Ok((args, p)) =>
                Suffixes(toks, pos, e) == if toks[p] != RPAREN then Err else Suffixes(toks, p + 1, Call(e.name, args))
    ensures toks[pos] != LBRACKET && !(toks[pos] == LPAREN && e.Id?) ==> Suffixes(toks, pos, e) == Ok((e, pos))
  {
    hide ParseBin, ParseArgs;
  }

  lemma OperatorNotEof(t: Token)
    requires BinOpOf(t).Some?
    ensures t != Eof
  {
  }

  /** `args`, then the arguments still to come. */
  function Prepend(args: seq<Expr>, rest: Result<(seq<Expr>, nat)>): Result<(seq<Expr>, nat)> {
    match rest
    case Err => Err
    case Ok((more, p)) => Ok((args + more, p))
  }

  lemma OneMoreArg(toks: seq<Token>, at: nat, e: Expr, p: nat)
    requires Lexed(toks) && at < |toks| && ParseBin(toks, at, 0) == Ok((e, p))
    ensures p < |toks|
    ensures toks[p] == COMMA ==> p + 1 < |toks| && MoreArgs(toks, at) == Prepend([e], MoreArgs(toks, p + 1))
    ensures toks[p] != COMMA ==> MoreArgs(toks, at) == Ok(([e], p))
  {
    hide ParseBin;
  }

  lemma NoArg(toks: seq<Token>, at: nat)
    requires Lexed(toks) && at < |toks| && ParseBin(toks, at, 0).Err?
    ensures MoreArgs(toks, at).Err?
  {
    hide ParseBin;
  }

  lemma PrependFresh(rest: Result<(seq<Expr>, nat)>)
    ensures Prepend([], rest) == rest
  {
    if rest.Ok? {
      assert [] + rest.value.0 == rest.value.0;
    }
  }

  lemma PrependAgain(args: seq<Expr>, e: Expr, rest: Result<(seq<Expr>, nat)>)
    ensures Prepend(args, Prepend([e], rest)) == Prepend(args + [e], rest)
  {
    if rest.Ok? {
      assert args + ([e] + rest.value.0) == args + [e] + rest.value.0;
    }
  }
}
