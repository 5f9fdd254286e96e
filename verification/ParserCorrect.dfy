/**
 * The parser accepts exactly the expressions of the C grammar, sections 6.5.1 to 6.5.12 of ISO/IEC 9899:2011
 * restricted to the subset's operators, and builds the tree that grammar gives: binary operators group to the left.
 */
module ParserCorrect {
  import opened Prelude
  import opened Ast
  import opened Parser

  // ----- concrete syntax -----

  /** An expression as written, with its parentheses, unary pluses and the type of each cast. */
  datatype Syntax =
    | SNum(v: nat)
    | SName(name: string)
    | SParen(inner: Syntax)
    | SIndex(base: Syntax, index: Syntax)
    | SCall(fn: Syntax, args: seq<Syntax>)
    | SPlus(e: Syntax)
    | SUn(uop: UnOp, e: Syntax)
    | SCast(names: seq<string>, stars: nat, e: Syntax)
    | SBin(op: BinOp, l: Syntax, r: Syntax)

  function UnText(op: UnOp): Token {
    match op
    case Negate => Punct("-")
    case LogicalNot => Punct("!")
    case Complement => Punct("~")
  }

  function BinText(op: BinOp): (t: Token)
    ensures BinOpOf(t) == Some(op)
  {
    match op
    case BitOr => Punct("|")
    case BitXor => Punct("^")
    case BitAnd => Punct("&")
    case Equal => Punct("==")
    case NotEqual => Punct("!=")
    case Less => Punct("<")
    case GreaterEqual => Punct(">=")
    case LessEqual => Punct("<=")
    case Greater => Punct(">")
    case ShiftL => Punct("<<")
    case ShiftR => Punct(">>")
    case Plus => Punct("+")
    case Minus => Punct("-")
    case Times => Punct("*")
    case Divide => Punct("/")
    case Modulo => Punct("%")
  }

  function Names(names: seq<string>): (ts: seq<Token>)
    ensures |ts| == |names| && forall i :: 0 <= i < |ts| ==> ts[i] == Word(names[i])
  {
    seq(|names|, i requires 0 <= i < |names| => Word(names[i]))
  }

  function Stars(n: nat): (ts: seq<Token>)
    ensures |ts| == n && forall i :: 0 <= i < n ==> ts[i] == STAR
  {
    seq(n, _ => STAR)
  }

  /** The tokens of an expression. */
  function Show(s: Syntax): (ts: seq<Token>)
    ensures ts != []
    decreases s, 0
  {
    match s
    case SNum(v) => [Num(Some(v))]
    case SName(name) => [Word(name)]
    case SParen(inner) => [LPAREN] + Show(inner) + [RPAREN]
    case SIndex(base, index) => Show(base) + [LBRACKET] + Show(index) + [RBRACKET]
    case SCall(fn, args) => Show(fn) + [LPAREN] + ShowArgs(args) + [RPAREN]
    case SPlus(e) => [PLUS] + Show(e)
    case SUn(op, e) => [UnText(op)] + Show(e)
    case SCast(names, stars, e) => [LPAREN] + Names(names) + Stars(stars) + [RPAREN] + Show(e)
    case SBin(op, l, r) => Show(l) + [BinText(op)] + Show(r)
  }

  function ShowArgs(args: seq<Syntax>): seq<Token>
    decreases args, 0
  {
    if args == [] then []
    else if |args| == 1 then Show(args[0])
    else Show(args[0]) + [COMMA] + ShowArgs(args[1..])
  }

  /** The tree it stands for. */
  function Tree(s: Syntax): Expr
    decreases s
  {
    match s
    case SNum(v) => Const(v)
    case SName(name) => Id(name)
    case SParen(inner) => Tree(inner)
    case SIndex(base, index) => Index(Tree(base), Tree(index))
    case SCall(fn, args) => Call(NameOf(Tree(fn)), Trees(args))
    case SPlus(e) => Tree(e)
    case SUn(op, e) => Un(op, Tree(e))
    case SCast(names, stars, e) => Cast(CType(names, stars), Tree(e))
    case SBin(op, l, r) => Bin(op, Tree(l), Tree(r))
  }

  function NameOf(e: Expr): string { if e.Id? then e.name else "" }

  function Trees(args: seq<Syntax>): (es: seq<Expr>)
    ensures |es| == |args|
    decreases args
  {
    if args == [] then [] else [Tree(args[0])] + Trees(args[1..])
  }

  /** How tightly an expression binds: its operator's precedence, 9 for unary and cast, 10 for postfix and primary. */
  function Binds(s: Syntax): nat {
    match s
    case SBin(op, _, _) => Prec(op)
    case SPlus(_) => 9
    case SUn(_, _) => 9
    case SCast(_, _, _) => 9
    case _ => 10
  }

  /**
   * The grammar.  A left operand binds at least as tightly as its operator, a right operand more tightly; a
   * parenthesis is not followed by a type name, which would make it a cast; only a name is called, parenthesised
   * or not.
   */
  predicate Grammatical(s: Syntax)
    decreases s, 0
  {
    match s
    case SNum(_) => true
    case SName(_) => true
    case SParen(inner) => Grammatical(inner) && !IsType(Show(inner)[0])
    case SIndex(base, index) => Grammatical(base) && Binds(base) == 10 && Grammatical(index)
    case SCall(fn, args) =>
      Grammatical(fn) && Binds(fn) == 10 && Tree(fn).Id? && forall a :: a in args ==> Grammatical(a)
    case SPlus(e) => Grammatical(e) && Binds(e) >= 9
    case SUn(_, e) => Grammatical(e) && Binds(e) >= 9
    case SCast(names, _, e) =>
      names != [] && (forall n :: n in names ==> IsTypeName(n)) && Grammatical(e) && Binds(e) >= 9
    case SBin(op, l, r) => Grammatical(l) && Grammatical(r) && Binds(l) >= Prec(op) && Binds(r) > Prec(op)
  }

  // ----- every grammatical expression is parsed to its tree -----

  predicate TokensAt(toks: seq<Token>, pos: nat, seg: seq<Token>) {
    pos + |seg| < |toks| && toks[pos..pos + |seg|] == seg
  }

  lemma TokensSplit(toks: seq<Token>, pos: nat, a: seq<Token>, b: seq<Token>)
    requires TokensAt(toks, pos, a + b)
    ensures TokensAt(toks, pos, a) && TokensAt(toks, pos + |a|, b)
  {
    assert toks[pos..pos + |a|] == (a + b)[..|a|];
    assert toks[pos + |a|..pos + |a| + |b|] == (a + b)[|a|..];
  }

  lemma FirstAt(toks: seq<Token>, pos: nat, seg: seq<Token>)
    requires TokensAt(toks, pos, seg) && seg != []
    ensures toks[pos] == seg[0]
  {
    assert toks[pos] == toks[pos..pos + |seg|][0];
  }

  /** The token after an expression does not extend it as a postfix expression. */
  predicate NoSuffix(t: Token) { t != LBRACKET && t != LPAREN }

  lemma {:induction false} BinParses(toks: seq<Token>, pos: nat, s: Syntax, minPrec: nat)
    requires Lexed(toks) && Grammatical(s) && TokensAt(toks, pos, Show(s)) && minPrec <= Binds(s)
    requires NoSuffix(toks[pos + |Show(s)|]) && Level(toks[pos + |Show(s)|]) <= Binds(s)
    ensures ParseBin(toks, pos, minPrec) == Climb(toks, pos + |Show(s)|, minPrec, Tree(s))
    decreases s, 4
  {
    hide Show, TokensAt, Grammatical, Climb, ParseBin, BinText, BinOpOf;
    if s.SBin? {
      var op := s.op;
      BinLayout(toks, pos, s);
      var at := pos + |Show(s.l)|;
      var end := pos + |Show(s)|;
      TextIsOperator(op);
      BinParses(toks, pos, s.l, minPrec);
      BinParses(toks, at + 1, s.r, Prec(op) + 1);
      ClimbStops(toks, end, Prec(op) + 1, Tree(s.r));
      ClimbGoes(toks, at, minPrec, Tree(s.l), op, Tree(s.r), end);
    } else {
      UnaryParses(toks, pos, s);
      UnaryThenClimb(toks, pos, minPrec, Tree(s), pos + |Show(s)|);
    }
  }

  lemma UnaryThenClimb(toks: seq<Token>, pos: nat, minPrec: nat, e: Expr, end: nat)
    requires Lexed(toks) && pos < |toks| && end < |toks| && ParseUnary(toks, pos) == Ok((e, end))
    ensures ParseBin(toks, pos, minPrec) == Climb(toks, end, minPrec, e)
  {
    hide ParseUnary, Climb;
  }

  lemma ClimbStops(toks: seq<Token>, pos: nat, minPrec: nat, e: Expr)
    requires Lexed(toks) && pos < |toks| && Level(toks[pos]) < minPrec
    ensures Climb(toks, pos, minPrec, e) == Ok((e, pos))
  {
    hide ParseBin, BinOpOf;
  }

  lemma ClimbGoes(toks: seq<Token>, pos: nat, minPrec: nat, left: Expr, op: BinOp, right: Expr, end: nat)
    requires Lexed(toks) && pos + 1 < |toks| && end < |toks| && toks[pos] == BinText(op) && minPrec <= Prec(op)
    requires ParseBin(toks, pos + 1, Prec(op) + 1) == Ok((right, end))
    ensures Climb(toks, pos, minPrec, left) == Climb(toks, end, minPrec, Bin(op, left, right))
  {
    hide ParseBin, BinText, BinOpOf;
    assert BinOpOf(toks[pos]) == Some(op);
  }

  lemma BinLayout(toks: seq<Token>, pos: nat, s: Syntax)
    requires s.SBin? && Grammatical(s) && TokensAt(toks, pos, Show(s))
    ensures var at := pos + |Show(s.l)|;
            && TokensAt(toks, pos, Show(s.l)) && at + 1 + |Show(s.r)| == pos + |Show(s)| < |toks|
            && toks[at] == BinText(s.op) && TokensAt(toks, at + 1, Show(s.r))
    ensures Grammatical(s.l) && Grammatical(s.r) && Binds(s.l) >= Prec(s.op) && Binds(s.r) > Prec(s.op)
  {
    hide TokensAt, BinText, IsTypeName;
    var tail := [BinText(s.op)] + Show(s.r);
    assert Show(s) == Show(s.l) + tail;
    TokensInside(toks, pos, Show(s));
    TokensSplit(toks, pos, Show(s.l), tail);
    var at := pos + |Show(s.l)|;
    TokensSplit(toks, at, [BinText(s.op)], Show(s.r));
    FirstAt(toks, at, [BinText(s.op)]);
  }

  lemma TextIsOperator(op: BinOp)
    ensures NoSuffix(BinText(op)) && Level(BinText(op)) == Prec(op)
  {
  }

  lemma {:induction false} UnaryParses(toks: seq<Token>, pos: nat, s: Syntax)
    requires Lexed(toks) && Grammatical(s) && TokensAt(toks, pos, Show(s)) && Binds(s) >= 9
    requires NoSuffix(toks[pos + |Show(s)|])
    ensures ParseUnary(toks, pos) == Ok((Tree(s), pos + |Show(s)|))
    decreases s, 3
  {
    hide IsTypeName, ParsePostfix, Suffixes, Show, TokensAt, Grammatical, SkipType, TypeAt;
    if s.SPlus? || s.SUn? {
      PrefixLayout(toks, pos, s);
      UnaryParses(toks, pos + 1, s.e);
    } else if s.SCast? {
      CastParses(toks, pos, s);
    } else {
      PostfixParses(toks, pos, s);
      PostfixStart(toks, pos, s);
      TokensInside(toks, pos, Show(s));
      NoMoreSuffixes(toks, pos + |Show(s)|, Tree(s));
    }
  }

  lemma PrefixLayout(toks: seq<Token>, pos: nat, s: Syntax)
    requires (s.SPlus? || s.SUn?) && Grammatical(s) && TokensAt(toks, pos, Show(s))
    ensures pos + 1 + |Show(s.e)| == pos + |Show(s)| < |toks| && TokensAt(toks, pos + 1, Show(s.e))
    ensures toks[pos] == if s.SPlus? then PLUS else UnText(s.uop)
    ensures Grammatical(s.e) && Binds(s.e) >= 9
  {
    hide IsTypeName, TokensAt;
    var t := if s.SPlus? then PLUS else UnText(s.uop);
    assert Show(s) == [t] + Show(s.e);
    TokensSplit(toks, pos, [t], Show(s.e));
    FirstAt(toks, pos, [t]);
    TokensInside(toks, pos, Show(s));
  }

  lemma NoMoreSuffixes(toks: seq<Token>, pos: nat, e: Expr)
    requires Lexed(toks) && pos < |toks| && NoSuffix(toks[pos])
    ensures Suffixes(toks, pos, e) == Ok((e, pos))
  {
  }

  /** A postfix expression does not start like a unary one. */
  lemma {:induction false} PostfixStart(toks: seq<Token>, pos: nat, s: Syntax)
    requires Lexed(toks) && Grammatical(s) && TokensAt(toks, pos, Show(s)) && Binds(s) == 10
    ensures toks[pos] != PLUS && UnOpOf(toks[pos]).None?
    ensures pos + 1 < |toks| && (toks[pos] == LPAREN ==> !IsType(toks[pos + 1]))
    decreases s
  {
    hide IsTypeName, TokensAt, Show, Grammatical;
    TokensInside(toks, pos, Show(s));
    if s.SParen? {
      ParenLayout(toks, pos, s);
    } else if s.SIndex? {
      IndexLayout(toks, pos, s);
      PostfixStart(toks, pos, s.base);
    } else if s.SCall? {
      CallLayout(toks, pos, s);
      PostfixStart(toks, pos, s.fn);
    } else {
      LeafLayout(toks, pos, s);
    }
  }

  lemma {:induction false} CastParses(toks: seq<Token>, pos: nat, s: Syntax)
    requires s.SCast? && Lexed(toks) && Grammatical(s) && TokensAt(toks, pos, Show(s))
    requires NoSuffix(toks[pos + |Show(s)|])
    ensures ParseUnary(toks, pos) == Ok((Tree(s), pos + |Show(s)|))
    decreases s, 2
  {
    hide IsTypeName, ParsePostfix, Show, TokensAt, SkipType, TypeAt, Grammatical;
    CastRules(s);
    CastLayout(toks, pos, s);
    var close := pos + 1 + |s.names| + s.stars;
    UnaryParses(toks, close + 1, s.e);
  }

  /** Where the parts of a cast stand. */
  lemma CastLayout(toks: seq<Token>, pos: nat, s: Syntax)
    requires s.SCast? && Lexed(toks) && Grammatical(s) && TokensAt(toks, pos, Show(s))
    ensures var close := pos + 1 + |s.names| + s.stars;
            && close + 1 < |toks| && toks[pos] == LPAREN && IsType(toks[pos + 1]) && SkipType(toks, pos + 1) == close
            && TypeAt(toks, pos + 1) == CType(s.names, s.stars) && toks[close] == RPAREN
              && TokensAt(toks, close + 1, Show(s.e))
            && close + 1 + |Show(s.e)| == pos + |Show(s)|
  {
    hide IsTypeName, TokensAt, SkipType, TypeAt, Show, Grammatical, Names, Stars;
    CastRules(s);
    ShowCast(s);
    var body := Names(s.names) + (Stars(s.stars) + ([RPAREN] + Show(s.e)));
    TokensSplit(toks, pos, [LPAREN], body);
    FirstAt(toks, pos, [LPAREN]);
    TypeLayout(toks, pos + 1, s.names, s.stars, Show(s.e));
    TokensInside(toks, pos, Show(s));
  }

  /** A type name in a cast is skipped up to its parenthesis. */
  lemma TypeLayout(toks: seq<Token>, pos: nat, names: seq<string>, stars: nat, rest: seq<Token>)
    requires Lexed(toks) && TokensAt(toks, pos, Names(names) + (Stars(stars) + ([RPAREN] + rest)))
    requires names != [] && forall n :: n in names ==> IsTypeName(n)
    ensures var close := pos + |names| + stars;
            && close + 1 < |toks| && IsType(toks[pos]) && SkipType(toks, pos) == close && toks[close] == RPAREN
            && TypeAt(toks, pos) == CType(names, stars) && TokensAt(toks, close + 1, rest)
  {
    hide IsTypeName, TokensAt, SkipNames, SkipStars, TypeNames, Names, Stars;
    var tail := [RPAREN] + rest;
    TokensSplit(toks, pos, Names(names), Stars(stars) + tail);
    FirstAt(toks, pos, Names(names));
    assert names[0] in names;
    var at := pos + |names|;
    TokensSplit(toks, at, Stars(stars), tail);
    TokensSplit(toks, at + stars, [RPAREN], rest);
    FirstAt(toks, at + stars, [RPAREN]);
    TokensInside(toks, at + stars + 1, rest);
    StarsSkipped(toks, at, stars);
    StarsEndNames(toks, at, stars);
    NamesSkipped(toks, pos, names);
  }

  lemma TokensInside(toks: seq<Token>, pos: nat, seg: seq<Token>)
    requires TokensAt(toks, pos, seg)
    ensures pos + |seg| < |toks|
  {
  }

  lemma CastRules(s: Syntax)
    requires s.SCast? && Grammatical(s)
    ensures s.names != [] && (forall n :: n in s.names ==> IsTypeName(n)) && Grammatical(s.e) && Binds(s.e) >= 9
  {
    hide IsTypeName;
  }

  lemma ShowCast(s: Syntax)
    requires s.SCast?
    ensures Show(s) == [LPAREN] + (Names(s.names) + (Stars(s.stars) + ([RPAREN] + Show(s.e))))
  {
  }

  lemma {:induction false} NamesSkipped(toks: seq<Token>, pos: nat, names: seq<string>)
    requires Lexed(toks) && TokensAt(toks, pos, Names(names)) && (forall n :: n in names ==> IsTypeName(n))
    requires !IsType(toks[pos + |names|])
    ensures SkipNames(toks, pos) == pos + |names| && TypeNames(toks, pos) == names
    decreases |names|
  {
    hide IsTypeName;
    if names != [] {
      FirstAt(toks, pos, Names(names));
      assert names[0] in names;
      assert Names(names) == [Word(names[0])] + Names(names[1..]);
      TokensSplit(toks, pos, [Word(names[0])], Names(names[1..]));
      NamesSkipped(toks, pos + 1, names[1..]);
    }
  }

  lemma {:induction false} StarsSkipped(toks: seq<Token>, pos: nat, n: nat)
    requires Lexed(toks) && TokensAt(toks, pos, Stars(n)) && toks[pos + n] != STAR
    ensures SkipStars(toks, pos) == pos + n
    decreases n
  {
    if n > 0 {
      FirstAt(toks, pos, Stars(n));
      assert Stars(n) == [STAR] + Stars(n - 1);
      TokensSplit(toks, pos, [STAR], Stars(n - 1));
      StarsSkipped(toks, pos + 1, n - 1);
    }
  }

  /** After the stars of a type comes `)`, so the token after its names is no type name. */
  lemma StarsEndNames(toks: seq<Token>, pos: nat, n: nat)
    requires TokensAt(toks, pos, Stars(n)) && toks[pos + n] == RPAREN
    ensures !IsType(toks[pos])
  {
    if n > 0 { FirstAt(toks, pos, Stars(n)); }
  }

  lemma {:induction false} PostfixParses(toks: seq<Token>, pos: nat, s: Syntax)
    requires Lexed(toks) && Grammatical(s) && TokensAt(toks, pos, Show(s)) && Binds(s) == 10
    ensures ParsePostfix(toks, pos) == Suffixes(toks, pos + |Show(s)|, Tree(s))
    decreases s, 1
  {
    hide IsTypeName, ParseBin, Climb, ParseArgs, TokensAt, Suffixes, Show, Grammatical, ShowArgs;
    if s.SParen? {
      ParenLayout(toks, pos, s);
      WholeParses(toks, pos + 1, s.inner);
    } else if s.SIndex? {
      IndexLayout(toks, pos, s);
      var at := pos + |Show(s.base)|;
      PostfixParses(toks, pos, s.base);
      WholeParses(toks, at + 1, s.index);
      IndexSuffix(toks, at, Tree(s.base), Tree(s.index), at + 1 + |Show(s.index)|);
    } else if s.SCall? {
      CallLayout(toks, pos, s);
      var at := pos + |Show(s.fn)|;
      PostfixParses(toks, pos, s.fn);
      ArgsParse(toks, at + 1, s.args);
      CallSuffix(toks, at, Tree(s.fn), Trees(s.args), at + 1 + |ShowArgs(s.args)|);
    } else {
      LeafLayout(toks, pos, s);
    }
  }

  lemma LeafLayout(toks: seq<Token>, pos: nat, s: Syntax)
    requires (s.SNum? || s.SName?) && TokensAt(toks, pos, Show(s))
    ensures |Show(s)| == 1 && pos + 1 < |toks| && toks[pos] == if s.SNum? then Num(Some(s.v)) else Word(s.name)
  {
    FirstAt(toks, pos, Show(s));
  }

  lemma ParenLayout(toks: seq<Token>, pos: nat, s: Syntax)
    requires s.SParen? && TokensAt(toks, pos, Show(s)) && Grammatical(s)
    ensures pos + 2 + |Show(s.inner)| == pos + |Show(s)| < |toks|
    ensures toks[pos] == LPAREN && TokensAt(toks, pos + 1, Show(s.inner)) && toks[pos + 1 + |Show(s.inner)|] == RPAREN
    ensures Grammatical(s.inner) && !IsType(toks[pos + 1])
  {
    hide IsTypeName, Show, Grammatical;
    ParenRules(s);
    TokensSplit(toks, pos, [LPAREN], Show(s.inner) + [RPAREN]);
    FirstAt(toks, pos, [LPAREN]);
    TokensSplit(toks, pos + 1, Show(s.inner), [RPAREN]);
    FirstAt(toks, pos + 1, Show(s.inner));
    FirstAt(toks, pos + 1 + |Show(s.inner)|, [RPAREN]);
  }

  lemma ParenRules(s: Syntax)
    requires s.SParen? && Grammatical(s)
    ensures Grammatical(s.inner) && Show(s) == [LPAREN] + (Show(s.inner) + [RPAREN])
    ensures !IsType(Show(s.inner)[0])
  {
    hide IsTypeName;
    ThreeParts([], LPAREN, Show(s.inner), RPAREN);
    assert [] + [LPAREN] == [LPAREN];
  }

  lemma IndexRules(s: Syntax)
    requires s.SIndex? && Grammatical(s)
    ensures Grammatical(s.base) && Binds(s.base) == 10 && Grammatical(s.index)
    ensures Show(s) == Show(s.base) + ([LBRACKET] + (Show(s.index) + [RBRACKET]))
  {
    hide IsTypeName;
    ThreeParts(Show(s.base), LBRACKET, Show(s.index), RBRACKET);
  }

  /** Concatenations read from the right. */
  lemma ThreeParts(a: seq<Token>, open: Token, b: seq<Token>, close: Token)
    ensures a + [open] + b + [close] == a + ([open] + (b + [close]))
  {
  }

  lemma CallRules(s: Syntax)
    requires s.SCall? && Grammatical(s)
    ensures Grammatical(s.fn) && Binds(s.fn) == 10 && Tree(s.fn).Id? && (forall a :: a in s.args ==> Grammatical(a))
    ensures Show(s) == Show(s.fn) + ([LPAREN] + (ShowArgs(s.args) + [RPAREN]))
  {
    hide IsTypeName, ShowArgs, Tree;
    ThreeParts(Show(s.fn), LPAREN, ShowArgs(s.args), RPAREN);
  }

  lemma IndexLayout(toks: seq<Token>, pos: nat, s: Syntax)
    requires s.SIndex? && TokensAt(toks, pos, Show(s)) && Grammatical(s)
    ensures Grammatical(s.base) && Binds(s.base) == 10 && Grammatical(s.index)
    ensures pos + |Show(s.base)| + 2 + |Show(s.index)| == pos + |Show(s)| < |toks|
    ensures var at := pos + |Show(s.base)|;
            && TokensAt(toks, pos, Show(s.base)) && toks[at] == LBRACKET && TokensAt(toks, at + 1, Show(s.index))
            && toks[at + 1 + |Show(s.index)|] == RBRACKET
  {
    hide TokensAt, Show, Grammatical, Tree;
    IndexRules(s);
    var tail := Show(s.index) + [RBRACKET];
    TokensInside(toks, pos, Show(s));
    TokensSplit(toks, pos, Show(s.base), [LBRACKET] + tail);
    var at := pos + |Show(s.base)|;
    TokensSplit(toks, at, [LBRACKET], tail);
    FirstAt(toks, at, [LBRACKET]);
    TokensInside(toks, at, [LBRACKET]);
    TokensSplit(toks, at + 1, Show(s.index), [RBRACKET]);
    FirstAt(toks, at + 1 + |Show(s.index)|, [RBRACKET]);
    TokensInside(toks, at + 1, Show(s.index));
  }

  lemma CallLayout(toks: seq<Token>, pos: nat, s: Syntax)
    requires s.SCall? && TokensAt(toks, pos, Show(s)) && Grammatical(s)
    ensures Grammatical(s.fn) && Binds(s.fn) == 10 && Tree(s.fn).Id? && (forall a :: a in s.args ==> Grammatical(a))
    ensures pos + |Show(s.fn)| + 2 + |ShowArgs(s.args)| == pos + |Show(s)| < |toks|
    ensures var at := pos + |Show(s.fn)|;
            && TokensAt(toks, pos, Show(s.fn)) && toks[at] == LPAREN && TokensAt(toks, at + 1, ShowArgs(s.args))
            && toks[at + 1 + |ShowArgs(s.args)|] == RPAREN
  {
    hide TokensAt, Show, ShowArgs, Grammatical, Tree;
    CallRules(s);
    var tail := ShowArgs(s.args) + [RPAREN];
    TokensInside(toks, pos, Show(s));
    TokensSplit(toks, pos, Show(s.fn), [LPAREN] + tail);
    var at := pos + |Show(s.fn)|;
    TokensSplit(toks, at, [LPAREN], tail);
    FirstAt(toks, at, [LPAREN]);
    TokensSplit(toks, at + 1, ShowArgs(s.args), [RPAREN]);
    FirstAt(toks, at + 1 + |ShowArgs(s.args)|, [RPAREN]);
    TokensInside(toks, at + 1, ShowArgs(s.args));
  }

  lemma IndexSuffix(toks: seq<Token>, pos: nat, base: Expr, index: Expr, close: nat)
    requires Lexed(toks) && pos + 1 < |toks| && close + 1 < |toks| && toks[pos] == LBRACKET && toks[close] == RBRACKET
    requires ParseBin(toks, pos + 1, 0) == Ok((index, close))
    ensures Suffixes(toks, pos, base) == Suffixes(toks, close + 1, Index(base, index))
  {
    hide ParseBin;
  }

  lemma CallSuffix(toks: seq<Token>, pos: nat, fn: Expr, args: seq<Expr>, close: nat)
    requires fn.Id? && Lexed(toks) && pos + 1 < |toks| && close + 1 < |toks| && toks[pos] == LPAREN
        && toks[close] == RPAREN
    requires ParseArgs(toks, pos + 1) == Ok((args, close))
    ensures Suffixes(toks, pos, fn) == Suffixes(toks, close + 1, Call(fn.name, args))
  {
    hide ParseArgs;
  }

  /** An expression up to a token that ends it. */
  lemma {:induction false} WholeParses(toks: seq<Token>, pos: nat, s: Syntax)
    requires Lexed(toks) && Grammatical(s) && TokensAt(toks, pos, Show(s))
    requires NoSuffix(toks[pos + |Show(s)|]) && BinOpOf(toks[pos + |Show(s)|]).None?
    ensures ParseBin(toks, pos, 0) == Ok((Tree(s), pos + |Show(s)|))
    decreases s, 5
  {
    hide ParseUnary, IsTypeName, Grammatical;
    BinParses(toks, pos, s, 0);
  }

  lemma {:induction false} ArgsParse(toks: seq<Token>, pos: nat, args: seq<Syntax>)
    requires Lexed(toks) && (forall a :: a in args ==> Grammatical(a)) && TokensAt(toks, pos, ShowArgs(args))
    requires toks[pos + |ShowArgs(args)|] == RPAREN
    ensures ParseArgs(toks, pos) == Ok((Trees(args), pos + |ShowArgs(args)|))
    decreases args, 1
  {
    hide IsTypeName, ParseBin, MoreArgs, Grammatical;
    if args != [] {
      MoreArgsParse(toks, pos, args);
      FirstAt(toks, pos, ShowArgs(args));
      FirstArgStart(args);
    }
  }

  lemma FirstArgStart(args: seq<Syntax>)
    requires args != []
    ensures ShowArgs(args) != [] && ShowArgs(args)[0] == Show(args[0])[0] && Show(args[0])[0] != RPAREN
  {
    ShowStart(args[0]);
  }

  lemma {:induction false} ShowStart(s: Syntax)
    ensures Show(s)[0] != RPAREN
    decreases s
  {
    match s
    case SIndex(base, _) => ShowStart(base);
    case SCall(fn, _) => ShowStart(fn);
    case SBin(_, l, _) => ShowStart(l);
    case _ =>
  }

  lemma {:induction false} MoreArgsParse(toks: seq<Token>, pos: nat, args: seq<Syntax>)
    requires Lexed(toks) && (forall a :: a in args ==> Grammatical(a)) && TokensAt(toks, pos, ShowArgs(args))
    requires args != [] && toks[pos + |ShowArgs(args)|] == RPAREN
    ensures MoreArgs(toks, pos) == Ok((Trees(args), pos + |ShowArgs(args)|))
    decreases args, 0
  {
    hide IsTypeName, ParseBin, Grammatical, Show, TokensAt, ShowArgs, Tree;
    assert args[0] in args && forall a :: a in args[1..] ==> a in args;
    if |args| == 1 {
      assert ShowArgs(args) == Show(args[0]) by { OneArg(args); }
      WholeParses(toks, pos, args[0]);
      assert args[1..] == [] && [Tree(args[0])] + [] == [Tree(args[0])];
    } else {
      ArgsLayout(toks, pos, args);
      var at := pos + |Show(args[0])|;
      WholeParses(toks, pos, args[0]);
      MoreArgsParse(toks, at + 1, args[1..]);
    }
  }

  lemma OneArg(args: seq<Syntax>)
    requires |args| == 1
    ensures ShowArgs(args) == Show(args[0])
  {
  }

  lemma ShowMore(args: seq<Syntax>)
    requires |args| > 1
    ensures ShowArgs(args) == Show(args[0]) + ([COMMA] + ShowArgs(args[1..]))
  {
    hide Show;
    assert Show(args[0]) + [COMMA] + ShowArgs(args[1..]) == Show(args[0]) + ([COMMA] + ShowArgs(args[1..]));
  }

  lemma ArgsLayout(toks: seq<Token>, pos: nat, args: seq<Syntax>)
    requires |args| > 1 && TokensAt(toks, pos, ShowArgs(args))
    ensures var at := pos + |Show(args[0])|;
            && TokensAt(toks, pos, Show(args[0])) && at + 1 + |ShowArgs(args[1..])| == pos + |ShowArgs(args)| < |toks|
            && toks[at] == COMMA && TokensAt(toks, at + 1, ShowArgs(args[1..]))
  {
    hide Show, TokensAt, ShowArgs;
    var tail := [COMMA] + ShowArgs(args[1..]);
    ShowMore(args);
    TokensInside(toks, pos, ShowArgs(args));
    TokensSplit(toks, pos, Show(args[0]), tail);
    var at := pos + |Show(args[0])|;
    TokensSplit(toks, at, [COMMA], ShowArgs(args[1..]));
    FirstAt(toks, at, [COMMA]);
  }
}
