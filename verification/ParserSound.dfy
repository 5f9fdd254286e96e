/** The converse: whatever the parser accepts is grammatical; and the printer that writes the fewest tokens. */
module ParserSound {
  import opened Prelude
  import opened Ast
  import opened Parser
  import opened ParserCorrect

  // ----- cutting the tokens -----

  lemma Cut(ts: seq<Token>, a: nat, m: nat, b: nat)
    requires a <= m <= b <= |ts|
    ensures ts[a..b] == ts[a..m] + ts[m..b]
  {
  }

  lemma CutAt(ts: seq<Token>, a: nat, m: nat, b: nat)
    requires a <= m < b <= |ts|
    ensures ts[a..b] == ts[a..m] + [ts[m]] + ts[m + 1..b]
  {
  }

  /** Up to a closing token. */
  lemma CutClosed(ts: seq<Token>, a: nat, m: nat, c: nat)
    requires a <= m < c < |ts|
    ensures ts[a..c + 1] == ts[a..m] + [ts[m]] + ts[m + 1..c] + [ts[c]]
  {
    CutAt(ts, a, m, c);
    CutAt(ts, a, c, c + 1);
  }

  // ----- every parse comes from a grammatical expression -----

  /** The tokens from `start` to `end` spell `s`. */
  predicate Spells(toks: seq<Token>, start: nat, end: nat, s: Syntax) {
    start <= end <= |toks| && toks[start..end] == Show(s)
  }

  lemma BinSound(toks: seq<Token>, pos: nat, minPrec: nat) returns (s: Syntax)
    requires Lexed(toks) && pos < |toks| && minPrec <= 9 && ParseBin(toks, pos, minPrec).Ok?
    ensures var (e, end) := ParseBin(toks, pos, minPrec).value;
            && Grammatical(s) && Tree(s) == e && Spells(toks, pos, end, s) && Binds(s) >= minPrec
            && Level(toks[end]) < Max(1, minPrec)
    decreases |toks| - pos, 4
  {
    hide Grammatical, Spells, Climb, ParseUnary, Level, Tree;
    var (left, p) := ParseUnary(toks, pos).value;
    var s0 := UnarySound(toks, pos);
    LevelAtMost(toks[p]);
    s := ClimbSound(toks, p, pos, minPrec, s0);
  }

  lemma LevelAtMost(t: Token)
    ensures Level(t) <= 8
  {
  }

  lemma ClimbSound(toks: seq<Token>, pos: nat, start: nat, minPrec: nat, left: Syntax) returns (s: Syntax)
    requires Lexed(toks) && pos < |toks| && minPrec <= 9 && Climb(toks, pos, minPrec, Tree(left)).Ok?
    requires Grammatical(left) && Spells(toks, start, pos, left) && Binds(left) >= Max(minPrec, Level(toks[pos]))
    ensures var (e, end) := Climb(toks, pos, minPrec, Tree(left)).value;
            && Grammatical(s) && Tree(s) == e && Spells(toks, start, end, s) && Binds(s) >= minPrec
            && Level(toks[end]) < Max(1, minPrec)
    decreases |toks| - pos, 0
  {
    hide Spells, Show, BinOpOf, BinText, IsTypeName, ParseBin, Prec;
    if BinOpOf(toks[pos]).None? || Level(toks[pos]) < minPrec {
      s := left;
    } else {
      var op := BinOpOf(toks[pos]).value;
      var right := BinSound(toks, pos + 1, Prec(op) + 1);
      var p := ParseBin(toks, pos + 1, Prec(op) + 1).value.1;
      OperatorText(toks[pos]);
      SpellsBin(toks, start, pos, p, left, op, right);
      s := ClimbSound(toks, p, start, minPrec, SBin(op, left, right));
    }
  }

  lemma OperatorText(t: Token)
    requires BinOpOf(t).Some?
    ensures t == BinText(BinOpOf(t).value)
  {
  }

  lemma SpellsBin(toks: seq<Token>, start: nat, pos: nat, end: nat, left: Syntax, op: BinOp, right: Syntax)
    requires pos < |toks| && Spells(toks, start, pos, left) && toks[pos] == BinText(op)
        && Spells(toks, pos + 1, end, right)
    ensures Spells(toks, start, end, SBin(op, left, right))
  {
    hide BinText;
    CutAt(toks, start, pos, end);
  }

  lemma UnarySound(toks: seq<Token>, pos: nat) returns (s: Syntax)
    requires Lexed(toks) && pos < |toks| && ParseUnary(toks, pos).Ok?
    ensures var (e, end) := ParseUnary(toks, pos).value;
            Grammatical(s) && Tree(s) == e && Spells(toks, pos, end, s) && Binds(s) >= 9
    decreases |toks| - pos, 3
  {
    hide Spells, Show, IsTypeName, UnText, UnOpOf, SkipType, TypeAt, ParsePostfix;
    var t, end := toks[pos], ParseUnary(toks, pos).value.1;
    if t == PLUS {
      var e := UnarySound(toks, pos + 1);
      s := SPlus(e);
      SpellsPrefix(toks, pos, end, t, e, s);
    } else if UnOpOf(t).Some? {
      var e := UnarySound(toks, pos + 1);
      s := SUn(UnOpOf(t).value, e);
      UnaryText(t);
      SpellsPrefix(toks, pos, end, t, e, s);
    } else if t == LPAREN && IsType(toks[pos + 1]) {
      var close := SkipType(toks, pos + 1);
      var e := UnarySound(toks, close + 1);
      var ty := TypeSpelled(toks, pos + 1);
      s := SCast(ty.names, ty.stars, e);
      SpellsCast(toks, pos, close, end, s);
    } else {
      s := PostfixSound(toks, pos);
    }
  }

  lemma UnaryText(t: Token)
    requires UnOpOf(t).Some?
    ensures t == UnText(UnOpOf(t).value)
  {
  }

  lemma SpellsPrefix(toks: seq<Token>, pos: nat, end: nat, t: Token, e: Syntax, s: Syntax)
    requires pos < |toks| && toks[pos] == t && Spells(toks, pos + 1, end, e)
    requires (s == SPlus(e) && t == PLUS) || (s.SUn? && s.e == e && t == UnText(s.uop))
    ensures Spells(toks, pos, end, s)
  {
    hide UnText;
    CutAt(toks, pos, pos, end);
  }

  lemma {:induction false} NamesSpelled(toks: seq<Token>, pos: nat)
    requires Lexed(toks) && pos < |toks|
    ensures var (p, names) := (SkipNames(toks, pos), TypeNames(toks, pos));
            && toks[pos..p] == Names(names) && (forall n :: n in names ==> IsTypeName(n))
            && (IsType(toks[pos]) ==> names != [])
    decreases |toks| - pos
  {
    hide IsTypeName;
    if IsType(toks[pos]) {
      NamesSpelled(toks, pos + 1);
      CutAt(toks, pos, pos, SkipNames(toks, pos));
      assert Names(TypeNames(toks, pos)) == [toks[pos]] + Names(TypeNames(toks, pos + 1));
    }
  }

  lemma {:induction false} StarsSpelled(toks: seq<Token>, pos: nat)
    requires Lexed(toks) && pos < |toks|
    ensures var p := SkipStars(toks, pos); toks[pos..p] == Stars(p - pos)
    decreases |toks| - pos
  {
    if toks[pos] == STAR {
      StarsSpelled(toks, pos + 1);
      var p := SkipStars(toks, pos);
      CutAt(toks, pos, pos, p);
    }
  }

  lemma TypeSpelled(toks: seq<Token>, pos: nat) returns (ty: CType)
    requires Lexed(toks) && pos < |toks| && IsType(toks[pos])
    ensures ty == TypeAt(toks, pos) && ty.names != [] && (forall n :: n in ty.names ==> IsTypeName(n))
    ensures toks[pos..SkipType(toks, pos)] == Names(ty.names) + Stars(ty.stars)
  {
    hide IsTypeName, SkipNames, SkipStars, TypeNames, Names, Stars;
    ty := TypeAt(toks, pos);
    NamesSpelled(toks, pos);
    var p := SkipNames(toks, pos);
    StarsSpelled(toks, p);
    Cut(toks, pos, p, SkipStars(toks, p));
  }

  lemma SpellsCast(toks: seq<Token>, pos: nat, close: nat, end: nat, s: Syntax)
    requires s.SCast? && pos < close < |toks| && toks[pos] == LPAREN && toks[close] == RPAREN
    requires toks[pos + 1..close] == Names(s.names) + Stars(s.stars) && Spells(toks, close + 1, end, s.e)
    ensures Spells(toks, pos, end, s)
  {
    hide Names, Stars, Show;
    CutClosed(toks, pos, pos, close);
    Cut(toks, pos, close + 1, end);
    ShowCast(s);
    CastParts(Names(s.names), Stars(s.stars), Show(s.e));
  }

  lemma CastParts(names: seq<Token>, stars: seq<Token>, e: seq<Token>)
    ensures [LPAREN] + (names + (stars + ([RPAREN] + e))) == [LPAREN] + (names + stars) + [RPAREN] + e
  {
  }

  lemma PostfixSound(toks: seq<Token>, pos: nat) returns (s: Syntax)
    requires Lexed(toks) && pos < |toks| && ParsePostfix(toks, pos).Ok?
    requires toks[pos] == LPAREN && pos + 1 < |toks| ==> !IsType(toks[pos + 1])
    ensures var (e, end) := ParsePostfix(toks, pos).value;
            Grammatical(s) && Tree(s) == e && Spells(toks, pos, end, s) && Binds(s) == 10
    decreases |toks| - pos, 2
  {
    hide Spells, Grammatical, IsTypeName, Suffixes, ParsePrimary;
    var s0 := PrimarySound(toks, pos);
    s := SuffixSound(toks, ParsePrimary(toks, pos).value.1, pos, s0);
  }

  lemma PrimarySound(toks: seq<Token>, pos: nat) returns (s: Syntax)
    requires Lexed(toks) && pos < |toks| && ParsePrimary(toks, pos).Ok?
    requires toks[pos] == LPAREN && pos + 1 < |toks| ==> !IsType(toks[pos + 1])
    ensures var (e, end) := ParsePrimary(toks, pos).value;
            Grammatical(s) && Tree(s) == e && Spells(toks, pos, end, s) && Binds(s) == 10
    decreases |toks| - pos, 1
  {
    hide IsTypeName, ParseBin, Spells;
    match toks[pos]
    case Num(v) =>
      s := SNum(v.value);
      SpellsLeaf(toks, pos, s);
    case Word(name) =>
      s := SName(name);
      SpellsLeaf(toks, pos, s);
    case Punct(_) =>
      var inner := BinSound(toks, pos + 1, 0);
      var p := ParseBin(toks, pos + 1, 0).value.1;
      s := SParen(inner);
      SpellsParen(toks, pos, p, inner);
  }

  lemma SpellsLeaf(toks: seq<Token>, pos: nat, s: Syntax)
    requires pos < |toks| && Show(s) == [toks[pos]]
    ensures Spells(toks, pos, pos + 1, s)
  {
    hide Show;
    CutAt(toks, pos, pos, pos + 1);
  }

  lemma SpellsParen(toks: seq<Token>, pos: nat, close: nat, inner: Syntax)
    requires pos + 1 < |toks| && Spells(toks, pos + 1, close, inner) && close < |toks|
    requires toks[pos] == LPAREN && toks[close] == RPAREN
    ensures Spells(toks, pos, close + 1, SParen(inner)) && Show(inner)[0] == toks[pos + 1]
  {
    CutClosed(toks, pos, pos, close);
    assert toks[pos + 1..close][0] == toks[pos + 1];
  }

  lemma SuffixSound(toks: seq<Token>, pos: nat, start: nat, base: Syntax) returns (s: Syntax)
    requires Lexed(toks) && pos < |toks| && Suffixes(toks, pos, Tree(base)).Ok?
    requires Grammatical(base) && Spells(toks, start, pos, base) && Binds(base) == 10
    ensures var (e, end) := Suffixes(toks, pos, Tree(base)).value;
            Grammatical(s) && Tree(s) == e && Spells(toks, start, end, s) && Binds(s) == 10
    decreases |toks| - pos, 0
  {
    hide Spells, Show, IsTypeName, ParseBin, ParseArgs, Grammatical;
    if toks[pos] == LBRACKET {
      var index := BinSound(toks, pos + 1, 0);
      var p := ParseBin(toks, pos + 1, 0).value.1;
      SpellsIndex(toks, start, pos, p, base, index);
      IndexGrammatical(base, index);
      s := SuffixSound(toks, p + 1, start, SIndex(base, index));
    } else if toks[pos] == LPAREN && Tree(base).Id? {
      var args := ArgsSound(toks, pos + 1);
      var p := ParseArgs(toks, pos + 1).value.1;
      SpellsCall(toks, start, pos, p, base, args);
      CallGrammatical(base, args);
      s := SuffixSound(toks, p + 1, start, SCall(base, args));
    } else {
      s := base;
    }
  }

  lemma IndexGrammatical(base: Syntax, index: Syntax)
    requires Grammatical(base) && Binds(base) == 10 && Grammatical(index)
    ensures Grammatical(SIndex(base, index))
  {
  }

  lemma CallGrammatical(fn: Syntax, args: seq<Syntax>)
    requires Grammatical(fn) && Binds(fn) == 10 && Tree(fn).Id? && forall a :: a in args ==> Grammatical(a)
    ensures Grammatical(SCall(fn, args))
  {
  }

  lemma SpellsIndex(toks: seq<Token>, start: nat, pos: nat, close: nat, base: Syntax, index: Syntax)
    requires pos < |toks| && close < |toks| && toks[pos] == LBRACKET && toks[close] == RBRACKET
    requires Spells(toks, start, pos, base) && Spells(toks, pos + 1, close, index)
    ensures Spells(toks, start, close + 1, SIndex(base, index))
  {
    CutClosed(toks, start, pos, close);
  }

  lemma SpellsCall(toks: seq<Token>, start: nat, pos: nat, close: nat, fn: Syntax, args: seq<Syntax>)
    requires pos < close < |toks| && toks[pos] == LPAREN && toks[close] == RPAREN
    requires Spells(toks, start, pos, fn) && toks[pos + 1..close] == ShowArgs(args)
    ensures Spells(toks, start, close + 1, SCall(fn, args))
  {
    hide ShowArgs;
    CutClosed(toks, start, pos, close);
  }

  lemma ArgsSound(toks: seq<Token>, pos: nat) returns (args: seq<Syntax>)
    requires Lexed(toks) && pos < |toks| && ParseArgs(toks, pos).Ok?
    ensures var (es, end) := ParseArgs(toks, pos).value;
            && (forall a :: a in args ==> Grammatical(a)) && Trees(args) == es && pos <= end < |toks|
            && toks[pos..end] == ShowArgs(args)
    decreases |toks| - pos, 6
  {
    hide Grammatical, MoreArgs;
    if toks[pos] == RPAREN {
      args := [];
    } else {
      args := MoreArgsSound(toks, pos);
    }
  }

  lemma MoreArgsSound(toks: seq<Token>, pos: nat) returns (args: seq<Syntax>)
    requires Lexed(toks) && pos < |toks| && MoreArgs(toks, pos).Ok?
    ensures var (es, end) := MoreArgs(toks, pos).value;
            && (forall a :: a in args ==> Grammatical(a)) && Trees(args) == es && args != []
            && toks[pos..end] == ShowArgs(args)
    decreases |toks| - pos, 5
  {
    hide Grammatical, ParseBin, ShowArgs, Tree;
    var first := BinSound(toks, pos, 0);
    var p := ParseBin(toks, pos, 0).value.1;
    if toks[p] != COMMA {
      args := [first];
      OneArg(args);
      assert args[1..] == [];
    } else {
      var rest := MoreArgsSound(toks, p + 1);
      var end := MoreArgs(toks, p + 1).value.1;
      args := [first] + rest;
      assert args[1..] == rest;
      ShowMore(args);
      CutAt(toks, pos, p, end);
    }
  }

  // ----- the theorem -----

  /**
   * The parser accepts a prefix of the tokens, up to a token that ends an expression, exactly when it spells a
   * grammatical expression, and returns that expression's tree.
   */
  lemma ParsesExactlyTheGrammar(toks: seq<Token>, pos: nat, end: nat, e: Expr)
    requires Lexed(toks) && pos <= end < |toks| && NoSuffix(toks[end]) && BinOpOf(toks[end]).None?
    ensures ParseBin(toks, pos, 0) == Ok((e, end)) <==>
              exists s :: Grammatical(s) && Tree(s) == e && Spells(toks, pos, end, s)
  {
    hide ParseBin, Grammatical, Tree, Spells, Show;
    if ParseBin(toks, pos, 0) == Ok((e, end)) {
      var s := BinSound(toks, pos, 0);
      assert Grammatical(s) && Tree(s) == e && Spells(toks, pos, end, s);
    }
    if s :| Grammatical(s) && Tree(s) == e && Spells(toks, pos, end, s) {
      SpellsTokens(toks, pos, end, s);
      WholeParses(toks, pos, s);
    }
  }

  lemma SpellsTokens(toks: seq<Token>, pos: nat, end: nat, s: Syntax)
    requires Spells(toks, pos, end, s) && end < |toks|
    ensures TokensAt(toks, pos, Show(s)) && pos + |Show(s)| == end
  {
  }

  // ----- the minimal printer -----

  /** Parenthesise what binds less tightly than its place wants. */
  function Wrap(s: Syntax, level: nat): Syntax { if Binds(s) < level then SParen(s) else s }

  /** The expression written for a place that wants `level`, with parentheses only where they are needed. */
  function Printed(e: Expr, level: nat): Syntax
    decreases e
  {
    match e
    case Const(v) => SNum(v)
    case Id(name) => SName(name)
    case Bin(op, l, r) => Wrap(SBin(op, Printed(l, Prec(op)), Printed(r, Prec(op) + 1)), level)
    case Un(op, inner) => Wrap(SUn(op, Printed(inner, 9)), level)
    case Cast(ty, inner) => Wrap(SCast(ty.names, ty.stars, Printed(inner, 9)), level)
    case Index(base, index) => SIndex(Printed(base, 10), Printed(index, 0))
    case Call(fn, args) => SCall(SName(fn), PrintedArgs(args))
  }

  function PrintedArgs(args: seq<Expr>): (r: seq<Syntax>)
    ensures |r| == |args|
    decreases args
  {
    if args == [] then [] else [Printed(args[0], 0)] + PrintedArgs(args[1..])
  }

  /** No variable or function has the name of a type, and a cast is to a type, as in every C program. */
  predicate NoTypeNames(e: Expr)
    decreases e
  {
    match e
    case Const(_) => true
    case Id(name) => !IsTypeName(name)
    case Bin(_, l, r) => NoTypeNames(l) && NoTypeNames(r)
    case Un(_, inner) => NoTypeNames(inner)
    case Cast(ty, inner) => ty.names != [] && (forall n :: n in ty.names ==> IsTypeName(n)) && NoTypeNames(inner)
    case Index(base, index) => NoTypeNames(base) && NoTypeNames(index)
    case Call(fn, args) => !IsTypeName(fn) && forall a :: a in args ==> NoTypeNames(a)
  }

  /** `s` writes `e` in a place that wants `level`, and may stand after a parenthesis. */
  predicate Writes(s: Syntax, e: Expr, level: nat) {
    Grammatical(s) && Tree(s) == e && Binds(s) >= level && !IsType(Show(s)[0])
  }

  lemma WrapWrites(s: Syntax, e: Expr, level: nat)
    requires Writes(s, e, 0) && level <= 10
    ensures Writes(Wrap(s, level), e, level)
  {
    hide IsTypeName;
  }

  lemma BinWrites(op: BinOp, l: Syntax, r: Syntax)
    requires Writes(l, Tree(l), Prec(op)) && Writes(r, Tree(r), Prec(op) + 1)
    ensures Writes(SBin(op, l, r), Bin(op, Tree(l), Tree(r)), 0)
  {
    hide IsTypeName, BinText, Prec;
  }

  lemma PrefixWrites(s: Syntax)
    requires s.SUn? || (s.SCast? && s.names != [] && forall n :: n in s.names ==> IsTypeName(n))
    requires Writes(s.e, Tree(s.e), 9)
    ensures Writes(s, Tree(s), 0)
  {
    hide IsTypeName, Names, Stars;
  }

  lemma SuffixWrites(s: Syntax)
    requires s.SIndex? ==> Writes(s.base, Tree(s.base), 10) && Grammatical(s.index)
    requires s.SCall? ==> Writes(s.fn, Tree(s.fn), 10) && Tree(s.fn).Id? && forall a :: a in s.args ==> Grammatical(a)
    requires s.SIndex? || s.SCall?
    ensures Writes(s, Tree(s), 10)
  {
    hide IsTypeName, ShowArgs;
  }

  lemma LeafWrites(s: Syntax)
    requires s.SNum? || (s.SName? && !IsTypeName(s.name))
    ensures Writes(s, Tree(s), 10)
  {
    hide IsTypeName;
  }

  lemma WritesLower(s: Syntax, e: Expr, high: nat, level: nat)
    requires Writes(s, e, high) && level <= high
    ensures Writes(s, e, level)
  {
    hide Grammatical, Show, Tree, IsTypeName;
  }

  lemma WritesTree(s: Syntax, e: Expr, level: nat)
    requires Writes(s, e, level)
    ensures Tree(s) == e && Grammatical(s)
  {
  }

  /** What the printer writes is grammatical and stands for the expression. */
  lemma {:induction false} PrintedGrammatical(e: Expr, level: nat)
    requires NoTypeNames(e) && level <= 10
    ensures Writes(Printed(e, level), e, level)
    decreases e, 1
  {
    hide IsTypeName, Grammatical, Writes, Wrap;
    var s := Printed(e, level);
    match e
    case Const(_) =>
      LeafWrites(s);
      WritesLower(s, e, 10, level);
    case Id(_) =>
      LeafWrites(s);
      WritesLower(s, e, 10, level);
    case Bin(op, l, r) =>
      PrintedGrammatical(l, Prec(op));
      PrintedGrammatical(r, Prec(op) + 1);
      var sl, sr := Printed(l, Prec(op)), Printed(r, Prec(op) + 1);
      WritesTree(sl, l, Prec(op));
      WritesTree(sr, r, Prec(op) + 1);
      BinWrites(op, sl, sr);
      WrapWrites(SBin(op, sl, sr), e, level);
    case Un(op, inner) =>
      PrintedGrammatical(inner, 9);
      WritesTree(Printed(inner, 9), inner, 9);
      PrefixWrites(SUn(op, Printed(inner, 9)));
      WrapWrites(SUn(op, Printed(inner, 9)), e, level);
    case Cast(ty, inner) =>
      PrintedGrammatical(inner, 9);
      WritesTree(Printed(inner, 9), inner, 9);
      PrefixWrites(SCast(ty.names, ty.stars, Printed(inner, 9)));
      WrapWrites(SCast(ty.names, ty.stars, Printed(inner, 9)), e, level);
    case Index(base, index) =>
      PrintedGrammatical(base, 10);
      PrintedGrammatical(index, 0);
      WritesTree(Printed(base, 10), base, 10);
      WritesTree(Printed(index, 0), index, 0);
      SuffixWrites(s);
      WritesLower(s, e, 10, level);
    case Call(fn, args) =>
      ArgsGrammatical(args);
      LeafWrites(SName(fn));
      SuffixWrites(s);
      WritesLower(s, e, 10, level);
  }

  lemma {:induction false} ArgsGrammatical(args: seq<Expr>)
    requires forall a :: a in args ==> NoTypeNames(a)
    ensures (forall s :: s in PrintedArgs(args) ==> Grammatical(s)) && Trees(PrintedArgs(args)) == args
    decreases args, 0
  {
    hide Grammatical, NoTypeNames, IsTypeName, Show;
    if args != [] {
      assert args[0] in args && forall a :: a in args[1..] ==> a in args;
      PrintedGrammatical(args[0], 0);
      WritesTree(Printed(args[0], 0), args[0], 0);
      ArgsGrammatical(args[1..]);
      assert PrintedArgs(args)[1..] == PrintedArgs(args[1..]);
    }
  }

  /** The round trip: parsing the printed expression gives the expression back. */
  lemma ParserInvertsPrinter(e: Expr)
    requires NoTypeNames(e)
    ensures var ts := Show(Printed(e, 0)); ParseBin(ts + [Eof], 0, 0) == Ok((e, |ts|))
  {
    hide ParseBin, Grammatical, Show, Tree;
    var s := Printed(e, 0);
    PrintedGrammatical(e, 0);
    WritesTree(s, e, 0);
    var toks := Show(s) + [Eof];
    assert toks[0..|Show(s)|] == Show(s);
    WholeParses(toks, 0, s);
  }

  /** How long an expression is, from its parts. */
  function LengthOf(s: Syntax): nat {
    match s
    case SNum(_) => 1
    case SName(_) => 1
    case SParen(inner) => |Show(inner)| + 2
    case SIndex(base, index) => |Show(base)| + |Show(index)| + 2
    case SCall(fn, args) => |Show(fn)| + |ShowArgs(args)| + 2
    case SPlus(e) => |Show(e)| + 1
    case SUn(_, e) => |Show(e)| + 1
    case SCast(names, stars, e) => |names| + stars + |Show(e)| + 2
    case SBin(_, l, r) => |Show(l)| + |Show(r)| + 1
  }

  lemma ShowLength(s: Syntax)
    ensures |Show(s)| == LengthOf(s)
  {
    hide ShowArgs, BinText, UnText;
  }

  /** No other way to write the same tree takes fewer tokens, so no parenthesis is superfluous. */
  lemma {:induction false} PrinterIsMinimal(s: Syntax, level: nat)
    requires Grammatical(s) && Binds(s) >= level
    ensures |Show(Printed(Tree(s), level))| <= |Show(s)|
    decreases s, 1
  {
    hide IsTypeName, Show, ShowArgs;
    ShowLength(s);
    ShowLength(Printed(Tree(s), level));
    match s
    case SNum(_) =>
    case SName(_) =>
    case SParen(inner) =>
      PrinterIsMinimal(inner, 0);
      WrapAddsTwo(Tree(inner), level);
    case SIndex(base, index) =>
      PrinterIsMinimal(base, 10);
      PrinterIsMinimal(index, 0);
    case SCall(fn, args) =>
      ShowLength(SName(NameOf(Tree(fn))));
      ArgsMinimal(args);
    case SPlus(e) => PrinterIsMinimal(e, level);
    case SUn(_, e) => PrinterIsMinimal(e, 9);
    case SCast(names, stars, e) => PrinterIsMinimal(e, 9);
    case SBin(op, l, r) =>
      PrinterIsMinimal(l, Prec(op));
      PrinterIsMinimal(r, Prec(op) + 1);
  }

  lemma WrapAddsTwo(e: Expr, level: nat)
    ensures |Show(Printed(e, level))| <= |Show(Printed(e, 0))| + 2
  {
  }

  lemma {:induction false} ArgsMinimal(args: seq<Syntax>)
    requires forall a :: a in args ==> Grammatical(a)
    ensures |ShowArgs(PrintedArgs(Trees(args)))| <= |ShowArgs(args)|
    decreases args, 0
  {
    hide Grammatical, Show, Tree;
    if args != [] {
      assert args[0] in args && forall a :: a in args[1..] ==> a in args;
      PrinterIsMinimal(args[0], 0);
      ArgsMinimal(args[1..]);
      assert Trees(args)[1..] == Trees(args[1..]);
      assert PrintedArgs(Trees(args))[1..] == PrintedArgs(Trees(args[1..]));
    }
  }
}
