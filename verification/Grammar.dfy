/**
 * The productions of sections 6.5.1 to 6.5.12 of ISO/IEC 9899:2011 for the subset's operators, written out one by one,
 * and the parser against them: it accepts what they derive and nothing else.
 */
module Grammar {
  import opened Prelude
  import opened Ast
  import opened Parser
  import opened ParserCorrect
  import opened ParserSound

  // ----- tokens -----

  /** The words that make a parenthesis a cast. */
  predicate TypeWord(name: string) {
    name in {"void", "int", "unsigned", "signed", "long", "char", "short", "uint64_t", "int64_t", "u64", "uint32_t"}
  }

  /** The token ends an expression: it is neither an opening bracket nor an operator between operands. */
  predicate EndsExpression(t: Token) {
    t.Punct? ==>
      t.text !in {"(", "[", "|", "^", "&", "==", "!=", "<", ">=", "<=", ">", "<<", ">>", "+", "-", "*", "/", "%"}
  }

  // ----- productions -----

  /** 6.5.1: a constant, an identifier, or an expression in parentheses, not to be mistaken for a cast. */
  predicate Primary(s: Syntax)
    decreases s, 0
  {
    match s
    case SNum(_) => true
    case SName(_) => true
    case SParen(inner) => InclusiveOr(inner) && !(Show(inner)[0].Word? && TypeWord(Show(inner)[0].name))
    case _ => false
  }

  /** 6.5.2: subscripts and calls; only a name is called. */
  predicate Postfix(s: Syntax)
    decreases s, 1
  {
    || Primary(s)
    || (s.SIndex? && Postfix(s.base) && InclusiveOr(s.index))
    || (s.SCall? && Postfix(s.fn) && Tree(s.fn).Id? && forall a :: a in s.args ==> InclusiveOr(a))
  }

  /** 6.5.3: a unary operator and a cast expression. */
  predicate Unary(s: Syntax)
    decreases s, 2
  {
    Postfix(s) || ((s.SPlus? || s.SUn?) && CastExpression(s.e))
  }

  /** 6.5.4: a type in parentheses and a cast expression. */
  predicate CastExpression(s: Syntax)
    decreases s, 3
  {
    || Unary(s)
    || (s.SCast? && s.names != [] && (forall n :: n in s.names ==> TypeWord(n)) && CastExpression(s.e))
  }

  /** 6.5.5 */
  predicate Multiplicative(s: Syntax)
    decreases s, 4
  {
    || CastExpression(s)
    || (s.SBin? && s.op in {Times, Divide, Modulo} && Multiplicative(s.l) && CastExpression(s.r))
  }

  /** 6.5.6 */
  predicate Additive(s: Syntax)
    decreases s, 5
  {
    Multiplicative(s) || (s.SBin? && s.op in {Plus, Minus} && Additive(s.l) && Multiplicative(s.r))
  }

  /** 6.5.7 */
  predicate Shift(s: Syntax)
    decreases s, 6
  {
    Additive(s) || (s.SBin? && s.op in {ShiftL, ShiftR} && Shift(s.l) && Additive(s.r))
  }

  /** 6.5.8 */
  predicate Relational(s: Syntax)
    decreases s, 7
  {
    || Shift(s)
    || (s.SBin? && s.op in {Less, Greater, LessEqual, GreaterEqual} && Relational(s.l) && Shift(s.r))
  }

  /** 6.5.9 */
  predicate Equality(s: Syntax)
    decreases s, 8
  {
    Relational(s) || (s.SBin? && s.op in {Equal, NotEqual} && Equality(s.l) && Relational(s.r))
  }

  /** 6.5.10 */
  predicate And(s: Syntax)
    decreases s, 9
  {
    Equality(s) || (s.SBin? && s.op == BitAnd && And(s.l) && Equality(s.r))
  }

  /** 6.5.11 */
  predicate ExclusiveOr(s: Syntax)
    decreases s, 10
  {
    And(s) || (s.SBin? && s.op == BitXor && ExclusiveOr(s.l) && And(s.r))
  }

  /** 6.5.12: every expression of the subset. */
  predicate InclusiveOr(s: Syntax)
    decreases s, 11
  {
    ExclusiveOr(s) || (s.SBin? && s.op == BitOr && InclusiveOr(s.l) && ExclusiveOr(s.r))
  }

  // ----- precedence climbing knows the same grammar -----

  /** The productions, by how tightly what they derive binds. */
  predicate AtLevel(s: Syntax, level: nat) {
    match level
    case 10 => Postfix(s)
    case 9 => CastExpression(s)
    case 8 => Multiplicative(s)
    case 7 => Additive(s)
    case 6 => Shift(s)
    case 5 => Relational(s)
    case 4 => Equality(s)
    case 3 => And(s)
    case 2 => ExclusiveOr(s)
    case _ => InclusiveOr(s)
  }

  lemma TypeWords(name: string)
    ensures TypeWord(name) <==> IsTypeName(name)
  {
  }

  /** Each production but the last derives what the next one does, and one kind of operator. */
  lemma NextProduction(s: Syntax, level: nat)
    requires 1 <= level <= 8
    ensures AtLevel(s, level) <==>
              || AtLevel(s, level + 1)
              || (s.SBin? && Prec(s.op) == level && AtLevel(s.l, level) && AtLevel(s.r, level + 1))
  {
  }

  lemma {:induction false} BinaryDerives(s: Syntax, level: nat)
    requires s.SBin? && 1 <= level <= 9
    ensures AtLevel(s, level) <==> level <= Prec(s.op) && AtLevel(s.l, Prec(s.op)) && AtLevel(s.r, Prec(s.op) + 1)
    decreases 9 - level
  {
    hide AtLevel;
    if level == 9 {
      NoCastBinary(s);
    } else {
      NextProduction(s, level);
      BinaryDerives(s, level + 1);
    }
  }

  lemma NoCastBinary(s: Syntax)
    requires s.SBin?
    ensures !AtLevel(s, 9) && !AtLevel(s, 10)
  {
    assert !Postfix(s);
    assert !Unary(s);
  }

  lemma {:induction false} PlainDerives(s: Syntax, level: nat)
    requires !s.SBin? && 1 <= level <= 9
    ensures AtLevel(s, level) <==> AtLevel(s, 9)
    decreases 9 - level
  {
    hide AtLevel;
    if level < 9 {
      NextProduction(s, level);
      PlainDerives(s, level + 1);
    }
  }

  /** A production derives what is grammatical and binds at least as tightly. */
  lemma {:induction false} LevelDerives(s: Syntax, level: nat)
    requires 1 <= level <= 10
    ensures AtLevel(s, level) <==> Grammatical(s) && Binds(s) >= level
    decreases s, 1
  {
    hide AtLevel, Grammatical;
    if s.SBin? {
      if level == 10 { NoCastBinary(s); } else { BinaryDerives(s, level); }
      LevelDerives(s.l, Prec(s.op));
      LevelDerives(s.r, Prec(s.op) + 1);
      BinaryRule(s);
    } else {
      if level < 10 { PlainDerives(s, level); }
      if s.SPlus? || s.SUn? || s.SCast? { PrefixDerives(s); } else { PostfixDerives(s); }
    }
  }

  lemma BinaryRule(s: Syntax)
    requires s.SBin?
    ensures Grammatical(s) <==>
              Grammatical(s.l) && Grammatical(s.r) && Binds(s.l) >= Prec(s.op) && Binds(s.r) >= Prec(s.op) + 1
  {
  }

  lemma {:induction false} PrefixDerives(s: Syntax)
    requires s.SPlus? || s.SUn? || s.SCast?
    ensures AtLevel(s, 9) <==> Grammatical(s)
    ensures !AtLevel(s, 10)
    decreases s, 0
  {
    hide TypeWord, IsTypeName;
    LevelDerives(s.e, 9);
    assert AtLevel(s.e, 9) <==> CastExpression(s.e);
    assert AtLevel(s, 9) <==> CastExpression(s);
    assert !Postfix(s);
    if s.SCast? {
      forall n ensures TypeWord(n) <==> IsTypeName(n) { TypeWords(n); }
      assert !Unary(s);
    } else {
      assert Unary(s) <==> CastExpression(s.e);
    }
  }

  lemma {:induction false} PostfixDerives(s: Syntax)
    requires !s.SBin? && !s.SPlus? && !s.SUn? && !s.SCast?
    ensures AtLevel(s, 9) <==> Grammatical(s)
    ensures AtLevel(s, 10) <==> Grammatical(s)
    decreases s, 0
  {
    hide TypeWord, IsTypeName, Show;
    assert AtLevel(s, 9) <==> Unary(s);
    assert Unary(s) <==> Postfix(s);
    match s
    case SParen(inner) =>
      LevelDerives(inner, 1);
      if Show(inner)[0].Word? { TypeWords(Show(inner)[0].name); }
    case SIndex(base, index) =>
      LevelDerives(base, 10);
      LevelDerives(index, 1);
    case SCall(fn, args) =>
      LevelDerives(fn, 10);
      forall a | a in args ensures InclusiveOr(a) <==> Grammatical(a) { LevelDerives(a, 1); }
    case _ =>
  }

  lemma EndTokens(t: Token)
    ensures EndsExpression(t) <==> NoSuffix(t) && BinOpOf(t).None?
  {
  }

  /**
   * Up to a token that ends an expression the parser succeeds with a tree exactly when the tokens spell an expression
   * of the grammar for that tree.
   */
  lemma ParsesTheStandardGrammar(toks: seq<Token>, pos: nat, end: nat, e: Expr)
    requires Lexed(toks) && pos <= end < |toks| && EndsExpression(toks[end])
    ensures ParseBin(toks, pos, 0) == Ok((e, end)) <==>
              exists s :: InclusiveOr(s) && Tree(s) == e && Spells(toks, pos, end, s)
  {
    hide ParseBin, Grammatical, Tree, Spells, Show, EndsExpression, BinOpOf, InclusiveOr, AtLevel;
    EndTokens(toks[end]);
    ParsesExactlyTheGrammar(toks, pos, end, e);
    forall s ensures InclusiveOr(s) <==> Grammatical(s) { LevelDerives(s, 1); LowestIs(s); }
  }

  lemma LowestIs(s: Syntax)
    ensures AtLevel(s, 1) <==> InclusiveOr(s)
  {
  }
}
