/**
 Which token lists spell which syntax tree, said without reference to the parser: the tokens of a
 tree in order, and the shapes that precedence and associativity allow.
 */
module Spelling {
  import opened Values
  import opened Syntax
  import opened Grammar

  /**
   What a tree fixes about one of its tokens: the token itself, or only its kind, or that it is a
   literal of some value.
   */
  datatype Pattern = Exactly(token: Token) | OfKind(kind: Kind) | Literally(value: Value)

  predicate Fits(t: Token, p: Pattern) {
    match p
    case Exactly(token) => t == token
    case OfKind(kind) => t.kind == kind
    case Literally(value) => IsLiteralKind(t.kind) && LiteralValue(t) == value
  }

  ghost predicate FitsAt(toks: seq<Token>, cur: nat, ps: seq<Pattern>) {
    && cur + |ps| <= |toks|
    && forall i | 0 <= i < |ps| :: Fits(toks[cur + i], ps[i])
  }

  lemma FitsConcat(toks: seq<Token>, cur: nat, ps: seq<Pattern>, qs: seq<Pattern>)
    ensures FitsAt(toks, cur, ps + qs) <==> FitsAt(toks, cur, ps) && FitsAt(toks, cur + |ps|, qs)
  {
    if FitsAt(toks, cur, ps + qs) {
      forall i | 0 <= i < |ps| ensures Fits(toks[cur + i], ps[i]) {
        assert (ps + qs)[i] == ps[i];
      }
      forall i | 0 <= i < |qs| ensures Fits(toks[cur + |ps| + i], qs[i]) {
        assert (ps + qs)[|ps| + i] == qs[i];
        assert Fits(toks[cur + (|ps| + i)], (ps + qs)[|ps| + i]);
      }
    }
    if FitsAt(toks, cur, ps) && FitsAt(toks, cur + |ps|, qs) {
      forall i | 0 <= i < |ps + qs| ensures Fits(toks[cur + i], (ps + qs)[i]) {
        if i >= |ps| {
          assert Fits(toks[cur + |ps| + (i - |ps|)], qs[i - |ps|]);
        }
      }
    }
  }

  lemma FitsCons(toks: seq<Token>, cur: nat, p: Pattern, ps: seq<Pattern>)
    ensures FitsAt(toks, cur, [p] + ps) <==> cur < |toks| && Fits(toks[cur], p) && FitsAt(toks, cur + 1, ps)
  {
    FitsConcat(toks, cur, [p], ps);
    if FitsAt(toks, cur, [p]) {
      assert Fits(toks[cur + 0], [p][0]);
    }
  }

  // ----- Expressions -----

  function Spell(e: Expr): seq<Pattern> {
    match e
    case NoExpr => []
    case Literal(value) => [Literally(value)]
    case Variable(name) => [Exactly(name)]
    case Grouping(inner) => [OfKind(LParen)] + (Spell(inner) + [OfKind(RParen)])
    case Unary(op, right) => [Exactly(op)] + Spell(right)
    case Binary(left, op, right) => Spell(left) + ([Exactly(op)] + Spell(right))
    case Logical(left, op, right) => Spell(left) + ([Exactly(op)] + Spell(right))
    case Assign(name, source) => [Exactly(name)] + ([OfKind(Equal)] + Spell(source))
    case Call(callee, paren, args) => Spell(callee) + ([OfKind(LParen)] + (SpellArgs(args) + [Exactly(paren)]))
  }

  function SpellArgs(args: seq<Expr>): seq<Pattern> {
    if args == [] then []
    else if |args| == 1 then Spell(args[0])
    else Spell(args[0]) + ([OfKind(Comma)] + SpellArgs(args[1..]))
  }

  /**
   The trees that can stand where an expression of this level is expected: an operator of a level
   takes a left operand of its own level and a right operand of the next.
   */
  ghost predicate Canonical(level: nat, e: Expr)
    decreases e
  {
    match e
    case NoExpr => true
    case Literal(_) => true
    case Variable(name) => name.kind == Identifier
    case Grouping(inner) => Canonical(0, inner)
    case Call(callee, paren, args) =>
      && level <= 8 && Canonical(8, callee) && paren.kind == RParen
      && |args| <= MAX_ARGS && AllCanonical(args)
    case Unary(op, right) =>
      level <= 7 && (op.kind == Bang || op.kind == Minus) && !right.NoExpr? && Canonical(7, right)
    case Binary(left, op, right) =>
      var l := OpLevel(op.kind);
      level <= l && 3 <= l && Canonical(l, left) && Canonical(l + 1, right)
    case Logical(left, op, right) =>
      var l := OpLevel(op.kind);
      level <= l && 1 <= l <= 2 && Canonical(l, left) && Canonical(l + 1, right)
    case Assign(name, source) =>
      level == 0 && name.kind == Identifier && Canonical(0, source)
  }

  ghost predicate AllCanonical(es: seq<Expr>)
    decreases es
  {
    es == [] || (Canonical(0, es[0]) && AllCanonical(es[1..]))
  }

  // ----- Missing operands -----

  predicate StartsPrimary(k: Kind) {
    IsLiteralKind(k) || k == Identifier || k == LParen
  }

  /** An operand of this level can start with a token of this kind. */
  predicate StartsOperand(level: nat, k: Kind) {
    StartsPrimary(k) || (level <= 7 && (k == Bang || k == Minus))
  }

  /** The operand at the end of the tree is missing. */
  predicate EndsMissing(e: Expr) {
    match e
    case NoExpr => true
    case Unary(_, right) => EndsMissing(right)
    case Binary(_, _, right) => EndsMissing(right)
    case Logical(_, _, right) => EndsMissing(right)
    case Assign(_, source) => EndsMissing(source)
    case _ => false
  }

  /** A token of this kind after the tree is not taken for an operand missing at its end. */
  predicate Spares(level: nat, e: Expr, k: Kind) {
    EndsMissing(e) ==> !StartsOperand(level, k)
  }

  /**
   Nothing inside the tree is taken for a missing operand: the parenthesis of a call is none for its
   callee, its end none for a single argument, and a minus none for what is missing before it.
   */
  predicate Filled(e: Expr) {
    match e
    case NoExpr => true
    case Literal(_) => true
    case Variable(_) => true
    case Grouping(inner) => Filled(inner)
    case Unary(_, right) => Filled(right)
    case Binary(left, op, right) => Filled(left) && Filled(right) && (op.kind == Minus ==> !EndsMissing(left))
    case Logical(left, _, right) => Filled(left) && Filled(right)
    case Assign(_, source) => Filled(source)
    case Call(callee, _, args) => !callee.NoExpr? && args != [NoExpr] && Filled(callee) && AllFilled(args)
  }

  predicate AllFilled(es: seq<Expr>) {
    es == [] || (Filled(es[0]) && AllFilled(es[1..]))
  }

  /** No operand is missing. */
  ghost predicate NullFree(e: Expr) {
    match e
    case NoExpr => false
    case Literal(_) => true
    case Variable(_) => true
    case Grouping(inner) => NullFree(inner)
    case Unary(_, right) => NullFree(right)
    case Binary(left, _, right) => NullFree(left) && NullFree(right)
    case Logical(left, _, right) => NullFree(left) && NullFree(right)
    case Assign(_, source) => NullFree(source)
    case Call(callee, _, args) => NullFree(callee) && AllNullFree(args)
  }

  ghost predicate AllNullFree(es: seq<Expr>) {
    es == [] || (NullFree(es[0]) && AllNullFree(es[1..]))
  }

  /** A token of this kind cannot continue an expression of this level. */
  predicate Stops(level: nat, k: Kind) {
    && (level <= 8 ==> k != LParen)
    && OpLevel(k) < (if level == 0 then 1 else level)
    && (level == 0 ==> k != Equal)
  }

  /** The parse function of each level. */
  function ParseAt(level: nat, toks: seq<Token>, cur: nat): (r: Result<Expr>)
    requires At(toks, cur) && level <= 9
    ensures Within(toks, cur, r)
  {
    if level == 0 then ParseExpr(toks, cur)
    else if level <= 7 then ParseBinary(level, toks, cur)
    else if level == 8 then ParseCall(toks, cur)
    else ParsePrimary(toks, cur)
  }
}
