/**
 Whatever the parser returns for an expression is canonical and is spelled by exactly the tokens
 between the two cursors, the token it stops at cannot continue it, and nothing stands where an
 operand is missing.  With the reading back of ParserRoundTrip.dfy this says exactly which
 expressions the parser returns.
 */
module ParserSoundness {
  import opened Values
  import opened Syntax
  import opened Grammar
  import opened Spelling
  import opened ParserRoundTrip

  /** The tokens from `cur` up to `n` spell `e`, a tree of this level, and the next cannot continue it. */
  ghost predicate SpelledUpTo(level: nat, toks: seq<Token>, cur: nat, e: Expr, n: nat) {
    && Canonical(level, e)
    && FitsAt(toks, cur, Spell(e))
    && n == cur + |Spell(e)| < |toks|
    && Stops(level, toks[n].kind)
  }

  /** And wherever an operand is missing in `e`, none stands there or follows. */
  ghost predicate Sound(level: nat, toks: seq<Token>, cur: nat, e: Expr, n: nat) {
    SpelledUpTo(level, toks, cur, e, n) && Filled(e) && Spares(level, e, toks[n].kind)
  }

  lemma {:induction false} ParsedIsSound(level: nat, toks: seq<Token>, cur: nat)
    requires level <= 8 && At(toks, cur) && ParseAt(level, toks, cur).Ok?
    ensures var r := ParseAt(level, toks, cur); Sound(level, toks, cur, r.value, r.next)
    decreases |toks| - cur, 2 * (10 - level) + 1
  {
    hide Sound, ParseExpr, ParseUnary, ParseCall;
    if level == 0 {
      ExprIsSound(toks, cur);
    } else if level <= 6 {
      BinaryIsSound(level, toks, cur);
    } else if level == 7 {
      UnaryIsSound(toks, cur);
    } else {
      CallIsSound(toks, cur);
    }
  }

  lemma {:induction false} ExprIsSound(toks: seq<Token>, cur: nat)
    requires At(toks, cur) && ParseExpr(toks, cur).Ok?
    ensures var r := ParseExpr(toks, cur); Sound(0, toks, cur, r.value, r.next)
    decreases |toks| - cur, 20
  {
    hide ParseExpr, ParseBinary, FitsAt, Canonical, Spell, Filled, Spares, Terminated;
    ExprParts(toks, cur);
    var left := ParseBinary(1, toks, cur);
    assert left == ParseAt(1, toks, cur);
    ParsedIsSound(1, toks, cur);
    if toks[left.next].kind == Equal {
      var source := ParseExpr(toks, left.next + 1);
      ExprIsSound(toks, left.next + 1);
      AssignIsSpelled(toks, cur, left.value.name, source.value);
      AssignIsFilled(left.value.name, source.value, toks[source.next].kind);
    } else {
      CanonicalBelow(0, left.value, toks[left.next].kind);
    }
  }

  lemma ExprParts(toks: seq<Token>, cur: nat)
    requires At(toks, cur) && ParseExpr(toks, cur).Ok?
    ensures var left := ParseBinary(1, toks, cur);
            left.Ok? && if toks[left.next].kind != Equal then ParseExpr(toks, cur) == left
                        else
                          var source := ParseExpr(toks, left.next + 1);
                          && source.Ok? && left.value.Variable?
                          && ParseExpr(toks, cur) == Ok(Assign(left.value.name, source.value), source.next)
  {
    hide ParseBinary;
  }

  lemma AssignIsFilled(name: Token, source: Expr, k: Kind)
    requires Filled(source) && Spares(0, source, k)
    ensures Filled(Assign(name, source)) && Spares(0, Assign(name, source), k)
  {
  }

  lemma AssignIsSpelled(toks: seq<Token>, cur: nat, name: Token, source: Expr)
    requires Canonical(1, Variable(name)) && FitsAt(toks, cur, Spell(Variable(name)))
    requires var i := cur + |Spell(Variable(name))|;
             Canonical(0, source) && i < |toks| && toks[i].kind == Equal && FitsAt(toks, i + 1, Spell(source))
    ensures var e := Assign(name, source);
            && Canonical(0, e) && FitsAt(toks, cur, Spell(e))
            && |Spell(e)| == |Spell(Variable(name))| + 1 + |Spell(source)|
  {
    hide FitsAt;
    FitsCons(toks, cur + 1, OfKind(Equal), Spell(source));
    FitsConcat(toks, cur, [Exactly(name)], [OfKind(Equal)] + Spell(source));
  }

  lemma {:induction false} BinaryIsSound(level: nat, toks: seq<Token>, cur: nat)
    requires 1 <= level <= 6 && At(toks, cur) && ParseBinary(level, toks, cur).Ok?
    ensures var r := ParseBinary(level, toks, cur); Sound(level, toks, cur, r.value, r.next)
    decreases |toks| - cur, 2 * (10 - level)
  {
    hide Canonical, FitsAt, Spell, Filled, Spares, Terminated, ParseExpr, ParseRest, ParseUnary;
    var left := ParseBinary(level + 1, toks, cur);
    assert left == ParseAt(level + 1, toks, cur);
    ParsedIsSound(level + 1, toks, cur);
    CanonicalBelow(level, left.value, toks[left.next].kind);
    RestIsSound(level, toks, cur, left.value, left.next);
  }

  lemma CanonicalBelow(level: nat, e: Expr, k: Kind)
    requires level <= 6 && Canonical(level + 1, e) && Spares(level + 1, e, k)
    ensures Canonical(level, e) && Spares(level, e, k)
  {
    hide EndsMissing, StartsPrimary;
  }

  lemma {:induction false} RestIsSound(level: nat, toks: seq<Token>, start: nat, left: Expr, cur: nat)
    requires 1 <= level <= 6 && At(toks, cur) && ParseRest(level, toks, left, cur).Ok?
    requires Canonical(level, left) && FitsAt(toks, start, Spell(left)) && cur == start + |Spell(left)|
    requires Stops(level + 1, toks[cur].kind) && Filled(left) && Spares(level, left, toks[cur].kind)
    ensures var r := ParseRest(level, toks, left, cur); Sound(level, toks, start, r.value, r.next)
    decreases |toks| - cur, 0
  {
    hide ParseBinary, FitsAt, Canonical, Spell, Filled, Spares, Terminated, Node;
    var op := toks[cur];
    if OpLevel(op.kind) == level {
      var right := ParseBinary(level + 1, toks, cur + 1);
      assert right == ParseAt(level + 1, toks, cur + 1);
      ParsedIsSound(level + 1, toks, cur + 1);
      NodeIsSpelled(level, toks, start, left, cur, right.value);
      NodeIsFilled(level, left, op, right.value, toks[right.next].kind);
      RestIsSound(level, toks, start, Node(level, left, op, right.value), right.next);
    }
  }

  lemma NodeIsFilled(level: nat, left: Expr, op: Token, right: Expr, k: Kind)
    requires 1 <= level <= 6 && Filled(left) && Spares(level, left, op.kind)
    requires Filled(right) && Spares(level + 1, right, k)
    ensures var e := Node(level, left, op, right); Filled(e) && Spares(level, e, k)
  {
    hide StartsPrimary;
  }

  lemma NodeShape(level: nat, left: Expr, op: Token, right: Expr)
    requires 1 <= level <= 6 && OpLevel(op.kind) == level
    ensures var e := Node(level, left, op, right);
            && Spell(e) == Spell(left) + ([Exactly(op)] + Spell(right))
            && (Canonical(level, left) && Canonical(level + 1, right) ==> Canonical(level, e))
  {
    hide Spell, Canonical;
    NodeSpells(level, left, op, right);
    if Canonical(level, left) && Canonical(level + 1, right) { NodeIsCanonical(level, left, op, right); }
  }

  lemma NodeSpells(level: nat, left: Expr, op: Token, right: Expr)
    requires 1 <= level <= 6
    ensures Spell(Node(level, left, op, right)) == Spell(left) + ([Exactly(op)] + Spell(right))
  {
  }

  lemma NodeIsCanonical(level: nat, left: Expr, op: Token, right: Expr)
    requires 1 <= level <= 6 && OpLevel(op.kind) == level
    requires Canonical(level, left) && Canonical(level + 1, right)
    ensures Canonical(level, Node(level, left, op, right))
  {
  }

  lemma NodeIsSpelled(level: nat, toks: seq<Token>, start: nat, left: Expr, cur: nat, right: Expr)
    requires 1 <= level <= 6 && cur < |toks| && OpLevel(toks[cur].kind) == level
    requires Canonical(level, left) && FitsAt(toks, start, Spell(left)) && cur == start + |Spell(left)|
    requires Canonical(level + 1, right) && FitsAt(toks, cur + 1, Spell(right))
    ensures var e := Node(level, left, toks[cur], right);
            Canonical(level, e) && FitsAt(toks, start, Spell(e)) && |Spell(e)| == |Spell(left)| + 1 + |Spell(right)|
  {
    hide FitsAt;
    var op := toks[cur];
    FitsCons(toks, cur, Exactly(op), Spell(right));
    FitsConcat(toks, start, Spell(left), [Exactly(op)] + Spell(right));
    hide Spell, Canonical;
    NodeShape(level, left, op, right);
  }

  lemma {:induction false} UnaryIsSound(toks: seq<Token>, cur: nat)
    requires At(toks, cur) && ParseUnary(toks, cur).Ok?
    ensures var r := ParseUnary(toks, cur); Sound(7, toks, cur, r.value, r.next)
    decreases |toks| - cur, 6
  {
    hide ParseCall, Canonical, FitsAt, Spell, Filled, Spares, Terminated;
    if toks[cur].kind == Bang || toks[cur].kind == Minus {
      UnaryIsSound(toks, cur + 1);
      var right := ParseUnary(toks, cur + 1);
      UnaryIsSpelled(toks, cur, right.value, right.next);
    } else {
      CallIsSound(toks, cur);
      var e := ParseCall(toks, cur);
      OperandIsSound(toks, cur, e.value, e.next);
    }
  }

  lemma UnaryIsSpelled(toks: seq<Token>, cur: nat, right: Expr, n: nat)
    requires cur < |toks| && (toks[cur].kind == Bang || toks[cur].kind == Minus) && !right.NoExpr?
    requires Sound(7, toks, cur + 1, right, n)
    ensures Sound(7, toks, cur, Unary(toks[cur], right), n)
  {
    hide FitsAt, StartsOperand;
    FitsCons(toks, cur, Exactly(toks[cur]), Spell(right));
  }

  /** Where no prefix operator stands, none is missing. */
  lemma OperandIsSound(toks: seq<Token>, cur: nat, e: Expr, n: nat)
    requires cur < |toks| && toks[cur].kind != Bang && toks[cur].kind != Minus && Sound(8, toks, cur, e, n)
    ensures Sound(7, toks, cur, e, n)
  {
    hide FitsAt, StartsPrimary;
    if !e.NoExpr? { NotMissing(e); }
  }

  lemma NotMissing(e: Expr)
    requires Canonical(8, e) && !e.NoExpr?
    ensures !EndsMissing(e)
  {
  }

  lemma {:induction false} CallIsSound(toks: seq<Token>, cur: nat)
    requires At(toks, cur) && ParseCall(toks, cur).Ok?
    ensures var r := ParseCall(toks, cur); Sound(8, toks, cur, r.value, r.next)
    decreases |toks| - cur, 4
  {
    hide ParseCalls, ParsePrimary, FitsAt, Canonical, Spell, Filled, Terminated;
    PrimaryIsSound(toks, cur);
    var callee := ParsePrimary(toks, cur);
    PrimaryBelow(callee.value);
    CallsAreSound(toks, cur, callee.value, callee.next);
  }

  lemma PrimaryBelow(e: Expr)
    requires Canonical(9, e)
    ensures Canonical(8, e)
  {
  }

  lemma {:induction false} CallsAreSound(toks: seq<Token>, start: nat, callee: Expr, cur: nat)
    requires At(toks, cur) && ParseCalls(toks, callee, cur).Ok?
    requires Canonical(8, callee) && FitsAt(toks, start, Spell(callee)) && cur == start + |Spell(callee)|
    requires Filled(callee) && Spares(8, callee, toks[cur].kind)
    ensures var r := ParseCalls(toks, callee, cur); Sound(8, toks, start, r.value, r.next)
    decreases |toks| - cur, 0
  {
    hide FitsAt, Spell, SpellArgs, Canonical, AllCanonical, Filled, AllFilled, Spares, Terminated;
    hide ParseCalls, ParseArgs;
    CallsParts(toks, callee, cur);
    if toks[cur].kind == LParen {
      var args, i := ArgumentsAreSound(toks, cur + 1);
      var call := Call(callee, toks[i], args);
      CallIsSpelled(toks, start, callee, cur, args, toks[i]);
      CallIsFilled(callee, toks[i], args, toks[i + 1].kind);
      CallsAreSound(toks, start, call, i + 1);
    }
  }

  lemma CallIsFilled(callee: Expr, paren: Token, args: seq<Expr>, k: Kind)
    requires Filled(callee) && Spares(8, callee, LParen) && AllFilled(args) && args != [NoExpr]
    ensures Filled(Call(callee, paren, args)) && Spares(8, Call(callee, paren, args), k)
  {
  }

  lemma CallsParts(toks: seq<Token>, callee: Expr, cur: nat)
    requires At(toks, cur) && ParseCalls(toks, callee, cur).Ok?
    ensures if toks[cur].kind != LParen then ParseCalls(toks, callee, cur) == Ok(callee, cur)
            else
              && cur + 1 < |toks|
              && var args := if toks[cur + 1].kind == RParen then Ok([], cur + 1) else ParseArgs(toks, [], cur + 1);
                 && args.Ok? && toks[args.next].kind == RParen && args.next + 1 < |toks|
                 && ParseCalls(toks, callee, cur) ==
                    ParseCalls(toks, Call(callee, toks[args.next], args.value), args.next + 1)
  {
    hide ParseArgs;
  }

  lemma CallIsSpelled(toks: seq<Token>, start: nat, callee: Expr, cur: nat, args: seq<Expr>, paren: Token)
    requires FitsAt(toks, start, Spell(callee)) && cur == start + |Spell(callee)| < |toks|
    requires toks[cur].kind == LParen && FitsAt(toks, cur + 1, SpellArgs(args))
    requires Canonical(8, callee) && AllCanonical(args) && |args| <= MAX_ARGS && paren.kind == RParen
    requires cur + 1 + |SpellArgs(args)| < |toks| && toks[cur + 1 + |SpellArgs(args)|] == paren
    ensures Canonical(8, Call(callee, paren, args)) && FitsAt(toks, start, Spell(Call(callee, paren, args)))
    ensures cur + 2 + |SpellArgs(args)| == start + |Spell(Call(callee, paren, args))|
  {
    hide FitsAt;
    var n := cur + 1 + |SpellArgs(args)|;
    FitsCons(toks, n, Exactly(paren), []);
    NothingFits(toks, n + 1);
    assert [Exactly(paren)] + [] == [Exactly(paren)];
    FitsConcat(toks, cur + 1, SpellArgs(args), [Exactly(paren)]);
    FitsCons(toks, cur, OfKind(LParen), SpellArgs(args) + [Exactly(paren)]);
    FitsConcat(toks, start, Spell(callee), [OfKind(LParen)] + (SpellArgs(args) + [Exactly(paren)]));
  }

  lemma {:induction false} ArgumentsAreSound(toks: seq<Token>, cur: nat) returns (args: seq<Expr>, n: nat)
    requires At(toks, cur)
    requires (if toks[cur].kind == RParen then Ok([], cur) else ParseArgs(toks, [], cur)).Ok?
    ensures (if toks[cur].kind == RParen then Ok([], cur) else ParseArgs(toks, [], cur)) == Ok(args, n)
    ensures |args| <= MAX_ARGS && AllCanonical(args) && AllFilled(args)
    ensures n < |toks| && toks[n].kind == RParen ==> args != [NoExpr]
    ensures FitsAt(toks, cur, SpellArgs(args)) && n == cur + |SpellArgs(args)| < |toks|
    decreases |toks| - cur, 31
  {
    hide ParseArgs;
    args, n := [], cur;
    if toks[cur].kind != RParen {
      args, n := ArgsAreSound(toks, [], cur);
      assert [] + args == args;
    }
  }

  lemma {:induction false} ArgsAreSound(toks: seq<Token>, done: seq<Expr>, cur: nat) returns (args: seq<Expr>, n: nat)
    requires At(toks, cur) && ParseArgs(toks, done, cur).Ok?
    ensures ParseArgs(toks, done, cur) == Ok(done + args, n)
    ensures args != [] && |done| + |args| <= MAX_ARGS && AllCanonical(args) && AllFilled(args)
    ensures FitsAt(toks, cur, SpellArgs(args)) && n == cur + |SpellArgs(args)| < |toks|
    decreases |toks| - cur, 30
  {
    hide ParseExpr, FitsAt, Canonical, Spell, Filled, Spares, Terminated;
    ExprIsSound(toks, cur);
    var arg := ParseExpr(toks, cur);
    if toks[arg.next].kind == Comma {
      var rest;
      rest, n := ArgsAreSound(toks, done + [arg.value], arg.next + 1);
      args := [arg.value] + rest;
      assert args[1..] == rest && done + [arg.value] + rest == done + args;
      FitsCons(toks, arg.next, OfKind(Comma), SpellArgs(rest));
      FitsConcat(toks, cur, Spell(arg.value), [OfKind(Comma)] + SpellArgs(rest));
    } else {
      args, n := [arg.value], arg.next;
    }
  }

  lemma {:induction false} PrimaryIsSound(toks: seq<Token>, cur: nat)
    requires At(toks, cur) && ParsePrimary(toks, cur).Ok?
    ensures var r := ParsePrimary(toks, cur);
            && Canonical(9, r.value) && FitsAt(toks, cur, Spell(r.value)) && r.next == cur + |Spell(r.value)|
            && Filled(r.value) && Spares(9, r.value, toks[r.next].kind)
    decreases |toks| - cur, 2
  {
    hide ParseExpr, FitsAt, Spell, Canonical, Terminated;
    if toks[cur].kind == LParen {
      ExprIsSound(toks, cur + 1);
      var inner := ParseExpr(toks, cur + 1);
      GroupIsSpelled(toks, cur, inner.value);
    } else {
      LeafIsSound(toks, cur);
    }
  }

  lemma GroupIsSpelled(toks: seq<Token>, cur: nat, inner: Expr)
    requires cur < |toks| && toks[cur].kind == LParen && FitsAt(toks, cur + 1, Spell(inner)) && Canonical(0, inner)
    requires var n := cur + 1 + |Spell(inner)|; n < |toks| && toks[n].kind == RParen
    ensures var e := Grouping(inner);
            Canonical(9, e) && FitsAt(toks, cur, Spell(e)) && |Spell(e)| == |Spell(inner)| + 2
  {
    hide FitsAt;
    FitsCons(toks, cur + 1 + |Spell(inner)|, OfKind(RParen), []);
    NothingFits(toks, cur + 2 + |Spell(inner)|);
    assert [OfKind(RParen)] + [] == [OfKind(RParen)];
    FitsConcat(toks, cur + 1, Spell(inner), [OfKind(RParen)]);
    FitsCons(toks, cur, OfKind(LParen), Spell(inner) + [OfKind(RParen)]);
  }

  lemma NothingFits(toks: seq<Token>, cur: nat)
    ensures FitsAt(toks, cur, []) <==> cur <= |toks|
  {
  }

  lemma LeafIsSound(toks: seq<Token>, cur: nat)
    requires At(toks, cur) && toks[cur].kind != LParen
    ensures var r := ParsePrimary(toks, cur);
            && r.Ok? && Canonical(9, r.value) && FitsAt(toks, cur, Spell(r.value)) && r.next == cur + |Spell(r.value)|
            && Filled(r.value) && Spares(9, r.value, toks[r.next].kind)
  {
    hide ParseExpr;
  }

  /**
   The parser's language exactly: an expression is parsed from `cur` up to `n` if and only if it is
   canonical, those tokens spell it, the next cannot continue it, and none of them stands where an
   operand is missing.
   */
  lemma ParsesExactlyTheSpelled(toks: seq<Token>, cur: nat, e: Expr, n: nat)
    requires At(toks, cur)
    ensures ParseExpr(toks, cur) == Ok(e, n) <==>
            && SpelledUpTo(0, toks, cur, e, n)
            && Filled(e) && (EndsMissing(e) ==> !StartsOperand(0, toks[n].kind))
  {
    hide ParseExpr, Canonical, Filled, Spell, FitsAt, EndsMissing, StartsOperand;
    if ParseExpr(toks, cur) == Ok(e, n) {
      ExprIsSound(toks, cur);
    }
    if Sound(0, toks, cur, e, n) {
      ReadBackExpr(e, toks, cur);
    }
  }

  /** Where no operand is missing, nothing can stand in its place. */
  lemma {:induction false} NullFreeIsFilled(e: Expr)
    requires NullFree(e)
    ensures Filled(e) && !EndsMissing(e)
    decreases e, 0
  {
    match e
    case Grouping(inner) => NullFreeIsFilled(inner);
    case Unary(_, right) => NullFreeIsFilled(right);
    case Binary(left, _, right) =>
      NullFreeIsFilled(left);
      NullFreeIsFilled(right);
    case Logical(left, _, right) =>
      NullFreeIsFilled(left);
      NullFreeIsFilled(right);
    case Assign(_, source) => NullFreeIsFilled(source);
    case Call(callee, _, args) =>
      NullFreeIsFilled(callee);
      NullFreeAreFilled(args);
    case _ =>
  }

  lemma {:induction false} NullFreeAreFilled(es: seq<Expr>)
    requires AllNullFree(es)
    ensures AllFilled(es) && es != [NoExpr]
    decreases es, 0
  {
    if es != [] {
      NullFreeIsFilled(es[0]);
      NullFreeAreFilled(es[1..]);
    }
  }

  /** So without missing operands it is enough that the tree is canonical and spelled. */
  lemma NullFreeParsesExactlyTheSpelled(toks: seq<Token>, cur: nat, e: Expr, n: nat)
    requires At(toks, cur) && NullFree(e)
    ensures ParseExpr(toks, cur) == Ok(e, n) <==> SpelledUpTo(0, toks, cur, e, n)
  {
    hide ParseExpr, SpelledUpTo, NullFree;
    NullFreeIsFilled(e);
    ParsesExactlyTheSpelled(toks, cur, e, n);
  }

  /** The grammar is unambiguous: from one place, tokens spell at most one such expression. */
  lemma SpelledAtMostOnce(toks: seq<Token>, cur: nat, e: Expr, n: nat, f: Expr, m: nat)
    requires At(toks, cur)
    requires Sound(0, toks, cur, e, n) && Sound(0, toks, cur, f, m)
    ensures e == f && n == m
  {
    hide ParseExpr, SpelledUpTo, Filled;
    ParsesExactlyTheSpelled(toks, cur, e, n);
    ParsesExactlyTheSpelled(toks, cur, f, m);
  }

  /**
   That last condition is needed: `- x` spells a negation, which is what is parsed, and also a
   subtraction whose left operand is missing, but a minus stands there.
   */
  lemma MissingOperandsAreAmbiguous(minus: Token, x: Token, end: Token)
    requires minus.kind == Minus && x.kind == Identifier && end.kind == Eof
    ensures var toks := [minus, x, end];
            var negation, subtraction := Unary(minus, Variable(x)), Binary(NoExpr, minus, Variable(x));
            && At(toks, 0) && SpelledUpTo(0, toks, 0, negation, 2) && SpelledUpTo(0, toks, 0, subtraction, 2)
            && ParseExpr(toks, 0) == Ok(negation, 2) && !Filled(subtraction)
  {
    hide ParseExpr, Spell, Canonical, Filled, EndsMissing, FitsAt;
    var toks := [minus, x, end];
    TwoReadings(minus, x);
    TwoFit(toks, minus, x);
    ParsesExactlyTheSpelled(toks, 0, Unary(minus, Variable(x)), 2);
  }

  lemma TwoReadings(minus: Token, x: Token)
    requires minus.kind == Minus && x.kind == Identifier
    ensures var negation, subtraction := Unary(minus, Variable(x)), Binary(NoExpr, minus, Variable(x));
            && Spell(negation) == Spell(subtraction) == [Exactly(minus), Exactly(x)]
            && Canonical(0, negation) && Canonical(0, subtraction)
            && Filled(negation) && !EndsMissing(negation) && !Filled(subtraction)
  {
    assert Spell(NoExpr) == [] && Spell(Variable(x)) == [Exactly(x)];
    assert Canonical(7, Variable(x)) && Canonical(6, Variable(x)) && Canonical(5, NoExpr);
  }

  lemma TwoFit(toks: seq<Token>, s: Token, t: Token)
    requires |toks| > 1 && toks[0] == s && toks[1] == t
    ensures FitsAt(toks, 0, [Exactly(s), Exactly(t)])
  {
  }

  // ----- Literals, limits and failures -----

  /** What a literal token is read as; the word undefined is read as its own text. */
  lemma LiteralsAreRead(toks: seq<Token>, cur: nat)
    requires At(toks, cur) && cur + 1 < |toks|
    ensures var k, r := toks[cur].kind, ParsePrimary(toks, cur);
            && (k == True ==> r == Ok(Literal(Boolean(true)), cur + 1))
            && (k == False ==> r == Ok(Literal(Boolean(false)), cur + 1))
            && (k == NullTok ==> r == Ok(Literal(Null), cur + 1))
            && (k == NumericTok || k == StringTok || k == UndefinedTok ==> r == Ok(Literal(toks[cur].literal), cur + 1))
            && (k == Identifier ==> r == Ok(Variable(toks[cur]), cur + 1))
  {
    hide ParseExpr;
  }

  /** A call has at most 255 arguments. */
  lemma ArgumentLimit(toks: seq<Token>, args: seq<Expr>, cur: nat)
    requires At(toks, cur)
    ensures |args| >= 255 ==> ParseArgs(toks, args, cur) == Err(TooManyArguments)
    ensures var r := ParseExpr(toks, cur);
            |args| < 255 && r.Ok? && toks[r.next].kind != Comma ==>
              ParseArgs(toks, args, cur) == Ok(args + [r.value], r.next)
    ensures var r := ParseExpr(toks, cur);
            |args| < 255 && r.Ok? && toks[r.next].kind == Comma ==>
              ParseArgs(toks, args, cur) == ParseArgs(toks, args + [r.value], r.next + 1)
  {
    hide ParseExpr;
  }

  /** Only a variable can be assigned to; a missing target, or a missing operand of a prefix, is a null pointer. */
  lemma TargetsAndOperands(toks: seq<Token>, cur: nat)
    requires At(toks, cur) && cur + 1 < |toks|
    ensures var t := ParseBinary(1, toks, cur);
            t.Ok? && toks[t.next].kind == Equal ==>
              var v := ParseExpr(toks, t.next + 1);
              ParseExpr(toks, cur) ==
              if v.Err? then Err(v.why)
              else if t.value.NoExpr? then Err(NullOperand)
              else if t.value.Variable? then Ok(Assign(t.value.name, v.value), v.next)
              else Err(InvalidTarget)
    ensures toks[cur].kind == Bang || toks[cur].kind == Minus ==>
              var r := ParseUnary(toks, cur + 1);
              ParseUnary(toks, cur) ==
              if r.Err? then Err(r.why) else if r.value.NoExpr? then Err(NullOperand)
              else Ok(Unary(toks[cur], r.value), r.next)
  {
    hide ParseBinary, ParseCall;
  }
}
