/**
 Parsing undoes spelling: tokens that spell a canonical tree in which nothing stands where an operand
 is missing, followed by a token that cannot continue it, are parsed to that tree and no further.
 */
module ParserRoundTrip {
  import opened Syntax
  import opened Grammar
  import opened Spelling

  /** `e` is spelled from `cur` on, and a token of the list follows that is no part of it. */
  ghost predicate Spelled(level: nat, toks: seq<Token>, cur: nat, e: Expr) {
    && At(toks, cur) && FitsAt(toks, cur, Spell(e)) && cur + |Spell(e)| < |toks|
    && Spares(level, e, toks[cur + |Spell(e)|].kind)
  }

  /** A tree has no tokens if it is missing; else it starts with an operand or a binary operator. */
  lemma {:induction false} FirstToken(level: nat, e: Expr, t: Token)
    requires Canonical(level, e) && Filled(e)
    ensures e.NoExpr? <==> Spell(e) == []
    ensures !e.NoExpr? && Fits(t, Spell(e)[0]) ==>
              StartsOperand(level, t.kind) || (level <= 6 && OpLevel(t.kind) > 0)
    decreases e
  {
    match e
    case NoExpr =>
    case Literal(_) =>
    case Variable(_) =>
    case Grouping(_) =>
    case Unary(_, _) =>
    case Binary(left, op, _) => FirstToken(OpLevel(op.kind), left, t);
    case Logical(left, op, _) => FirstToken(OpLevel(op.kind), left, t);
    case Assign(_, _) =>
    case Call(callee, _, _) => FirstToken(8, callee, t);
  }

  lemma FirstTokenAt(level: nat, e: Expr, toks: seq<Token>, cur: nat)
    requires Canonical(level, e) && Filled(e) && Spelled(level, toks, cur, e)
    ensures var k := toks[cur].kind;
            if e.NoExpr? then Spell(e) == [] && !StartsOperand(level, k)
            else Spell(e) != [] && (StartsOperand(level, k) || (level <= 6 && OpLevel(k) > 0))
  {
    FirstToken(level, e, toks[cur]);
    hide Spell, Canonical, Filled, StartsOperand;
    if !e.NoExpr? {
      assert Fits(toks[cur + 0], Spell(e)[0]);
    }
  }

  lemma {:induction false} ReadBack(level: nat, e: Expr, toks: seq<Token>, cur: nat)
    requires level <= 9 && Canonical(level, e) && Filled(e)
    requires Spelled(level, toks, cur, e) && Stops(level, toks[cur + |Spell(e)|].kind)
    ensures ParseAt(level, toks, cur) == Ok(e, cur + |Spell(e)|)
    decreases |Spell(e)|, 2 * (10 - level) + 1
  {
    hide Canonical, Filled, Spelled, Spell, ParseExpr, ParseUnary, ParseCall, ParsePrimary;
    if level == 0 {
      ReadBackExpr(e, toks, cur);
    } else if level <= 6 {
      BinaryLoop(level, e, toks, cur);
    } else if level == 7 {
      ReadBackUnary(e, toks, cur);
    } else if level == 8 {
      CallLoop(e, toks, cur);
    } else {
      ReadBackPrimary(e, toks, cur);
    }
  }

  lemma {:induction false} ReadBackExpr(e: Expr, toks: seq<Token>, cur: nat)
    requires Canonical(0, e) && Filled(e)
    requires Spelled(0, toks, cur, e) && Stops(0, toks[cur + |Spell(e)|].kind)
    ensures ParseExpr(toks, cur) == Ok(e, cur + |Spell(e)|)
    decreases |Spell(e)|, 20
  {
    hide ParseExpr, ParseBinary, FitsAt, Spell, Canonical, Filled, Spares, Terminated;
    var n := cur + |Spell(e)|;
    if e.Assign? {
      AssignParts(e, toks, cur);
      VariableReadBack(e.name, toks, cur);
      ReadBackExpr(e.source, toks, cur + 2);
      AssignStep(toks, cur, e.source, n);
    } else {
      NextLevel(0, e);
      SparesNext(0, e, toks[n].kind);
      ReadBack(1, e, toks, cur);
      assert ParseBinary(1, toks, cur) == ParseAt(1, toks, cur);
      ExprStep(toks, cur, e, n);
    }
  }

  lemma AssignStep(toks: seq<Token>, cur: nat, source: Expr, n: nat)
    requires At(toks, cur) && At(toks, cur + 2) && toks[cur + 1].kind == Equal
    requires ParseBinary(1, toks, cur) == Ok(Variable(toks[cur]), cur + 1) && ParseExpr(toks, cur + 2) == Ok(source, n)
    ensures ParseExpr(toks, cur) == Ok(Assign(toks[cur], source), n)
  {
    hide ParseBinary;
  }

  lemma ExprStep(toks: seq<Token>, cur: nat, e: Expr, n: nat)
    requires At(toks, cur) && At(toks, n) && ParseBinary(1, toks, cur) == Ok(e, n) && toks[n].kind != Equal
    ensures ParseExpr(toks, cur) == Ok(e, n)
  {
    hide ParseBinary;
  }

  /** A tree that has no operator of the level itself can stand at the next one. */
  lemma NextLevel(level: nat, e: Expr)
    requires level <= 6 && Canonical(level, e) && (level == 0 ==> !e.Assign?)
    requires level == 0 || !((e.Binary? || e.Logical?) && OpLevel(e.op.kind) == level)
    ensures Canonical(level + 1, e)
  {
  }

  lemma SparesNext(level: nat, e: Expr, k: Kind)
    requires level <= 6 && Spares(level, e, k)
    ensures Spares(level + 1, e, k)
  {
    hide EndsMissing, StartsPrimary;
  }

  /** No operand starts with the token after an expression. */
  lemma EndSpares(level: nat, e: Expr, k: Kind)
    requires k == Comma || k == RParen || k == Semicolon || k == Equal
    ensures Spares(level, e, k)
  {
  }

  lemma SparesAlike(level: nat, e: Expr, f: Expr, k: Kind)
    requires Spares(level, e, k) && (EndsMissing(e) <==> EndsMissing(f))
    ensures Spares(level, f, k)
  {
    hide EndsMissing;
  }

  lemma AssignSpelling(e: Expr)
    requires e.Assign? && Canonical(0, e) && Filled(e)
    ensures Canonical(0, e.source) && Filled(e.source) && e.name.kind == Identifier
    ensures Spell(e) == [Exactly(e.name)] + ([OfKind(Equal)] + Spell(e.source))
    ensures EndsMissing(e) <==> EndsMissing(e.source)
  {
  }

  lemma AssignParts(e: Expr, toks: seq<Token>, cur: nat)
    requires e.Assign? && Canonical(0, e) && Filled(e) && Spelled(0, toks, cur, e)
    ensures Canonical(0, e.source) && Filled(e.source) && e.name.kind == Identifier
    ensures |Spell(e)| == 2 + |Spell(e.source)| && Spelled(0, toks, cur + 2, e.source)
    ensures toks[cur] == e.name && toks[cur + 1].kind == Equal
  {
    hide FitsAt, Spell, Canonical, Filled, EndsMissing, Spares, Terminated;
    AssignSpelling(e);
    SparesAlike(0, e, e.source, toks[cur + |Spell(e)|].kind);
    FitsCons(toks, cur, Exactly(e.name), [OfKind(Equal)] + Spell(e.source));
    FitsCons(toks, cur + 1, OfKind(Equal), Spell(e.source));
  }

  lemma VariableReadBack(name: Token, toks: seq<Token>, cur: nat)
    requires At(toks, cur) && toks[cur] == name && name.kind == Identifier && toks[cur + 1].kind == Equal
    ensures ParseBinary(1, toks, cur) == Ok(Variable(name), cur + 1)
    decreases 1, 20
  {
    hide ParseExpr, ParseBinary, ParseRest, ParseUnary, ParseCall, ParseCalls, ParseArgs, ParsePrimary;
    var e := Variable(name);
    assert FitsAt(toks, cur, Spell(e));
    assert ParseAt(1, toks, cur) == ParseBinary(1, toks, cur);
    ReadBack(1, e, toks, cur);
  }

  /** Having read `e`, the loop of its level stands after `e` with `e` as what it has read. */
  lemma {:induction false} BinaryLoop(level: nat, e: Expr, toks: seq<Token>, cur: nat)
    requires 1 <= level <= 6 && Canonical(level, e) && Filled(e)
    requires Spelled(level, toks, cur, e) && Stops(level + 1, toks[cur + |Spell(e)|].kind)
    ensures ParseBinary(level, toks, cur) == ParseRest(level, toks, e, cur + |Spell(e)|)
    decreases |Spell(e)|, 2 * (10 - level)
  {
    hide ParseExpr, ParseUnary, ParseCall, ParseCalls, ParseArgs, ParsePrimary, ParseBinary, ParseRest;
    hide FitsAt, Spell, Canonical, Filled, Spares, Terminated;
    if (e.Binary? || e.Logical?) && OpLevel(e.op.kind) == level {
      NodeParts(level, e, toks, cur);
      hide Node;
      var i := cur + |Spell(e.left)|;
      BinaryLoop(level, e.left, toks, cur);
      ReadBack(level + 1, e.right, toks, i + 1);
      assert ParseBinary(level + 1, toks, i + 1) == ParseAt(level + 1, toks, i + 1);
      RestStep(level, toks, e.left, i, e.right, cur + |Spell(e)|);
    } else {
      NextLevel(level, e);
      SparesNext(level, e, toks[cur + |Spell(e)|].kind);
      ReadBack(level + 1, e, toks, cur);
      assert ParseBinary(level + 1, toks, cur) == ParseAt(level + 1, toks, cur);
      BinaryStep(level, toks, cur, e, cur + |Spell(e)|);
    }
  }

  lemma BinaryStep(level: nat, toks: seq<Token>, cur: nat, e: Expr, n: nat)
    requires At(toks, cur) && 1 <= level <= 6 && ParseBinary(level + 1, toks, cur) == Ok(e, n)
    ensures n < |toks| && ParseBinary(level, toks, cur) == ParseRest(level, toks, e, n)
  {
    hide ParseRest, ParseUnary;
  }

  lemma RestStep(level: nat, toks: seq<Token>, left: Expr, cur: nat, right: Expr, n: nat)
    requires At(toks, cur) && 1 <= level <= 6 && OpLevel(toks[cur].kind) == level
    requires At(toks, cur + 1) && ParseBinary(level + 1, toks, cur + 1) == Ok(right, n)
    ensures n < |toks|
    ensures ParseRest(level, toks, left, cur) == ParseRest(level, toks, Node(level, left, toks[cur], right), n)
  {
    hide ParseBinary;
  }

  lemma NodeSpelling(level: nat, e: Expr)
    requires 1 <= level <= 6 && (e.Binary? || e.Logical?) && OpLevel(e.op.kind) == level
    requires Canonical(level, e) && Filled(e)
    ensures Canonical(level, e.left) && Filled(e.left) && Canonical(level + 1, e.right) && Filled(e.right)
    ensures Spell(e) == Spell(e.left) + ([Exactly(e.op)] + Spell(e.right)) && e == Node(level, e.left, e.op, e.right)
  {
  }

  lemma NodeSpares(level: nat, e: Expr, k: Kind)
    requires 1 <= level <= 6 && (e.Binary? || e.Logical?) && OpLevel(e.op.kind) == level
    requires Canonical(level, e) && Filled(e) && Spares(level, e, k)
    ensures Spares(level, e.left, e.op.kind) && Spares(level + 1, e.right, k)
  {
  }

  lemma NodeParts(level: nat, e: Expr, toks: seq<Token>, cur: nat)
    requires 1 <= level <= 6 && (e.Binary? || e.Logical?) && OpLevel(e.op.kind) == level
    requires Canonical(level, e) && Filled(e) && Spelled(level, toks, cur, e)
    ensures Canonical(level, e.left) && Filled(e.left) && Canonical(level + 1, e.right) && Filled(e.right)
    ensures |Spell(e)| == |Spell(e.left)| + 1 + |Spell(e.right)| && e == Node(level, e.left, e.op, e.right)
    ensures var i := cur + |Spell(e.left)|;
            Spelled(level, toks, cur, e.left) && toks[i] == e.op && Spelled(level + 1, toks, i + 1, e.right)
  {
    hide FitsAt, Spell, Canonical, Filled, Spares, Terminated;
    NodeSpelling(level, e);
    NodeSpares(level, e, toks[cur + |Spell(e)|].kind);
    var i := cur + |Spell(e.left)|;
    FitsConcat(toks, cur, Spell(e.left), [Exactly(e.op)] + Spell(e.right));
    FitsCons(toks, i, Exactly(e.op), Spell(e.right));
  }

  lemma {:induction false} ReadBackUnary(e: Expr, toks: seq<Token>, cur: nat)
    requires Canonical(7, e) && Filled(e)
    requires Spelled(7, toks, cur, e) && Stops(7, toks[cur + |Spell(e)|].kind)
    ensures ParseUnary(toks, cur) == Ok(e, cur + |Spell(e)|)
    decreases |Spell(e)|, 6
  {
    hide ParseUnary, ParseCall, FitsAt, Spell, Canonical, Filled, Spares;
    if e.Unary? {
      UnaryParts(e, toks, cur);
      ReadBackUnary(e.right, toks, cur + 1);
      UnaryStep(toks, cur, e.right, cur + |Spell(e)|);
    } else {
      OperandParts(e, toks, cur);
      ReadBack(8, e, toks, cur);
      OperandStep(toks, cur);
    }
  }

  lemma UnarySpelling(e: Expr)
    requires e.Unary? && Canonical(7, e) && Filled(e)
    ensures (e.op.kind == Bang || e.op.kind == Minus) && !e.right.NoExpr? && Canonical(7, e.right) && Filled(e.right)
    ensures Spell(e) == [Exactly(e.op)] + Spell(e.right) && (EndsMissing(e) <==> EndsMissing(e.right))
  {
  }

  lemma UnaryParts(e: Expr, toks: seq<Token>, cur: nat)
    requires e.Unary? && Canonical(7, e) && Filled(e) && Spelled(7, toks, cur, e)
    ensures (e.op.kind == Bang || e.op.kind == Minus) && !e.right.NoExpr? && Canonical(7, e.right) && Filled(e.right)
    ensures toks[cur] == e.op && |Spell(e)| == 1 + |Spell(e.right)| && Spelled(7, toks, cur + 1, e.right)
  {
    hide FitsAt, Spell, Canonical, Filled, EndsMissing, Spares, Terminated;
    UnarySpelling(e);
    SparesAlike(7, e, e.right, toks[cur + |Spell(e)|].kind);
    FitsCons(toks, cur, Exactly(e.op), Spell(e.right));
  }

  lemma UnaryStep(toks: seq<Token>, cur: nat, right: Expr, n: nat)
    requires At(toks, cur) && (toks[cur].kind == Bang || toks[cur].kind == Minus) && At(toks, cur + 1)
    requires ParseUnary(toks, cur + 1) == Ok(right, n) && !right.NoExpr?
    ensures ParseUnary(toks, cur) == Ok(Unary(toks[cur], right), n)
  {
    hide ParseCall;
  }

  lemma NoUnary(e: Expr, k: Kind)
    requires !e.Unary? && Canonical(7, e) && Spares(7, e, k)
    ensures Canonical(8, e) && Spares(8, e, k)
  {
    hide EndsMissing, StartsPrimary;
  }

  lemma PrimaryStarts(k: Kind)
    requires StartsOperand(8, k) || !StartsOperand(7, k)
    ensures k != Bang && k != Minus
  {
  }

  lemma OperandParts(e: Expr, toks: seq<Token>, cur: nat)
    requires !e.Unary? && Canonical(7, e) && Filled(e) && Spelled(7, toks, cur, e)
    ensures toks[cur].kind != Bang && toks[cur].kind != Minus
    ensures Canonical(8, e) && Spelled(8, toks, cur, e)
  {
    hide FitsAt, Spell, Canonical, Filled, Spares, StartsOperand, Terminated;
    NoUnary(e, toks[cur + |Spell(e)|].kind);
    FirstTokenAt(7, e, toks, cur);
    if !e.NoExpr? { FirstTokenAt(8, e, toks, cur); }
    PrimaryStarts(toks[cur].kind);
  }

  lemma OperandStep(toks: seq<Token>, cur: nat)
    requires At(toks, cur) && toks[cur].kind != Bang && toks[cur].kind != Minus
    ensures ParseUnary(toks, cur) == ParseCall(toks, cur)
  {
    hide ParseCall;
  }

  lemma {:induction false} CallLoop(e: Expr, toks: seq<Token>, cur: nat)
    requires Canonical(8, e) && Filled(e) && Spelled(8, toks, cur, e)
    ensures ParseCall(toks, cur) == ParseCalls(toks, e, cur + |Spell(e)|)
    decreases |Spell(e)|, 4
  {
    hide ParseCall, ParseCalls, ParseArgs, ParsePrimary;
    hide FitsAt, Spell, SpellArgs, Canonical, Filled, AllCanonical, AllFilled;
    if e.Call? {
      var i := cur + |Spell(e.callee)|;
      CallParts(e, toks, cur);
      CallLoop(e.callee, toks, cur);
      ArgumentsReadBack(e.args, e.paren, toks, i + 1);
      CallStep(toks, e.callee, i, e.args, i + 1 + |SpellArgs(e.args)|);
    } else {
      PrimaryCanonical(e);
      ReadBack(9, e, toks, cur);
      CalleeStep(toks, cur, e, cur + |Spell(e)|);
    }
  }

  lemma PrimaryCanonical(e: Expr)
    requires Canonical(8, e) && !e.Call?
    ensures Canonical(9, e)
  {
  }

  lemma CalleeStep(toks: seq<Token>, cur: nat, e: Expr, n: nat)
    requires At(toks, cur) && ParsePrimary(toks, cur) == Ok(e, n)
    ensures n < |toks| && ParseCall(toks, cur) == ParseCalls(toks, e, n)
  {
    hide ParsePrimary, ParseCalls;
  }

  lemma CallStep(toks: seq<Token>, callee: Expr, cur: nat, args: seq<Expr>, n: nat)
    requires At(toks, cur) && toks[cur].kind == LParen && At(toks, cur + 1)
    requires (if toks[cur + 1].kind == RParen then Ok([], cur + 1) else ParseArgs(toks, [], cur + 1)) == Ok(args, n)
    requires n + 1 < |toks| && toks[n].kind == RParen
    ensures ParseCalls(toks, callee, cur) == ParseCalls(toks, Call(callee, toks[n], args), n + 1)
  {
    hide ParseArgs;
  }

  lemma CallParts(e: Expr, toks: seq<Token>, cur: nat)
    requires e.Call? && Canonical(8, e) && Filled(e) && Spelled(8, toks, cur, e)
    ensures Canonical(8, e.callee) && Filled(e.callee) && AllCanonical(e.args) && AllFilled(e.args)
    ensures |e.args| <= MAX_ARGS && e.args != [NoExpr] && e.paren.kind == RParen
    ensures |Spell(e)| == |Spell(e.callee)| + 2 + |SpellArgs(e.args)|
    ensures var i := cur + |Spell(e.callee)|;
            && Spelled(8, toks, cur, e.callee) && toks[i].kind == LParen
            && FitsAt(toks, i + 1, SpellArgs(e.args) + [Exactly(e.paren)])
  {
    hide FitsAt;
    var i := cur + |Spell(e.callee)|;
    FitsConcat(toks, cur, Spell(e.callee), [OfKind(LParen)] + (SpellArgs(e.args) + [Exactly(e.paren)]));
    FitsCons(toks, i, OfKind(LParen), SpellArgs(e.args) + [Exactly(e.paren)]);
  }

  /** What `ParseCalls` does between the parentheses. */
  lemma {:induction false} ArgumentsReadBack(args: seq<Expr>, paren: Token, toks: seq<Token>, cur: nat)
    requires AllCanonical(args) && AllFilled(args) && args != [NoExpr] && |args| <= MAX_ARGS && paren.kind == RParen
    requires At(toks, cur) && FitsAt(toks, cur, SpellArgs(args) + [Exactly(paren)])
    ensures var n := cur + |SpellArgs(args)|;
            && n < |toks| && toks[n] == paren
            && (if toks[cur].kind == RParen then Ok([], cur) else ParseArgs(toks, [], cur)) == Ok(args, n)
    decreases |SpellArgs(args)|, 31
  {
    hide ParseExpr, ParseBinary, ParseRest, ParseUnary, ParseCall, ParseCalls, ParsePrimary;
    var n := cur + |SpellArgs(args)|;
    FitsConcat(toks, cur, SpellArgs(args), [Exactly(paren)]);
    assert Fits(toks[n + 0], [Exactly(paren)][0]);
    if args != [] {
      FirstToken(0, args[0], toks[cur]);
      assert Fits(toks[cur + 0], SpellArgs(args)[0]);
      hide FitsAt, Spell, SpellArgs;
      ArgsLoop(args, [], toks, cur);
      assert [] + args == args;
    }
  }

  lemma {:induction false} ArgsLoop(args: seq<Expr>, done: seq<Expr>, toks: seq<Token>, cur: nat)
    requires args != [] && |done| + |args| <= MAX_ARGS && AllCanonical(args) && AllFilled(args)
    requires At(toks, cur) && FitsAt(toks, cur, SpellArgs(args)) && cur + |SpellArgs(args)| < |toks|
    requires toks[cur + |SpellArgs(args)|].kind == RParen
    ensures ParseArgs(toks, done, cur) == Ok(done + args, cur + |SpellArgs(args)|)
    decreases |SpellArgs(args)|, 30
  {
    hide ParseExpr, ParseArgs, FitsAt, Spell, SpellArgs, Canonical, Filled, AllCanonical, AllFilled, Spares, Terminated;
    ArgsParts(args, toks, cur);
    ReadBack(0, args[0], toks, cur);
    assert ParseExpr(toks, cur) == ParseAt(0, toks, cur);
    ArgStep(toks, done, cur, args[0], cur + |Spell(args[0])|);
    if |args| == 1 {
      assert done + [args[0]] == done + args;
    } else {
      ArgsLoop(args[1..], done + [args[0]], toks, cur + |Spell(args[0])| + 1);
      assert done + [args[0]] + args[1..] == done + args;
    }
  }

  lemma ArgStep(toks: seq<Token>, done: seq<Expr>, cur: nat, arg: Expr, n: nat)
    requires At(toks, cur) && At(toks, n) && |done| < MAX_ARGS && ParseExpr(toks, cur) == Ok(arg, n)
    ensures toks[n].kind == Comma && n + 1 < |toks| ==>
              ParseArgs(toks, done, cur) == ParseArgs(toks, done + [arg], n + 1)
    ensures toks[n].kind != Comma ==> ParseArgs(toks, done, cur) == Ok(done + [arg], n)
  {
    hide ParseExpr;
  }

  /** The first of some arguments, and the comma and the others after it. */
  lemma ArgsParts(args: seq<Expr>, toks: seq<Token>, cur: nat)
    requires args != [] && AllCanonical(args) && AllFilled(args)
    requires At(toks, cur) && FitsAt(toks, cur, SpellArgs(args)) && cur + |SpellArgs(args)| < |toks|
    requires toks[cur + |SpellArgs(args)|].kind == RParen
    ensures Canonical(0, args[0]) && Filled(args[0]) && AllCanonical(args[1..]) && AllFilled(args[1..])
    ensures Spelled(0, toks, cur, args[0])
    ensures var i := cur + |Spell(args[0])|;
            if |args| == 1 then |SpellArgs(args)| == |Spell(args[0])|
            else
              && toks[i].kind == Comma && |SpellArgs(args)| == |Spell(args[0])| + 1 + |SpellArgs(args[1..])|
              && FitsAt(toks, i + 1, SpellArgs(args[1..]))
  {
    hide FitsAt, Spell, Canonical, Filled, Spares, Terminated;
    if |args| == 1 {
      assert SpellArgs(args) == Spell(args[0]);
      hide SpellArgs;
      EndSpares(0, args[0], RParen);
    } else {
      var first, rest := Spell(args[0]), SpellArgs(args[1..]);
      assert SpellArgs(args) == first + ([OfKind(Comma)] + rest);
      hide SpellArgs;
      FitsConcat(toks, cur, first, [OfKind(Comma)] + rest);
      FitsCons(toks, cur + |first|, OfKind(Comma), rest);
      EndSpares(0, args[0], Comma);
    }
  }

  lemma {:induction false} ReadBackPrimary(e: Expr, toks: seq<Token>, cur: nat)
    requires Canonical(9, e) && Filled(e) && Spelled(9, toks, cur, e)
    ensures ParsePrimary(toks, cur) == Ok(e, cur + |Spell(e)|)
    decreases |Spell(e)|, 2
  {
    hide ParsePrimary, FitsAt, Spell, Canonical, Filled;
    if e.Grouping? {
      GroupParts(e, toks, cur);
      ReadBack(0, e.inner, toks, cur + 1);
      GroupStep(toks, cur, e.inner, cur + 1 + |Spell(e.inner)|);
    } else {
      LeafReadBack(e, toks, cur);
    }
  }

  lemma GroupStep(toks: seq<Token>, cur: nat, inner: Expr, n: nat)
    requires At(toks, cur) && toks[cur].kind == LParen && At(toks, cur + 1)
    requires ParseExpr(toks, cur + 1) == Ok(inner, n) && toks[n].kind == RParen && n + 1 < |toks|
    ensures ParsePrimary(toks, cur) == Ok(Grouping(inner), n + 1)
  {
    hide ParseExpr;
  }

  lemma LeafReadBack(e: Expr, toks: seq<Token>, cur: nat)
    requires Canonical(9, e) && Filled(e) && Spelled(9, toks, cur, e) && !e.Grouping?
    ensures ParsePrimary(toks, cur) == Ok(e, cur + |Spell(e)|)
  {
    FirstTokenAt(9, e, toks, cur);
    hide Canonical, Filled, EndsMissing;
    if !e.NoExpr? {
      assert Fits(toks[cur + 0], Spell(e)[0]);
    }
  }

  lemma LastFits(toks: seq<Token>, i: nat, k: Kind)
    requires FitsAt(toks, i, [OfKind(k)])
    ensures i < |toks| && toks[i].kind == k
  {
    assert Fits(toks[i + 0], [OfKind(k)][0]);
  }

  lemma GroupSpelling(e: Expr)
    requires e.Grouping? && Canonical(9, e) && Filled(e)
    ensures Canonical(0, e.inner) && Filled(e.inner)
    ensures Spell(e) == [OfKind(LParen)] + (Spell(e.inner) + [OfKind(RParen)])
  {
  }

  lemma GroupParts(e: Expr, toks: seq<Token>, cur: nat)
    requires e.Grouping? && Canonical(9, e) && Filled(e) && Spelled(9, toks, cur, e)
    ensures Canonical(0, e.inner) && Filled(e.inner) && |Spell(e)| == |Spell(e.inner)| + 2
    ensures toks[cur].kind == LParen && Spelled(0, toks, cur + 1, e.inner)
    ensures toks[cur + 1 + |Spell(e.inner)|].kind == RParen
  {
    hide FitsAt, Spares, Canonical, Filled, Spell, Terminated;
    GroupSpelling(e);
    var inner := Spell(e.inner);
    FitsCons(toks, cur, OfKind(LParen), inner + [OfKind(RParen)]);
    FitsConcat(toks, cur + 1, inner, [OfKind(RParen)]);
    LastFits(toks, cur + 1 + |inner|, RParen);
    EndSpares(0, e.inner, RParen);
  }
}
