/**
 Which programs have a source text: exactly those that the parser can return, if each of their tokens
 is one that the lexer makes and each of their literals has a notation.
 */
module Texts {
  import opened Values
  import opened Syntax
  import opened Grammar
  import opened Spelling
  import opened StatementRoundTrip
  import opened Printing
  import L = Lexer
  import LP = LexerProofs

  // ----- The tokens that a tree fixes -----

  /** Literals that can be written: there is no notation for undefined, which is read as its own text. */
  ghost predicate LexableValue(ar: Arith, v: Value) {
    match v
    case Undefined => false
    case Text(s) => '"' !in s
    case Numeric(n) => exists digits :: IsNumeralOf(ar, digits, n)
    case _ => true
  }

  ghost predicate LexablePattern(ar: Arith, p: Pattern) {
    match p
    case Exactly(token) => LP.Lexable(ar, token)
    case OfKind(_) => true
    case Literally(value) => LexableValue(ar, value)
  }

  ghost predicate LexableExpr(ar: Arith, e: Expr) {
    forall p | p in Spell(e) :: LexablePattern(ar, p)
  }

  ghost predicate LexableStmt(ar: Arith, s: Stmt)
    decreases s
  {
    match s
    case NoStmt => true
    case ExprStmt(expr) => LexableExpr(ar, expr)
    case VarDecl(name, init) => LP.Lexable(ar, name) && LexableExpr(ar, init)
    case FuncDecl(name, params, body) =>
      LP.Lexable(ar, name) && (forall p | p in params :: LP.Lexable(ar, p)) && LexableStmts(ar, body)
    case Block(stmts) => LexableStmts(ar, stmts)
    case IfStmt(cond, thn, els) => LexableExpr(ar, cond) && LexableStmt(ar, thn) && LexableStmt(ar, els)
    case WhileStmt(cond, loop) => LexableExpr(ar, cond) && LexableStmt(ar, loop)
    case ForStmt(start, cond, step, loop) =>
      LexableStmt(ar, start) && LexableExpr(ar, cond) && LexableExpr(ar, step) && LexableStmt(ar, loop)
    case ReturnStmt(keyword, result) => keyword == Fixed(Return) && LexableExpr(ar, result)
  }

  ghost predicate LexableStmts(ar: Arith, stmts: seq<Stmt>)
    decreases stmts
  {
    stmts == [] || (LexableStmt(ar, stmts[0]) && LexableStmts(ar, stmts[1..]))
  }

  // ----- What is printed can be lexed -----

  ghost predicate Clean(ar: Arith, ts: seq<Token>) {
    forall t | t in ts :: LP.Lexable(ar, t)
  }

  lemma CleanConcat(ar: Arith, a: seq<Token>, b: seq<Token>)
    requires Clean(ar, a) && Clean(ar, b)
    ensures Clean(ar, a + b)
  {
    hide LP.Lexable;
  }

  lemma {:induction false} CleanIsLexable(ar: Arith, ts: seq<Token>)
    requires Clean(ar, ts)
    ensures LP.AllLexable(ar, ts)
  {
    hide LP.Lexable;
    if ts != [] {
      assert ts[0] in ts && forall t | t in ts[1..] :: t in ts;
      CleanIsLexable(ar, ts[1..]);
    }
  }

  predicate HasText(k: Kind) {
    LP.SymbolText(k) != "" || LP.KeywordText(k) != ""
  }

  lemma FixedIsClean(ar: Arith, k: Kind)
    requires HasText(k)
    ensures LP.Lexable(ar, Fixed(k)) && Clean(ar, [Fixed(k)])
  {
    hide LP.IsWord, LP.IsNumeral, L.WordKind, LP.KeywordText, LP.SymbolText;
    if LP.KeywordText(k) != "" {
      KeywordIsWord(k);
      LP.TextIsKeyword(k);
    }
  }

  lemma KeywordIsWord(k: Kind)
    requires LP.KeywordText(k) != ""
    ensures LP.IsWord(LP.KeywordText(k))
  {
    hide LP.KeywordText, LP.IsWord;
    if LP.KeywordText(k)[0] <= 'e' { EarlyKeywordIsWord(k); } else { LateKeywordIsWord(k); }
  }

  lemma EarlyKeywordIsWord(k: Kind)
    requires LP.KeywordText(k) != "" && LP.KeywordText(k)[0] <= 'e'
    ensures LP.IsWord(LP.KeywordText(k))
  {
  }

  lemma LateKeywordIsWord(k: Kind)
    requires LP.KeywordText(k) != "" && LP.KeywordText(k)[0] > 'e'
    ensures LP.IsWord(LP.KeywordText(k))
  {
  }

  /** The kinds that are all that the tree of an expression fixes are those of symbols. */
  predicate Open(p: Pattern) {
    p.OfKind? ==> p.kind == LParen || p.kind == RParen || p.kind == Comma || p.kind == Equal
  }

  lemma {:induction false} SpelledKinds(e: Expr)
    ensures forall p | p in Spell(e) :: Open(p)
    decreases e, 0
  {
    match e
    case Grouping(inner) => SpelledKinds(inner);
    case Unary(_, right) => SpelledKinds(right);
    case Binary(left, _, right) =>
      SpelledKinds(left);
      SpelledKinds(right);
    case Logical(left, _, right) =>
      SpelledKinds(left);
      SpelledKinds(right);
    case Assign(_, source) => SpelledKinds(source);
    case Call(callee, _, args) =>
      SpelledKinds(callee);
      SpelledArgsKinds(args);
    case _ =>
  }

  lemma {:induction false} SpelledArgsKinds(args: seq<Expr>)
    ensures forall p | p in SpellArgs(args) :: Open(p)
    decreases args, 0
  {
    if args != [] {
      SpelledKinds(args[0]);
      SpelledArgsKinds(args[1..]);
    }
  }

  lemma PatternIsClean(ar: Arith, p: Pattern)
    requires LexablePattern(ar, p) && Open(p)
    ensures LP.Lexable(ar, TokenFor(ar, p))
  {
    hide LP.IsNumeral, LP.IsWord;
    match p
    case Exactly(_) =>
    case OfKind(kind) => FixedIsClean(ar, kind);
    case Literally(Boolean(b)) => FixedIsClean(ar, if b then True else False);
    case Literally(Null) => FixedIsClean(ar, NullTok);
    case Literally(_) =>
  }

  lemma ExprIsClean(ar: Arith, e: Expr)
    requires LexableExpr(ar, e)
    ensures Clean(ar, PrintExpr(ar, e))
  {
    hide LP.Lexable, TokenFor, LexablePattern, Open;
    SpelledKinds(e);
    var ts := PrintExpr(ar, e);
    forall t | t in ts ensures LP.Lexable(ar, t) {
      var i :| 0 <= i < |ts| && ts[i] == t;
      PatternIsClean(ar, Spell(e)[i]);
    }
  }

  lemma EndedIsClean(ar: Arith, e: Expr, stop: Kind)
    requires LexableExpr(ar, e) && HasText(stop)
    ensures Clean(ar, PrintEnded(ar, e, stop))
  {
    hide Clean, LexableExpr, PrintExpr, HasText;
    ExprIsClean(ar, e);
    FixedIsClean(ar, stop);
    CleanConcat(ar, PrintExpr(ar, e), [Fixed(stop)]);
  }

  lemma TokenIsClean(ar: Arith, t: Token)
    requires LP.Lexable(ar, t)
    ensures Clean(ar, [t])
  {
    hide LP.Lexable;
  }

  lemma VarIsClean(ar: Arith, name: Token, init: Expr)
    requires LP.Lexable(ar, name) && LexableExpr(ar, init)
    ensures Clean(ar, PrintVar(ar, name, init))
  {
    hide Clean, LexableExpr, PrintEnded, LP.Lexable;
    TokenIsClean(ar, name);
    EndedIsClean(ar, init, Semicolon);
    FixedIsClean(ar, Semicolon);
    FixedIsClean(ar, Equal);
    CleanConcat(ar, [Fixed(Equal)], PrintEnded(ar, init, Semicolon));
    var rest := if init.NoExpr? then [Fixed(Semicolon)] else [Fixed(Equal)] + PrintEnded(ar, init, Semicolon);
    CleanConcat(ar, [name], rest);
  }

  lemma DeclIsClean(ar: Arith, name: Token, init: Expr)
    requires LP.Lexable(ar, name) && LexableExpr(ar, init)
    ensures Clean(ar, [Fixed(Var)] + PrintVar(ar, name, init))
  {
    hide Clean, LexableExpr, PrintVar, LP.Lexable;
    VarIsClean(ar, name, init);
    FixedIsClean(ar, Var);
    CleanConcat(ar, [Fixed(Var)], PrintVar(ar, name, init));
  }

  lemma TwoAreClean(ar: Arith, s: Token, t: Token)
    requires LP.Lexable(ar, s) && LP.Lexable(ar, t)
    ensures Clean(ar, [s, t])
  {
    hide LP.Lexable;
  }

  lemma HeadIsClean(ar: Arith, keyword: Kind, cond: Expr)
    requires HasText(keyword) && LexableExpr(ar, cond)
    ensures Clean(ar, PrintHead(ar, keyword, cond))
  {
    hide Clean, LexableExpr, PrintEnded, LP.Lexable;
    FixedIsClean(ar, keyword);
    FixedIsClean(ar, LParen);
    TwoAreClean(ar, Fixed(keyword), Fixed(LParen));
    EndedIsClean(ar, cond, RParen);
    CleanConcat(ar, [Fixed(keyword), Fixed(LParen)], PrintEnded(ar, cond, RParen));
  }

  lemma StartIsClean(ar: Arith, start: Stmt)
    requires LexableStmt(ar, start)
    ensures Clean(ar, PrintStart(ar, start))
  {
    hide Clean, LexableExpr, PrintEnded, PrintVar, LP.Lexable;
    FixedIsClean(ar, Semicolon);
    match start
    case VarDecl(name, init) => DeclIsClean(ar, name, init);
    case ExprStmt(expr) => EndedIsClean(ar, expr, Semicolon);
    case _ =>
  }

  lemma {:induction false} ParamsAreClean(ar: Arith, params: seq<Token>)
    requires Clean(ar, params)
    ensures Clean(ar, PrintParams(params))
    decreases |params|
  {
    hide LP.Lexable;
    FixedIsClean(ar, RParen);
    FixedIsClean(ar, Comma);
    if |params| > 1 {
      assert forall t | t in params[1..] :: t in params;
      ParamsAreClean(ar, params[1..]);
    }
  }

  lemma {:induction false} StmtIsClean(ar: Arith, s: Stmt)
    requires LexableStmt(ar, s)
    ensures Clean(ar, PrintStmt(ar, s))
    decreases s, 1
  {
    hide Clean, LexableExpr, PrintEnded, PrintVar, PrintBlock, LexableStmts, LP.Lexable;
    match s
    case NoStmt => NoneAreClean(ar);
    case ExprStmt(expr) =>
      NoneAreClean(ar);
      EndedIsClean(ar, expr, Semicolon);
    case VarDecl(name, init) => DeclIsClean(ar, name, init);
    case FuncDecl(_, _, _) => FuncIsClean(ar, s);
    case Block(stmts) => BlockIsClean(ar, stmts);
    case IfStmt(_, _, _) => IfIsClean(ar, s);
    case WhileStmt(_, _) => WhileIsClean(ar, s);
    case ForStmt(_, _, _, _) => ForIsClean(ar, s);
    case ReturnStmt(keyword, result) =>
      FixedIsClean(ar, Return);
      EndedIsClean(ar, result, Semicolon);
      CleanConcat(ar, [keyword], PrintEnded(ar, result, Semicolon));
  }

  lemma NoneAreClean(ar: Arith)
    ensures Clean(ar, [])
  {
  }

  lemma {:induction false} FuncIsClean(ar: Arith, s: Stmt)
    requires s.FuncDecl? && LexableStmt(ar, s)
    ensures Clean(ar, PrintStmt(ar, s))
    decreases s, 0
  {
    var head, params, body := [Fixed(Function), s.name, Fixed(LParen)], PrintParams(s.params), PrintBlock(ar, s.body);
    hide LP.Lexable, PrintParams, PrintBlock, LexableStmts;
    FixedIsClean(ar, Function);
    FixedIsClean(ar, LParen);
    assert Clean(ar, head);
    ParamsAreClean(ar, s.params);
    BlockIsClean(ar, s.body);
    hide Clean;
    CleanConcat(ar, params, body);
    CleanConcat(ar, head, params + body);
  }

  lemma {:induction false} IfIsClean(ar: Arith, s: Stmt)
    requires s.IfStmt? && LexableStmt(ar, s)
    ensures Clean(ar, PrintStmt(ar, s))
    decreases s, 0
  {
    hide Clean, LexableExpr, PrintHead, LP.Lexable;
    HeadIsClean(ar, If, s.cond);
    StmtIsClean(ar, s.thn);
    StmtIsClean(ar, s.els);
    NoneAreClean(ar);
    FixedIsClean(ar, Else);
    CleanConcat(ar, [Fixed(Else)], PrintStmt(ar, s.els));
    CleanConcat(ar, PrintStmt(ar, s.thn), PrintElse(ar, s.els));
    CleanConcat(ar, PrintHead(ar, If, s.cond), PrintStmt(ar, s.thn) + PrintElse(ar, s.els));
  }

  lemma {:induction false} WhileIsClean(ar: Arith, s: Stmt)
    requires s.WhileStmt? && LexableStmt(ar, s)
    ensures Clean(ar, PrintStmt(ar, s))
    decreases s, 0
  {
    hide Clean, LexableExpr, PrintHead, LP.Lexable;
    HeadIsClean(ar, While, s.cond);
    StmtIsClean(ar, s.loop);
    CleanConcat(ar, PrintHead(ar, While, s.cond), PrintStmt(ar, s.loop));
  }

  lemma {:induction false} ForIsClean(ar: Arith, s: Stmt)
    requires s.ForStmt? && LexableStmt(ar, s)
    ensures Clean(ar, PrintStmt(ar, s))
    decreases s, 0
  {
    hide Clean, LexableExpr, PrintStart, PrintEnded, LP.Lexable;
    var head, start, cond := [Fixed(For), Fixed(LParen)], PrintStart(ar, s.start), PrintEnded(ar, s.cond, Semicolon);
    var step, loop := PrintEnded(ar, s.step, RParen), PrintStmt(ar, s.loop);
    FixedIsClean(ar, For);
    FixedIsClean(ar, LParen);
    TwoAreClean(ar, Fixed(For), Fixed(LParen));
    StartIsClean(ar, s.start);
    EndedIsClean(ar, s.cond, Semicolon);
    EndedIsClean(ar, s.step, RParen);
    StmtIsClean(ar, s.loop);
    CleanConcat(ar, step, loop);
    CleanConcat(ar, cond, step + loop);
    CleanConcat(ar, start, cond + (step + loop));
    CleanConcat(ar, head, start + (cond + (step + loop)));
  }

  lemma {:induction false} BlockIsClean(ar: Arith, stmts: seq<Stmt>)
    requires LexableStmts(ar, stmts)
    ensures Clean(ar, PrintBlock(ar, stmts))
    decreases stmts, 1
  {
    hide Clean, LexableStmts, Print, LP.Lexable;
    FixedIsClean(ar, LBrace);
    FixedIsClean(ar, RBrace);
    StmtsAreClean(ar, stmts);
    CleanConcat(ar, Print(ar, stmts), [Fixed(RBrace)]);
    CleanConcat(ar, [Fixed(LBrace)], Print(ar, stmts) + [Fixed(RBrace)]);
  }

  /** The printed tokens of a program whose own tokens the lexer makes are tokens it makes. */
  lemma {:induction false} StmtsAreClean(ar: Arith, stmts: seq<Stmt>)
    requires LexableStmts(ar, stmts)
    ensures Clean(ar, Print(ar, stmts))
    decreases stmts, 0
  {
    hide Clean, LexableStmt, PrintStmt;
    if stmts == [] {
      NoneAreClean(ar);
    } else {
      StmtIsClean(ar, stmts[0]);
      StmtsAreClean(ar, stmts[1..]);
      CleanConcat(ar, PrintStmt(ar, stmts[0]), Print(ar, stmts[1..]));
    }
  }

  // ----- What is spelled by lexed tokens has only such tokens -----

  ghost predicate Lexed(ar: Arith, toks: seq<Token>) {
    Terminated(toks) && forall i | 0 <= i < |toks| - 1 :: LP.Lexable(ar, toks[i])
  }

  lemma LexedValue(ar: Arith, t: Token)
    requires LP.Lexable(ar, t) && IsLiteralKind(t.kind)
    ensures LexableValue(ar, LiteralValue(t))
  {
    if LP.IsWord(t.lexeme) && t == L.WordToken(t.lexeme) {
      WordHasNoQuote(t.lexeme);
      LP.WordIsNoNumber(t.lexeme);
    } else if LP.IsNumeral(t.lexeme) && t == L.NumberToken(ar, t.lexeme) {
      assert IsNumeralOf(ar, t.lexeme, t.literal.n);
    }
  }

  lemma WordHasNoQuote(s: string)
    requires LP.IsWord(s)
    ensures '"' !in s
  {
  }

  lemma FittingIsLexable(ar: Arith, t: Token, p: Pattern)
    requires LP.Lexable(ar, t) && Fits(t, p)
    ensures LexablePattern(ar, p)
  {
    hide LP.Lexable, LexableValue;
    if p.Literally? { LexedValue(ar, t); }
  }

  lemma ExprAtIsLexable(ar: Arith, e: Expr, stop: Kind, toks: seq<Token>, cur: nat, n: nat)
    requires Lexed(ar, toks) && stop != Eof && ExprAt(e, stop, toks, cur, n)
    ensures LexableExpr(ar, e)
  {
    hide LP.Lexable, LexablePattern;
    forall p | p in Spell(e) ensures LexablePattern(ar, p) {
      var i :| 0 <= i < |Spell(e)| && Spell(e)[i] == p;
      FittingIsLexable(ar, toks[cur + i], p);
    }
  }

  lemma VarAtIsLexable(ar: Arith, name: Token, init: Expr, toks: seq<Token>, cur: nat, n: nat)
    requires Lexed(ar, toks) && VarAt(name, init, toks, cur, n)
    ensures LP.Lexable(ar, name) && LexableExpr(ar, init)
  {
    hide LP.Lexable, LexableExpr, ExprAt;
    if toks[cur + 1].kind == Equal {
      ExprAtIsLexable(ar, init, Semicolon, toks, cur + 2, n);
    } else {
      ExprAtIsLexable(ar, init, Semicolon, toks, cur + 1, n);
    }
  }

  lemma HeadAtIsLexable(ar: Arith, keyword: Kind, cond: Expr, toks: seq<Token>, cur: nat, n: nat)
    requires Lexed(ar, toks) && HeadAt(keyword, cond, toks, cur, n)
    ensures LexableExpr(ar, cond)
  {
    hide LexableExpr, ExprAt, Lexed;
    ExprAtIsLexable(ar, cond, RParen, toks, cur + 2, n);
  }

  lemma StartAtIsLexable(ar: Arith, start: Stmt, toks: seq<Token>, cur: nat, n: nat)
    requires Lexed(ar, toks) && StartAt(start, toks, cur, n)
    ensures LexableStmt(ar, start)
  {
    hide LexableExpr, ExprAt, VarAt, Lexed;
    match start
    case NoStmt =>
    case VarDecl(name, init) => VarAtIsLexable(ar, name, init, toks, cur + 1, n);
    case ExprStmt(expr) => ExprAtIsLexable(ar, expr, Semicolon, toks, cur, n);
  }

  lemma {:induction false} ParamsAtAreLexable(ar: Arith, params: seq<Token>, toks: seq<Token>, cur: nat)
    requires Lexed(ar, toks) && ParamsAt(params, toks, cur)
    ensures forall p | p in params :: LP.Lexable(ar, p)
    decreases |params|
  {
    hide LP.Lexable;
    if |params| > 1 {
      ParamsAtAreLexable(ar, params[1..], toks, cur + 2);
      assert params == [params[0]] + params[1..];
    }
  }

  lemma {:induction false} StmtAtIsLexable(ar: Arith, s: Stmt, toks: seq<Token>, cur: nat, n: nat)
    requires Lexed(ar, toks) && StmtAt(s, toks, cur, n)
    ensures LexableStmt(ar, s)
    decreases s, 1
  {
    hide LexableExpr, LexableStmts, ExprAt, VarAt, BlockAt, Lexed, LP.Lexable;
    match s
    case ExprStmt(expr) =>
      if expr.NoExpr? { MissingIsLexable(ar); } else { ExprAtIsLexable(ar, expr, Semicolon, toks, cur, n); }
    case VarDecl(name, init) => VarAtIsLexable(ar, name, init, toks, cur + 1, n);
    case FuncDecl(_, _, _) => FuncAtIsLexable(ar, s, toks, cur, n);
    case Block(stmts) => BlockAtIsLexable(ar, stmts, toks, cur, n);
    case IfStmt(_, _, _) => IfAtIsLexable(ar, s, toks, cur, n);
    case WhileStmt(_, _) =>
      var i := WhileParts(s, toks, cur, n);
      HeadAtIsLexable(ar, While, s.cond, toks, cur, i);
      StmtAtIsLexable(ar, s.loop, toks, i, n);
    case ForStmt(_, _, _, _) =>
      var i, j, k := ForParts(s, toks, cur, n);
      StartAtIsLexable(ar, s.start, toks, cur + 2, i);
      ExprAtIsLexable(ar, s.cond, Semicolon, toks, i, j);
      ExprAtIsLexable(ar, s.step, RParen, toks, j, k);
      StmtAtIsLexable(ar, s.loop, toks, k, n);
    case ReturnStmt(keyword, result) =>
      ExprAtIsLexable(ar, result, Semicolon, toks, cur + 1, n);
      LexedReturn(ar, result, toks, cur, n);
  }

  lemma MissingIsLexable(ar: Arith)
    ensures LexableExpr(ar, NoExpr)
  {
  }

  lemma LexedReturn(ar: Arith, e: Expr, toks: seq<Token>, cur: nat, n: nat)
    requires Lexed(ar, toks) && TokenAt(toks, cur, Return) && ExprAt(e, Semicolon, toks, cur + 1, n)
    ensures toks[cur] == Fixed(Return)
  {
    hide FitsAt, Spell, L.WordKind, LP.KeywordText, LP.IsWord, LP.IsNumeral;
    var t := toks[cur];
    assert LP.Lexable(ar, t) && LP.SymbolText(Return) == "";
    ReturnIsKeyword(t.lexeme);
  }

  lemma ReturnIsKeyword(word: string)
    ensures L.WordKind(word) == Return <==> word == LP.KeywordText(Return)
  {
    hide L.WordKind;
    LP.KeywordsAreTheirTexts(word, Return);
  }

  lemma {:induction false} IfAtIsLexable(ar: Arith, s: Stmt, toks: seq<Token>, cur: nat, n: nat)
    requires s.IfStmt? && Lexed(ar, toks) && StmtAt(s, toks, cur, n)
    ensures LexableStmt(ar, s)
    decreases s, 0
  {
    hide LexableExpr, HeadAt, StmtAt, Lexed;
    var i, j := IfParts(s, toks, cur, n);
    HeadAtIsLexable(ar, If, s.cond, toks, cur, i);
    StmtAtIsLexable(ar, s.thn, toks, i, j);
    if !s.els.NoStmt? { StmtAtIsLexable(ar, s.els, toks, j + 1, n); }
  }

  lemma {:induction false} FuncAtIsLexable(ar: Arith, s: Stmt, toks: seq<Token>, cur: nat, n: nat)
    requires s.FuncDecl? && Lexed(ar, toks) && StmtAt(s, toks, cur, n)
    ensures LexableStmt(ar, s)
    decreases s, 0
  {
    hide LexableStmts, StmtAt, ParamsAt, BlockAt, LP.Lexable;
    FuncParts(s, toks, cur, n);
    ParamsAtAreLexable(ar, s.params, toks, cur + 3);
    BlockAtIsLexable(ar, s.body, toks, cur + 3 + Width(s.params), n);
  }

  lemma {:induction false} BlockAtIsLexable(ar: Arith, stmts: seq<Stmt>, toks: seq<Token>, cur: nat, n: nat)
    requires Lexed(ar, toks) && BlockAt(stmts, toks, cur, n)
    ensures LexableStmts(ar, stmts)
    decreases stmts, 1
  {
    hide LexableStmts, StmtsAt, Lexed;
    StmtsAtAreLexable(ar, stmts, toks, cur + 1, n - 1);
  }

  /** A program that lexed tokens spell has only tokens and literals that the lexer makes. */
  lemma {:induction false} StmtsAtAreLexable(ar: Arith, stmts: seq<Stmt>, toks: seq<Token>, cur: nat, n: nat)
    requires Lexed(ar, toks) && StmtsAt(stmts, toks, cur, n)
    ensures LexableStmts(ar, stmts)
    decreases stmts, 0
  {
    hide LexableStmt, StmtAt, Lexed;
    if stmts != [] {
      var i := FirstOfStmts(stmts, toks, cur, n);
      StmtAtIsLexable(ar, stmts[0], toks, cur, i);
      StmtsAtAreLexable(ar, stmts[1..], toks, i, n);
    }
  }
}
