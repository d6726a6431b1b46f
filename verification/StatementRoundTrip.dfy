/**
 Which tokens spell which statement, said without reference to the parser, and that parsing undoes
 spelling for statements and whole programs.
 */
module StatementRoundTrip {
  import opened Syntax
  import opened Grammar
  import opened Spelling
  import opened ParserProgress
  import opened ParserRoundTrip

  // ----- The tokens of a statement: the relations say that they stand from `cur` up to `n` -----

  ghost predicate TokenAt(toks: seq<Token>, i: int, k: Kind) {
    0 <= i < |toks| && toks[i].kind == k
  }

  /** An expression and the token that ends it; nothing spells a missing expression. */
  ghost predicate ExprAt(e: Expr, stop: Kind, toks: seq<Token>, cur: nat, n: nat) {
    n == cur + |Spell(e)| + 1 && FitsAt(toks, cur, Spell(e)) && TokenAt(toks, n - 1, stop)
  }

  /** A declaration without initializer may have an equals sign all the same. */
  ghost predicate VarAt(name: Token, init: Expr, toks: seq<Token>, cur: nat, n: nat) {
    && cur + 1 < |toks| && toks[cur] == name
    && if toks[cur + 1].kind == Equal then ExprAt(init, Semicolon, toks, cur + 2, n)
       else init.NoExpr? && ExprAt(init, Semicolon, toks, cur + 1, n)
  }

  /** A keyword and a condition in parentheses. */
  ghost predicate HeadAt(keyword: Kind, cond: Expr, toks: seq<Token>, cur: nat, n: nat) {
    TokenAt(toks, cur, keyword) && TokenAt(toks, cur + 1, LParen) && ExprAt(cond, RParen, toks, cur + 2, n)
  }

  ghost predicate StartAt(start: Stmt, toks: seq<Token>, cur: nat, n: nat) {
    match start
    case NoStmt => TokenAt(toks, cur, Semicolon) && n == cur + 1
    case VarDecl(name, init) => TokenAt(toks, cur, Var) && VarAt(name, init, toks, cur + 1, n)
    case ExprStmt(expr) => ExprAt(expr, Semicolon, toks, cur, n)
    case _ => false
  }

  /** Parameters with commas between them, and a closing parenthesis. */
  ghost predicate ParamsAt(params: seq<Token>, toks: seq<Token>, cur: nat)
    decreases |params|
  {
    if params == [] then TokenAt(toks, cur, RParen)
    else
      && cur < |toks| && toks[cur] == params[0]
      && if |params| == 1 then TokenAt(toks, cur + 1, RParen)
         else TokenAt(toks, cur + 1, Comma) && ParamsAt(params[1..], toks, cur + 2)
  }

  /** How many tokens that is. */
  function Width(params: seq<Token>): nat {
    if params == [] then 1 else 2 * |params|
  }

  /** A statement without an expression has no tokens, not even a semicolon. */
  ghost predicate StmtAt(s: Stmt, toks: seq<Token>, cur: nat, n: nat)
    decreases s, 0
  {
    match s
    case NoStmt => false
    case ExprStmt(expr) => if expr.NoExpr? then n == cur else ExprAt(expr, Semicolon, toks, cur, n)
    case VarDecl(name, init) =>
      (TokenAt(toks, cur, Var) || TokenAt(toks, cur, Let)) && VarAt(name, init, toks, cur + 1, n)
    case FuncDecl(name, params, body) =>
      && TokenAt(toks, cur, Function) && TokenAt(toks, cur + 1, Identifier) && toks[cur + 1] == name
      && TokenAt(toks, cur + 2, LParen)
      && ParamsAt(params, toks, cur + 3) && BlockAt(body, toks, cur + 3 + Width(params), n)
    case Block(stmts) => BlockAt(stmts, toks, cur, n)
    case IfStmt(cond, thn, els) =>
      exists i: nat, j: nat ::
        && HeadAt(If, cond, toks, cur, i) && StmtAt(thn, toks, i, j)
        && if els.NoStmt? then n == j else TokenAt(toks, j, Else) && StmtAt(els, toks, j + 1, n)
    case WhileStmt(cond, loop) => exists i: nat :: HeadAt(While, cond, toks, cur, i) && StmtAt(loop, toks, i, n)
    case ForStmt(start, cond, step, loop) =>
      && TokenAt(toks, cur, For) && TokenAt(toks, cur + 1, LParen)
      && exists i: nat, j: nat, k: nat ::
           && StartAt(start, toks, cur + 2, i) && ExprAt(cond, Semicolon, toks, i, j)
           && ExprAt(step, RParen, toks, j, k) && StmtAt(loop, toks, k, n)
    case ReturnStmt(keyword, result) =>
      TokenAt(toks, cur, Return) && toks[cur] == keyword && ExprAt(result, Semicolon, toks, cur + 1, n)
  }

  ghost predicate BlockAt(stmts: seq<Stmt>, toks: seq<Token>, cur: nat, n: nat)
    decreases stmts, 1
  {
    TokenAt(toks, cur, LBrace) && n > 0 && TokenAt(toks, n - 1, RBrace) && StmtsAt(stmts, toks, cur + 1, n - 1)
  }

  ghost predicate StmtsAt(stmts: seq<Stmt>, toks: seq<Token>, cur: nat, n: nat)
    decreases stmts, 0
  {
    if stmts == [] then n == cur
    else exists i: nat :: StmtAt(stmts[0], toks, cur, i) && StmtsAt(stmts[1..], toks, i, n)
  }

  // ----- The statements that can be written -----

  predicate Empty(s: Stmt) {
    s == ExprStmt(NoExpr)
  }

  ghost predicate Complete(e: Expr) {
    Canonical(0, e) && Filled(e)
  }

  /** The statement ends with an if that an else could still join. */
  predicate OpenIf(s: Stmt) {
    match s
    case IfStmt(_, _, els) => els.NoStmt? || OpenIf(els)
    case WhileStmt(_, loop) => OpenIf(loop)
    case ForStmt(_, _, _, loop) => OpenIf(loop)
    case _ => false
  }

  /** The statement ends with one that is empty. */
  predicate EndsEmpty(s: Stmt) {
    match s
    case ExprStmt(expr) => expr.NoExpr?
    case IfStmt(_, thn, els) => if els.NoStmt? then EndsEmpty(thn) else EndsEmpty(els)
    case WhileStmt(_, loop) => EndsEmpty(loop)
    case ForStmt(_, _, _, loop) => EndsEmpty(loop)
    case _ => false
  }

  /** A token of this kind can follow the statement without becoming part of it. */
  predicate MayFollow(s: Stmt, k: Kind) {
    (OpenIf(s) ==> k != Else) && (EndsEmpty(s) ==> StartsNothing(k))
  }

  /**
   Variables are declared only where a declaration may stand, no else would go astray, and nothing
   but a variable stands after a statement that ends with an empty one.
   */
  ghost predicate Writable(s: Stmt, decl: bool)
    decreases s
  {
    match s
    case NoStmt => false
    case ExprStmt(expr) => Complete(expr)
    case VarDecl(name, init) => decl && name.kind == Identifier && Complete(init)
    case FuncDecl(name, params, body) =>
      && name.kind == Identifier && |params| <= MAX_ARGS
      && (forall p | p in params :: p.kind == Identifier)
      && AllWritable(body)
    case Block(stmts) => AllWritable(stmts)
    case IfStmt(cond, thn, els) =>
      && Complete(cond) && Writable(thn, false)
      && (els.NoStmt? || (Writable(els, false) && !OpenIf(thn)))
    case WhileStmt(cond, loop) => Complete(cond) && Writable(loop, false)
    case ForStmt(start, cond, step, loop) =>
      && WritableStart(start) && Complete(cond) && Complete(step) && Writable(loop, false)
    case ReturnStmt(keyword, result) => keyword.kind == Return && Complete(result)
  }

  ghost predicate WritableStart(start: Stmt) {
    match start
    case NoStmt => true
    case VarDecl(name, init) => name.kind == Identifier && Complete(init)
    case ExprStmt(expr) => Complete(expr) && !expr.NoExpr?
    case _ => false
  }

  ghost predicate AllWritable(stmts: seq<Stmt>)
    decreases stmts
  {
    || stmts == []
    || (Writable(stmts[0], true) && !Empty(stmts[0]) && Parted(stmts) && AllWritable(stmts[1..]))
  }

  predicate Parted(stmts: seq<Stmt>)
    requires stmts != []
  {
    EndsEmpty(stmts[0]) && |stmts| > 1 ==> stmts[1].VarDecl?
  }

  // ----- Reading back the parts of a statement -----

  /** An expression up to the token that ends it. */
  lemma ExprReadBack(e: Expr, stop: Kind, toks: seq<Token>, cur: nat, n: nat)
    requires Terminated(toks) && Complete(e) && (stop == Semicolon || stop == RParen)
    requires ExprAt(e, stop, toks, cur, n) && n < |toks|
    ensures cur <= n - 1 && ParseExpr(toks, cur) == Ok(e, n - 1)
    ensures toks[cur].kind == stop <==> e.NoExpr?
  {
    hide ParseExpr, Canonical, Filled, FitsAt, Spares, Spell, Terminated;
    EndSpares(0, e, stop);
    FirstTokenAt(0, e, toks, cur);
    NoneStarts(stop);
    ReadBackExpr(e, toks, cur);
  }

  lemma NoneStarts(k: Kind)
    requires k == Semicolon || k == RParen
    ensures !StartsOperand(0, k) && OpLevel(k) == 0 && Stops(0, k)
  {
  }

  lemma OptionalReadBack(e: Expr, stop: Kind, toks: seq<Token>, cur: nat, n: nat)
    requires Terminated(toks) && Complete(e) && (stop == Semicolon || stop == RParen)
    requires ExprAt(e, stop, toks, cur, n) && n < |toks|
    ensures ParseOptional(toks, cur, stop) == Ok(e, n)
  {
    hide ParseExpr, Complete, FitsAt;
    ExprReadBack(e, stop, toks, cur, n);
  }

  lemma HeadReadBack(keyword: Kind, cond: Expr, toks: seq<Token>, cur: nat, n: nat)
    requires Terminated(toks) && Complete(cond) && HeadAt(keyword, cond, toks, cur, n) && n < |toks|
    ensures cur + 1 < n && toks[cur].kind == keyword && ParseCondition(toks, cur + 1) == Ok(cond, n)
  {
    hide ParseExpr, Complete, FitsAt;
    ExprReadBack(cond, RParen, toks, cur + 2, n);
  }

  lemma VarReadBack(name: Token, init: Expr, toks: seq<Token>, cur: nat, n: nat)
    requires Terminated(toks) && name.kind == Identifier && Complete(init)
    requires VarAt(name, init, toks, cur, n) && n < |toks|
    ensures cur < n && ParseVarDecl(toks, cur) == Ok(VarDecl(name, init), n)
  {
    hide FitsAt, Complete, ParseExpr;
    if toks[cur + 1].kind == Equal {
      ExprReadBack(init, Semicolon, toks, cur + 2, n);
    }
  }

  /** Kinds of tokens that can stand before, after or between statements. */
  predicate Bounds(k: Kind) {
    StartsKeyword(k) || k == Var || k == Let || k == Else || k == RBrace || k == Semicolon || k == Eof
  }

  lemma NoOperand(k: Kind)
    requires Bounds(k)
    ensures OpLevel(k) == 0 && !StartsOperand(0, k) && k != Equal
  {
    hide StartsOperand;
    NoOperandStarts(k);
  }

  lemma NoOperandStarts(k: Kind)
    requires Bounds(k)
    ensures !StartsOperand(0, k)
  {
  }

  lemma ExprStmtReadBack(e: Expr, toks: seq<Token>, cur: nat, n: nat)
    requires Terminated(toks) && Complete(e) && !e.NoExpr? && ExprAt(e, Semicolon, toks, cur, n) && n < |toks|
    ensures cur < n && ParseExprStmt(toks, cur) == Ok(ExprStmt(e), n)
    ensures !StartsKeyword(toks[cur].kind) && toks[cur].kind != Semicolon && toks[cur].kind != Var
  {
    hide Complete, ParseExpr, StartsOperand, StartsKeyword, OpLevel, FitsAt, Terminated;
    ExprReadBack(e, Semicolon, toks, cur, n);
    EmptyExpression(toks, cur);
    if Bounds(toks[cur].kind) { NoOperand(toks[cur].kind); }
  }

  lemma StartReadBack(start: Stmt, toks: seq<Token>, cur: nat, n: nat)
    requires Terminated(toks) && WritableStart(start) && StartAt(start, toks, cur, n) && n < |toks|
    ensures cur < n && ParseForStart(toks, cur) == Ok(start, n)
  {
    hide ParseExprStmt, ParseVarDecl, Complete, ExprAt, VarAt;
    match start
    case NoStmt =>
    case VarDecl(name, init) => VarReadBack(name, init, toks, cur + 1, n);
    case ExprStmt(e) => ExprStmtReadBack(e, toks, cur, n);
  }

  lemma {:induction false} ParamsReadBack(done: seq<Token>, params: seq<Token>, toks: seq<Token>, cur: nat)
    requires Terminated(toks) && params != [] && |done| + |params| <= MAX_ARGS
    requires (forall p | p in params :: p.kind == Identifier) && ParamsAt(params, toks, cur)
    requires cur + Width(params) < |toks|
    ensures ParseParams(toks, done, cur) == Ok(done + params, cur + Width(params) - 1)
    ensures toks[cur].kind == Identifier && toks[cur + Width(params) - 1].kind == RParen
    decreases |params|
  {
    hide ParseParams, Terminated;
    var p := params[0];
    ParamStep(toks, cur, done, p);
    if |params| == 1 {
      assert done + [p] == done + params;
    } else {
      ParamsReadBack(done + [p], params[1..], toks, cur + 2);
      assert done + [p] + params[1..] == done + params;
    }
  }

  lemma ParamStep(toks: seq<Token>, cur: nat, done: seq<Token>, p: Token)
    requires At(toks, cur + 1) && toks[cur] == p && p.kind == Identifier && |done| < MAX_ARGS
    ensures ParseParams(toks, done, cur) ==
            if toks[cur + 1].kind == Comma then ParseParams(toks, done + [p], cur + 2) else Ok(done + [p], cur + 1)
  {
  }

  // ----- Statements -----

  /** `s` is spelled from `cur` up to `n`, and no token follows that it would take. */
  ghost predicate Ahead(s: Stmt, toks: seq<Token>, cur: nat, n: nat) {
    Terminated(toks) && StmtAt(s, toks, cur, n) && n < |toks| && MayFollow(s, toks[n].kind)
  }

  /** What reading a statement back means. */
  ghost predicate ReadsBack(s: Stmt, toks: seq<Token>, cur: nat, n: nat)
    requires Terminated(toks)
  {
    cur <= n < |toks| && ParseStmt(toks, cur) == Ok(s, n)
  }

  /** A statement is read back wherever it is spelled, and exactly its tokens are consumed. */
  lemma {:induction false} StmtReadBack(s: Stmt, toks: seq<Token>, cur: nat, n: nat)
    requires Writable(s, false) && Ahead(s, toks, cur, n)
    ensures ReadsBack(s, toks, cur, n)
    decreases s, 2
  {
    hide ParseStmt, StmtAt, Writable, MayFollow;
    match s
    case NoStmt => NotWritable(s);
    case VarDecl(_, _) => NotWritable(s);
    case ExprStmt(_) => SimpleReadBack(s, toks, cur, n);
    case FuncDecl(_, _, _) => FuncReadBack(s, toks, cur, n);
    case Block(_) => BlockStmtReadBack(s, toks, cur, n);
    case IfStmt(_, _, _) => IfReadBack(s, toks, cur, n);
    case WhileStmt(_, _) => WhileReadBack(s, toks, cur, n);
    case ForStmt(_, _, _, _) => ForReadBack(s, toks, cur, n);
    case ReturnStmt(_, _) => SimpleReadBack(s, toks, cur, n);
  }

  lemma NotWritable(s: Stmt)
    requires s.NoStmt? || s.VarDecl?
    ensures !Writable(s, false)
  {
  }

  lemma SimpleReadBack(s: Stmt, toks: seq<Token>, cur: nat, n: nat)
    requires (s.ExprStmt? || s.ReturnStmt?) && Writable(s, false) && Ahead(s, toks, cur, n)
    ensures ReadsBack(s, toks, cur, n)
  {
    hide ParseStmt, ParseExprStmt, ParseOptional, Complete, ExprAt, StartsNothing, StartsKeyword, Terminated;
    if s.ReturnStmt? {
      OptionalReadBack(s.result, Semicolon, toks, cur + 1, n);
      ReturnParsed(s, toks, cur, n);
    } else if s.expr.NoExpr? {
      EmptyStatement(toks, cur);
    } else {
      ExprStmtReadBack(s.expr, toks, cur, n);
      DispatchExpr(toks, cur);
    }
  }

  lemma ReturnParsed(s: Stmt, toks: seq<Token>, cur: nat, n: nat)
    requires s.ReturnStmt? && At(toks, cur) && toks[cur] == s.keyword && s.keyword.kind == Return
    requires At(toks, cur + 1) && ParseOptional(toks, cur + 1, Semicolon) == Ok(s.result, n)
    ensures ParseStmt(toks, cur) == Ok(s, n)
  {
    hide ParseStmt, ParseOptional;
    Dispatch(toks, cur);
  }

  lemma {:induction false} BlockStmtReadBack(s: Stmt, toks: seq<Token>, cur: nat, n: nat)
    requires s.Block? && Writable(s, false) && Ahead(s, toks, cur, n)
    ensures ReadsBack(s, toks, cur, n)
    decreases s, 1
  {
    hide ParseStmt, ParseBlock, BlockAt, AllWritable;
    BlockReadBack(s.stmts, toks, cur, n);
    DispatchBlock(toks, cur);
  }

  /** The first token of a declaration: one that an empty statement before it leaves alone, or not. */
  ghost predicate StartsDecl(s: Stmt, k: Kind) {
    k != Else && k != RBrace && k != Eof && (s.VarDecl? ==> StartsNothing(k))
  }

  lemma {:induction false} DeclReadBack(s: Stmt, toks: seq<Token>, cur: nat, n: nat)
    requires Writable(s, true) && !Empty(s) && Ahead(s, toks, cur, n)
    ensures cur < n && ParseDecl(toks, cur) == Ok(s, n) && StartsDecl(s, toks[cur].kind)
    decreases s, 3
  {
    hide ParseStmt, ParseDecl, StmtAt, Writable, MayFollow, StartsNothing;
    if s.VarDecl? {
      VarDeclReadBack(s, toks, cur, n);
    } else {
      OnlyVarDeclared(s);
      StmtReadBack(s, toks, cur, n);
      DispatchDecl(toks, cur);
      if Bounds(toks[cur].kind) && !StartsKeyword(toks[cur].kind) { NothingStarts(toks[cur].kind); }
      EmptyStatement(toks, cur);
    }
  }

  lemma NothingStarts(k: Kind)
    requires Bounds(k) && !StartsKeyword(k)
    ensures StartsNothing(k)
  {
    hide OpLevel, StartsOperand, StartsKeyword;
    NoOperand(k);
  }

  lemma VarDeclReadBack(s: Stmt, toks: seq<Token>, cur: nat, n: nat)
    requires s.VarDecl? && Writable(s, true) && Ahead(s, toks, cur, n)
    ensures cur < n && ParseDecl(toks, cur) == Ok(s, n) && StartsDecl(s, toks[cur].kind)
  {
    hide ParseDecl, ParseVarDecl, VarAt, Complete, StartsNothing, MayFollow, Terminated;
    NothingStarts(toks[cur].kind);
    DispatchDecl(toks, cur);
    VarReadBack(s.name, s.init, toks, cur + 1, n);
  }

  lemma OnlyVarDeclared(s: Stmt)
    requires !s.VarDecl? && Writable(s, true)
    ensures Writable(s, false)
  {
  }

  lemma {:induction false} IfReadBack(s: Stmt, toks: seq<Token>, cur: nat, n: nat)
    requires s.IfStmt? && Writable(s, false) && Ahead(s, toks, cur, n)
    ensures ReadsBack(s, toks, cur, n)
    decreases s, 1
  {
    hide StartsNothing, Terminated;
    hide ParseStmt, ParseIf, ParseCondition, Complete, HeadAt, StmtAt;
    var i, j := IfParts(s, toks, cur, n);
    if !s.els.NoStmt? { StmtReadBack(s.els, toks, j + 1, n); }
    NothingStarts(Else);
    StmtReadBack(s.thn, toks, i, j);
    HeadReadBack(If, s.cond, toks, cur, i);
    IfParsed(s, toks, cur + 1, i, j, n);
    Dispatch(toks, cur);
  }

  lemma IfParts(s: Stmt, toks: seq<Token>, cur: nat, n: nat) returns (i: nat, j: nat)
    requires s.IfStmt? && StmtAt(s, toks, cur, n)
    ensures HeadAt(If, s.cond, toks, cur, i) && StmtAt(s.thn, toks, i, j)
    ensures if s.els.NoStmt? then n == j else TokenAt(toks, j, Else) && StmtAt(s.els, toks, j + 1, n)
  {
    i, j :|
      && HeadAt(If, s.cond, toks, cur, i) && StmtAt(s.thn, toks, i, j)
      && if s.els.NoStmt? then n == j else TokenAt(toks, j, Else) && StmtAt(s.els, toks, j + 1, n);
  }

  lemma IfParsed(s: Stmt, toks: seq<Token>, cur: nat, i: nat, j: nat, n: nat)
    requires s.IfStmt? && At(toks, cur) && At(toks, i) && At(toks, j)
    requires ParseCondition(toks, cur) == Ok(s.cond, i) && ParseStmt(toks, i) == Ok(s.thn, j)
    requires if s.els.NoStmt? then n == j && toks[j].kind != Else
             else toks[j].kind == Else && At(toks, j + 1) && ParseStmt(toks, j + 1) == Ok(s.els, n)
    ensures ParseIf(toks, cur) == Ok(s, n)
  {
    hide ParseCondition, ParseStmt, Terminated;
  }

  lemma {:induction false} WhileReadBack(s: Stmt, toks: seq<Token>, cur: nat, n: nat)
    requires s.WhileStmt? && Writable(s, false) && Ahead(s, toks, cur, n)
    ensures ReadsBack(s, toks, cur, n)
    decreases s, 1
  {
    hide ParseStmt, ParseWhile, ParseCondition, Complete, HeadAt, StmtAt, StartsNothing, Terminated;
    var i := WhileParts(s, toks, cur, n);
    StmtReadBack(s.loop, toks, i, n);
    HeadReadBack(While, s.cond, toks, cur, i);
    WhileParsed(s, toks, cur + 1, i, n);
    Dispatch(toks, cur);
  }

  lemma WhileParts(s: Stmt, toks: seq<Token>, cur: nat, n: nat) returns (i: nat)
    requires s.WhileStmt? && StmtAt(s, toks, cur, n)
    ensures HeadAt(While, s.cond, toks, cur, i) && StmtAt(s.loop, toks, i, n)
  {
    i :| HeadAt(While, s.cond, toks, cur, i) && StmtAt(s.loop, toks, i, n);
  }

  lemma WhileParsed(s: Stmt, toks: seq<Token>, cur: nat, i: nat, n: nat)
    requires s.WhileStmt? && At(toks, cur) && At(toks, i)
    requires ParseCondition(toks, cur) == Ok(s.cond, i) && ParseStmt(toks, i) == Ok(s.loop, n)
    ensures ParseWhile(toks, cur) == Ok(s, n)
  {
    hide ParseCondition, ParseStmt, Terminated;
  }

  lemma {:induction false} ForReadBack(s: Stmt, toks: seq<Token>, cur: nat, n: nat)
    requires s.ForStmt? && Writable(s, false) && Ahead(s, toks, cur, n)
    ensures ReadsBack(s, toks, cur, n)
    decreases s, 1
  {
    hide StartsNothing, Terminated;
    hide ParseStmt, ParseFor, ParseForStart, ParseOptional, Complete, WritableStart, StartAt, ExprAt, StmtAt;
    var i, j, k := ForParts(s, toks, cur, n);
    StmtReadBack(s.loop, toks, k, n);
    OptionalReadBack(s.step, RParen, toks, j, k);
    OptionalReadBack(s.cond, Semicolon, toks, i, j);
    StartReadBack(s.start, toks, cur + 2, i);
    ForParsed(s, toks, cur + 1, i, j, k, n);
    Dispatch(toks, cur);
  }

  lemma ForParts(s: Stmt, toks: seq<Token>, cur: nat, n: nat) returns (i: nat, j: nat, k: nat)
    requires s.ForStmt? && StmtAt(s, toks, cur, n)
    ensures TokenAt(toks, cur, For) && TokenAt(toks, cur + 1, LParen) && StartAt(s.start, toks, cur + 2, i)
    ensures ExprAt(s.cond, Semicolon, toks, i, j) && ExprAt(s.step, RParen, toks, j, k) && StmtAt(s.loop, toks, k, n)
  {
    i, j, k :|
      && StartAt(s.start, toks, cur + 2, i) && ExprAt(s.cond, Semicolon, toks, i, j)
      && ExprAt(s.step, RParen, toks, j, k) && StmtAt(s.loop, toks, k, n);
  }

  lemma ForParsed(s: Stmt, toks: seq<Token>, cur: nat, i: nat, j: nat, k: nat, n: nat)
    requires s.ForStmt? && At(toks, cur) && toks[cur].kind == LParen
    requires At(toks, cur + 1) && ParseForStart(toks, cur + 1) == Ok(s.start, i)
    requires At(toks, i) && ParseOptional(toks, i, Semicolon) == Ok(s.cond, j)
    requires At(toks, j) && ParseOptional(toks, j, RParen) == Ok(s.step, k)
    requires At(toks, k) && ParseStmt(toks, k) == Ok(s.loop, n)
    ensures ParseFor(toks, cur) == Ok(s, n)
  {
    hide ParseForStart, ParseOptional, ParseStmt, Terminated;
  }

  lemma {:induction false} FuncReadBack(s: Stmt, toks: seq<Token>, cur: nat, n: nat)
    requires s.FuncDecl? && Writable(s, false) && Ahead(s, toks, cur, n)
    ensures ReadsBack(s, toks, cur, n)
    decreases s, 1
  {
    hide StartsNothing, Terminated;
    hide ParseStmt, ParseBlock, ParseParams, ParseFuncDecl, ParamsAt, BlockAt, StmtAt;
    FuncParts(s, toks, cur, n);
    var i := cur + 3 + Width(s.params);
    BlockReadBack(s.body, toks, i, n);
    if s.params == [] {
      assert ParamsAt([], toks, cur + 3);
      NoParams(toks, cur + 3);
    } else {
      ParamsReadBack([], s.params, toks, cur + 3);
      assert [] + s.params == s.params;
    }
    FuncParsed(s, toks, cur + 1, i, n);
    Dispatch(toks, cur);
  }

  lemma FuncParts(s: Stmt, toks: seq<Token>, cur: nat, n: nat)
    requires s.FuncDecl? && StmtAt(s, toks, cur, n)
    ensures TokenAt(toks, cur, Function) && TokenAt(toks, cur + 1, Identifier) && toks[cur + 1] == s.name
    ensures TokenAt(toks, cur + 2, LParen) && ParamsAt(s.params, toks, cur + 3)
    ensures BlockAt(s.body, toks, cur + 3 + Width(s.params), n)
  {
    hide ParamsAt, BlockAt, TokenAt;
  }

  lemma FuncParsed(s: Stmt, toks: seq<Token>, cur: nat, i: nat, n: nat)
    requires s.FuncDecl? && 0 < i && At(toks, cur) && At(toks, cur + 2) && At(toks, i + 1)
    requires toks[cur] == s.name && s.name.kind == Identifier && toks[cur + 1].kind == LParen
    requires (if toks[cur + 2].kind == RParen then Ok([], cur + 2) else ParseParams(toks, [], cur + 2)) ==
             Ok(s.params, i - 1)
    requires toks[i - 1].kind == RParen && toks[i].kind == LBrace
    requires ParseBlock(toks, i + 1) == Ok(s.body, n)
    ensures ParseFuncDecl(toks, cur) == Ok(s, n)
  {
    hide ParseBlock, ParseParams, Terminated;
  }

  lemma NoParams(toks: seq<Token>, cur: nat)
    requires ParamsAt([], toks, cur)
    ensures TokenAt(toks, cur, RParen)
  {
  }

  lemma {:induction false} BlockReadBack(stmts: seq<Stmt>, toks: seq<Token>, cur: nat, n: nat)
    requires Terminated(toks) && AllWritable(stmts) && BlockAt(stmts, toks, cur, n) && n < |toks|
    ensures cur + 1 < n && toks[cur].kind == LBrace && ParseBlock(toks, cur + 1) == Ok(stmts, n)
    decreases stmts, 1
  {
    hide ParseDecls, StartsDecl, AllWritable, StmtsAt;
    StmtsReadBack(true, [], stmts, toks, cur + 1, n - 1);
    assert [] + stmts == stmts;
  }

  /** The loop over declarations, from the point where it has read `done`. */
  lemma {:induction false} StmtsReadBack(inBlock: bool, done: seq<Stmt>, stmts: seq<Stmt>,
                                         toks: seq<Token>, cur: nat, n: nat)
    requires Terminated(toks) && AllWritable(stmts) && StmtsAt(stmts, toks, cur, n) && n < |toks|
    requires toks[n].kind == Eof || (inBlock && toks[n].kind == RBrace)
    ensures cur <= n && ParseDecls(toks, inBlock, done, cur) == Ok(done + stmts, n)
    ensures if stmts == [] then n == cur else StartsDecl(stmts[0], toks[cur].kind)
    decreases stmts, 0
  {
    hide ParseDecl, ParseDecls, StmtAt, Writable, MayFollow, StartsDecl, Parted, Terminated;
    if stmts == [] {
      EndOfDecls(toks, inBlock, done, cur);
      assert done + stmts == done;
    } else {
      var i := FirstOfStmts(stmts, toks, cur, n);
      StmtsReadBack(inBlock, done + [stmts[0]], stmts[1..], toks, i, n);
      NextMayFollow(stmts, toks[i].kind);
      DeclReadBack(stmts[0], toks, cur, i);
      DeclStep(toks, inBlock, done, cur, stmts[0], i);
      assert done + [stmts[0]] + stmts[1..] == done + stmts;
    }
  }

  lemma FirstOfStmts(stmts: seq<Stmt>, toks: seq<Token>, cur: nat, n: nat) returns (i: nat)
    requires stmts != [] && StmtsAt(stmts, toks, cur, n)
    ensures StmtAt(stmts[0], toks, cur, i) && StmtsAt(stmts[1..], toks, i, n)
  {
    hide StmtAt;
    i :| StmtAt(stmts[0], toks, cur, i) && StmtsAt(stmts[1..], toks, i, n);
  }

  lemma EndOfDecls(toks: seq<Token>, inBlock: bool, done: seq<Stmt>, cur: nat)
    requires At(toks, cur) && (toks[cur].kind == Eof || (inBlock && toks[cur].kind == RBrace))
    ensures ParseDecls(toks, inBlock, done, cur) == Ok(done, cur)
  {
    hide ParseDecl;
  }

  lemma DeclStep(toks: seq<Token>, inBlock: bool, done: seq<Stmt>, cur: nat, s: Stmt, n: nat)
    requires At(toks, cur) && At(toks, n) && cur < n && ParseDecl(toks, cur) == Ok(s, n)
    requires StartsDecl(s, toks[cur].kind)
    ensures ParseDecls(toks, inBlock, done, cur) == ParseDecls(toks, inBlock, done + [s], n)
  {
    hide ParseDecl, StartsNothing;
  }

  lemma NextMayFollow(stmts: seq<Stmt>, k: Kind)
    requires stmts != [] && Parted(stmts)
    requires if |stmts| == 1 then k == Eof || k == RBrace else StartsDecl(stmts[1], k)
    ensures MayFollow(stmts[0], k)
  {
    hide EndsEmpty, OpenIf, StartsNothing;
    if Bounds(k) && !StartsKeyword(k) { NothingStarts(k); }
  }

  /** A program is read back from any tokens that spell it. */
  lemma ProgramReadBack(stmts: seq<Stmt>, toks: seq<Token>, n: nat)
    requires Terminated(toks) && AllWritable(stmts) && StmtsAt(stmts, toks, 0, n) && TokenAt(toks, n, Eof)
    ensures ParseProgram(toks, 0) == Ok(stmts, n)
  {
    hide ParseDecls, StmtsAt;
    StmtsReadBack(false, [], stmts, toks, 0, n);
    assert [] + stmts == stmts;
  }

  /**
   The two readings of `if (a) if (b) t else e` have the same tokens, and the parser takes the one
   where the else belongs to the inner if.
   */
  lemma ElseBelongsToNearestIf(a: Expr, b: Expr, t: Stmt, e: Stmt, toks: seq<Token>, cur: nat, n: nat)
    requires Complete(a) && Complete(b) && Writable(t, false) && Writable(e, false) && !OpenIf(t)
    requires Ahead(IfStmt(a, IfStmt(b, t, NoStmt), e), toks, cur, n) && toks[n].kind != Else
    ensures var inner := IfStmt(a, IfStmt(b, t, e), NoStmt);
            StmtAt(inner, toks, cur, n) && ParseStmt(toks, cur) == Ok(inner, n)
  {
    hide ParseStmt, Complete, HeadAt, StmtAt, StartsNothing, Terminated;
    var short, long := IfStmt(b, t, NoStmt), IfStmt(b, t, e);
    var outer, inner := IfStmt(a, short, e), IfStmt(a, long, NoStmt);
    var i, j := IfParts(outer, toks, cur, n);
    var k, l := IfParts(short, toks, i, j);
    IfAt(long, toks, i, k, j, n);
    IfAt(inner, toks, cur, i, n, n);
    assert Writable(long, false) && EndsEmpty(long) == EndsEmpty(e) == EndsEmpty(outer);
    IfReadBack(inner, toks, cur, n);
  }

  lemma IfAt(s: Stmt, toks: seq<Token>, cur: nat, i: nat, j: nat, n: nat)
    requires s.IfStmt? && HeadAt(If, s.cond, toks, cur, i) && StmtAt(s.thn, toks, i, j)
    requires if s.els.NoStmt? then n == j else TokenAt(toks, j, Else) && StmtAt(s.els, toks, j + 1, n)
    ensures StmtAt(s, toks, cur, n)
  {
    hide HeadAt, TokenAt;
  }

  lemma WhileAt(s: Stmt, toks: seq<Token>, cur: nat, i: nat, n: nat)
    requires s.WhileStmt? && HeadAt(While, s.cond, toks, cur, i) && StmtAt(s.loop, toks, i, n)
    ensures StmtAt(s, toks, cur, n)
  {
    hide HeadAt;
  }

  lemma ForAt(s: Stmt, toks: seq<Token>, cur: nat, i: nat, j: nat, k: nat, n: nat)
    requires s.ForStmt? && TokenAt(toks, cur, For) && TokenAt(toks, cur + 1, LParen)
    requires StartAt(s.start, toks, cur + 2, i) && ExprAt(s.cond, Semicolon, toks, i, j)
    requires ExprAt(s.step, RParen, toks, j, k) && StmtAt(s.loop, toks, k, n)
    ensures StmtAt(s, toks, cur, n)
  {
    hide StartAt, ExprAt, TokenAt;
  }

  lemma FuncAt(s: Stmt, toks: seq<Token>, cur: nat, n: nat)
    requires s.FuncDecl? && TokenAt(toks, cur, Function) && TokenAt(toks, cur + 1, Identifier)
    requires toks[cur + 1] == s.name && TokenAt(toks, cur + 2, LParen)
    requires ParamsAt(s.params, toks, cur + 3) && BlockAt(s.body, toks, cur + 3 + Width(s.params), n)
    ensures StmtAt(s, toks, cur, n)
  {
    hide ParamsAt, BlockAt, TokenAt;
  }
}
