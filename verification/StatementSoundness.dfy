/**
 What every successful parse of statements returns: exactly the consumed tokens spell the statement,
 no else has passed over an open if, and no token follows that the statement would have taken.  With
 the reading back of StatementRoundTrip.dfy this says exactly which programs the parser returns.
 */
module StatementSoundness {
  import opened Syntax
  import opened Grammar
  import opened Spelling
  import opened ParserProgress
  import opened ParserSoundness
  import opened StatementRoundTrip

  /** No else stands after a branch that ends with an if it could have joined, at any depth. */
  predicate Nested(s: Stmt) {
    match s
    case IfStmt(_, thn, els) => (els.NoStmt? || !OpenIf(thn)) && Nested(thn) && Nested(els)
    case WhileStmt(_, loop) => Nested(loop)
    case ForStmt(_, _, _, loop) => Nested(loop)
    case FuncDecl(_, _, body) => AllNested(body)
    case Block(stmts) => AllNested(stmts)
    case _ => true
  }

  predicate AllNested(stmts: seq<Stmt>) {
    stmts == [] || (Nested(stmts[0]) && AllNested(stmts[1..]))
  }

  /** What is promised of a statement that was read from `cur` up to `n`. */
  ghost predicate SoundStmt(s: Stmt, decl: bool, toks: seq<Token>, cur: nat, n: nat) {
    cur <= n && Writable(s, decl) && Ahead(s, toks, cur, n)
  }

  // ----- The parts of statements -----

  lemma ExprAtIsSound(stop: Kind, toks: seq<Token>, cur: nat)
    requires At(toks, cur) && ParseExpr(toks, cur).Ok?
    ensures var r := ParseExpr(toks, cur);
            Complete(r.value) && (toks[r.next].kind == stop ==> ExprAt(r.value, stop, toks, cur, r.next + 1))
  {
    hide ParseExpr, Canonical, FitsAt, Spell, Filled, Spares;
    ExprIsSound(toks, cur);
  }

  lemma OptionalIsSound(stop: Kind, toks: seq<Token>, cur: nat)
    requires At(toks, cur) && (stop == Semicolon || stop == RParen) && ParseOptional(toks, cur, stop).Ok?
    ensures var r := ParseOptional(toks, cur, stop);
            ExprAt(r.value, stop, toks, cur, r.next) && Complete(r.value)
  {
    hide ParseExpr, FitsAt, Terminated, Complete, ExprAt;
    if toks[cur].kind == stop {
      MissingAt(stop, toks, cur);
    } else {
      ExprAtIsSound(stop, toks, cur);
    }
  }

  lemma MissingAt(stop: Kind, toks: seq<Token>, cur: nat)
    requires TokenAt(toks, cur, stop)
    ensures ExprAt(NoExpr, stop, toks, cur, cur + 1) && Complete(NoExpr)
  {
  }

  lemma HeadIsSound(keyword: Kind, toks: seq<Token>, cur: nat)
    requires At(toks, cur) && toks[cur].kind == keyword && cur + 1 < |toks| && ParseCondition(toks, cur + 1).Ok?
    ensures var r := ParseCondition(toks, cur + 1);
            HeadAt(keyword, r.value, toks, cur, r.next) && Complete(r.value)
  {
    hide ParseExpr, Complete, ExprAt;
    ExprAtIsSound(RParen, toks, cur + 2);
  }

  lemma VarIsSound(toks: seq<Token>, cur: nat)
    requires At(toks, cur) && ParseVarDecl(toks, cur).Ok?
    ensures var r := ParseVarDecl(toks, cur);
            && r.value.VarDecl? && r.value.name.kind == Identifier
            && VarAt(r.value.name, r.value.init, toks, cur, r.next) && Complete(r.value.init)
  {
    hide ParseExpr, Complete, ExprAt;
    if toks[cur + 1].kind == Equal {
      ExprAtIsSound(Semicolon, toks, cur + 2);
    } else {
      MissingAt(Semicolon, toks, cur + 1);
    }
  }

  lemma ExprStmtIsSound(toks: seq<Token>, cur: nat)
    requires At(toks, cur) && ParseExprStmt(toks, cur).Ok?
    ensures var r := ParseExprStmt(toks, cur);
            && r.value.ExprStmt? && Complete(r.value.expr)
            && if r.value.expr.NoExpr? then r.next == cur && ParseExpr(toks, cur) == Ok(NoExpr, cur)
               else ExprAt(r.value.expr, Semicolon, toks, cur, r.next)
  {
    hide ParseExpr, Complete, ExprAt;
    ExprAtIsSound(Semicolon, toks, cur);
    EmptyExpression(toks, cur);
  }

  /** The start of a for statement is not empty, since no semicolon could follow. */
  lemma StartIsSound(toks: seq<Token>, cur: nat)
    requires At(toks, cur) && ParseForStart(toks, cur).Ok?
    requires ParseOptional(toks, ParseForStart(toks, cur).next, Semicolon).Ok?
    ensures var r := ParseForStart(toks, cur); StartAt(r.value, toks, cur, r.next) && WritableStart(r.value)
  {
    hide ParseExpr, ParseExprStmt, ParseVarDecl, Complete, ExprAt, VarAt;
    match toks[cur].kind
    case Semicolon =>
    case Var => VarIsSound(toks, cur + 1);
    case _ => ExprStmtIsSound(toks, cur);
  }

  lemma {:induction false} ParamsAreSound(done: seq<Token>, toks: seq<Token>, cur: nat) returns (params: seq<Token>)
    requires At(toks, cur) && ParseParams(toks, done, cur).Ok?
    ensures params != [] && |done| + |params| <= MAX_ARGS && forall p | p in params :: p.kind == Identifier
    ensures ParseParams(toks, done, cur) == Ok(done + params, cur + Width(params) - 1)
    ensures TokenAt(toks, cur + Width(params) - 1, RParen) ==> ParamsAt(params, toks, cur)
    decreases |toks| - cur
  {
    ParamPieces(done, toks, cur);
    hide ParseParams;
    var p := toks[cur];
    params := [p];
    if toks[cur + 1].kind == Comma {
      var rest := ParamsAreSound(done + [p], toks, cur + 2);
      assert done + [p] + rest == done + ([p] + rest);
      params := [p] + rest;
      assert params[1..] == rest;
    }
  }

  lemma ParamPieces(done: seq<Token>, toks: seq<Token>, cur: nat)
    requires At(toks, cur) && ParseParams(toks, done, cur).Ok?
    ensures |done| < MAX_ARGS && toks[cur].kind == Identifier && cur + 1 < |toks|
    ensures ParseParams(toks, done, cur) ==
            if toks[cur + 1].kind != Comma then Ok(done + [toks[cur]], cur + 1)
            else if cur + 2 < |toks| then ParseParams(toks, done + [toks[cur]], cur + 2)
            else Err(Unexpected)
  {
  }

  lemma NoParamsAt(toks: seq<Token>, cur: nat)
    requires TokenAt(toks, cur, RParen)
    ensures ParamsAt([], toks, cur)
  {
  }

  lemma ParamListIsSound(toks: seq<Token>, cur: nat) returns (params: seq<Token>)
    requires At(toks, cur)
    requires var r := if toks[cur].kind == RParen then Ok([], cur) else ParseParams(toks, [], cur);
             r.Ok? && TokenAt(toks, r.next, RParen)
    ensures |params| <= MAX_ARGS && (forall p | p in params :: p.kind == Identifier) && ParamsAt(params, toks, cur)
    ensures (if toks[cur].kind == RParen then Ok([], cur) else ParseParams(toks, [], cur)) ==
            Ok(params, cur + Width(params) - 1)
  {
    hide ParseParams, Terminated, ParamsAt;
    params := [];
    if toks[cur].kind == RParen {
      NoParamsAt(toks, cur);
    } else {
      params := ParamsAreSound([], toks, cur);
      assert [] + params == params;
    }
  }

  // ----- Statements -----

  lemma {:induction false} StmtIsSound(toks: seq<Token>, cur: nat)
    requires At(toks, cur) && ParseStmt(toks, cur).Ok?
    ensures var r := ParseStmt(toks, cur); SoundStmt(r.value, false, toks, cur, r.next)
    decreases |toks| - cur, 21
  {
    hide ParseStmt, ParseExprStmt, ParseBlock, ParseIf, ParseWhile, ParseFor, ParseFuncDecl, ParseReturn;
    hide SoundStmt, BlockAt, AllWritable;
    Dispatch(toks, cur);
    match toks[cur].kind
    case Function => FuncIsSound(toks, cur);
    case If => IfIsSound(toks, cur);
    case While => WhileIsSound(toks, cur);
    case For => ForIsSound(toks, cur);
    case Return => ReturnIsSound(toks, cur);
    case LBrace =>
      DispatchBlock(toks, cur);
      BlockIsSound(toks, cur);
      var body := ParseBlock(toks, cur + 1);
      BlockStmtIsSound(body.value, toks, cur, body.next);
    case _ =>
      DispatchExpr(toks, cur);
      SimpleIsSound(toks, cur);
  }

  lemma SimpleIsSound(toks: seq<Token>, cur: nat)
    requires At(toks, cur) && ParseExprStmt(toks, cur).Ok? && !StartsKeyword(toks[cur].kind)
    ensures var r := ParseExprStmt(toks, cur); SoundStmt(r.value, false, toks, cur, r.next)
  {
    hide ParseExpr, ParseExprStmt, Complete, ExprAt, StartsOperand;
    ExprStmtIsSound(toks, cur);
    EmptyExpression(toks, cur);
  }

  lemma BlockStmtIsSound(stmts: seq<Stmt>, toks: seq<Token>, cur: nat, n: nat)
    requires Terminated(toks) && cur <= n < |toks| && BlockAt(stmts, toks, cur, n) && AllWritable(stmts)
    ensures SoundStmt(Block(stmts), false, toks, cur, n)
  {
    hide BlockAt, AllWritable;
  }

  lemma ReturnIsSound(toks: seq<Token>, cur: nat)
    requires At(toks, cur) && toks[cur].kind == Return && cur + 1 < |toks| && ParseReturn(toks, cur + 1).Ok?
    ensures var r := ParseReturn(toks, cur + 1); SoundStmt(r.value, false, toks, cur, r.next)
  {
    hide ParseOptional, Complete, ExprAt;
    OptionalIsSound(Semicolon, toks, cur + 1);
  }

  lemma {:induction false} IfIsSound(toks: seq<Token>, cur: nat)
    requires At(toks, cur) && toks[cur].kind == If && cur + 1 < |toks| && ParseIf(toks, cur + 1).Ok?
    ensures var r := ParseIf(toks, cur + 1); SoundStmt(r.value, false, toks, cur, r.next)
    decreases |toks| - cur, 20
  {
    hide ParseStmt, ParseCondition, Complete, HeadAt, StmtAt, StartsNothing;
    var cond := ParseCondition(toks, cur + 1);
    HeadIsSound(If, toks, cur);
    StmtIsSound(toks, cond.next);
    var thn := ParseStmt(toks, cond.next);
    var r := ParseIf(toks, cur + 1);
    if toks[thn.next].kind == Else {
      StmtIsSound(toks, thn.next + 1);
      assert r.value == IfStmt(cond.value, thn.value, ParseStmt(toks, thn.next + 1).value);
    } else {
      assert r.value == IfStmt(cond.value, thn.value, NoStmt);
    }
    IfAt(r.value, toks, cur, cond.next, thn.next, r.next);
  }

  lemma {:induction false} WhileIsSound(toks: seq<Token>, cur: nat)
    requires At(toks, cur) && toks[cur].kind == While && cur + 1 < |toks| && ParseWhile(toks, cur + 1).Ok?
    ensures var r := ParseWhile(toks, cur + 1); SoundStmt(r.value, false, toks, cur, r.next)
    decreases |toks| - cur, 20
  {
    hide ParseStmt, ParseCondition, Complete, HeadAt, StmtAt, StartsNothing;
    var cond := ParseCondition(toks, cur + 1);
    HeadIsSound(While, toks, cur);
    StmtIsSound(toks, cond.next);
    var r := ParseWhile(toks, cur + 1);
    WhileAt(r.value, toks, cur, cond.next, r.next);
  }

  lemma {:induction false} ForIsSound(toks: seq<Token>, cur: nat)
    requires At(toks, cur) && toks[cur].kind == For && cur + 1 < |toks| && ParseFor(toks, cur + 1).Ok?
    ensures var r := ParseFor(toks, cur + 1); SoundStmt(r.value, false, toks, cur, r.next)
    decreases |toks| - cur, 20
  {
    hide ParseStmt, ParseForStart, ParseOptional, Complete, WritableStart, StartAt, ExprAt, StmtAt, StartsNothing;
    var start := ParseForStart(toks, cur + 2);
    var cond := ParseOptional(toks, start.next, Semicolon);
    var step := ParseOptional(toks, cond.next, RParen);
    StartIsSound(toks, cur + 2);
    OptionalIsSound(Semicolon, toks, start.next);
    OptionalIsSound(RParen, toks, cond.next);
    StmtIsSound(toks, step.next);
    var r := ParseFor(toks, cur + 1);
    ForAt(r.value, toks, cur, start.next, cond.next, step.next, r.next);
  }

  lemma {:induction false} FuncIsSound(toks: seq<Token>, cur: nat)
    requires At(toks, cur) && toks[cur].kind == Function && cur + 1 < |toks| && ParseFuncDecl(toks, cur + 1).Ok?
    ensures var r := ParseFuncDecl(toks, cur + 1); SoundStmt(r.value, false, toks, cur, r.next)
    decreases |toks| - cur, 20
  {
    hide ParseBlock, ParseParams, ParseFuncDecl, BlockAt, ParamsAt, StmtAt, SoundStmt;
    hide Writable, AllWritable;
    var params, i, body, n := FuncHeadIsSound(toks, cur + 1);
    hide Width;
    BlockIsSound(toks, i);
    FuncPartsAreSound(FuncDecl(toks[cur + 1], params, body), toks, cur, n);
  }

  lemma FuncPartsAreSound(s: Stmt, toks: seq<Token>, cur: nat, n: nat)
    requires s.FuncDecl? && TokenAt(toks, cur, Function) && TokenAt(toks, cur + 1, Identifier)
    requires toks[cur + 1] == s.name && TokenAt(toks, cur + 2, LParen) && cur <= n < |toks|
    requires |s.params| <= MAX_ARGS && (forall p | p in s.params :: p.kind == Identifier)
    requires ParamsAt(s.params, toks, cur + 3) && BlockAt(s.body, toks, cur + 3 + Width(s.params), n)
    requires Terminated(toks) && n < |toks| && AllWritable(s.body)
    ensures SoundStmt(s, false, toks, cur, n)
  {
    hide ParamsAt, BlockAt, StmtAt, AllWritable;
    FuncAt(s, toks, cur, n);
  }

  lemma FuncHeadIsSound(toks: seq<Token>, cur: nat) returns (params: seq<Token>, i: nat, body: seq<Stmt>, n: nat)
    requires At(toks, cur) && ParseFuncDecl(toks, cur).Ok?
    ensures TokenAt(toks, cur, Identifier) && TokenAt(toks, cur + 1, LParen)
    ensures |params| <= MAX_ARGS && (forall p | p in params :: p.kind == Identifier) && ParamsAt(params, toks, cur + 2)
    ensures i == cur + 2 + Width(params) && TokenAt(toks, i, LBrace) && i + 1 < |toks|
    ensures ParseBlock(toks, i + 1) == Ok(body, n) && n < |toks|
    ensures ParseFuncDecl(toks, cur) == Ok(FuncDecl(toks[cur], params, body), n)
  {
    hide ParseBlock, ParseParams, ParseFuncDecl, ParamsAt;
    params, i, body, n := FuncPieces(toks, cur);
    var same := ParamListIsSound(toks, cur + 2);
    i := i + 1;
  }

  lemma FuncPieces(toks: seq<Token>, cur: nat) returns (params: seq<Token>, i: nat, body: seq<Stmt>, n: nat)
    requires At(toks, cur) && ParseFuncDecl(toks, cur).Ok?
    ensures TokenAt(toks, cur, Identifier) && TokenAt(toks, cur + 1, LParen) && cur + 2 < |toks|
    ensures (if toks[cur + 2].kind == RParen then Ok([], cur + 2) else ParseParams(toks, [], cur + 2)) == Ok(params, i)
    ensures TokenAt(toks, i, RParen) && TokenAt(toks, i + 1, LBrace) && i + 2 < |toks|
    ensures ParseBlock(toks, i + 2) == Ok(body, n) && cur < i && n < |toks|
    ensures ParseFuncDecl(toks, cur) == Ok(FuncDecl(toks[cur], params, body), n)
  {
    hide ParseBlock, ParseParams;
    var ps := if toks[cur + 2].kind == RParen then Ok([], cur + 2) else ParseParams(toks, [], cur + 2);
    params, i := ps.value, ps.next;
    body, n := ParseBlock(toks, i + 2).value, ParseBlock(toks, i + 2).next;
  }

  lemma {:induction false} BlockIsSound(toks: seq<Token>, cur: nat)
    requires At(toks, cur) && toks[cur].kind == LBrace && cur + 1 < |toks| && ParseBlock(toks, cur + 1).Ok?
    ensures var r := ParseBlock(toks, cur + 1); BlockAt(r.value, toks, cur, r.next) && AllWritable(r.value)
    decreases |toks| - cur, 0
  {
    hide ParseDecls, StmtsAt, AllWritable, StartsNothing;
    var stmts, n := DeclsAreSound(true, [], toks, cur + 1);
    assert [] + stmts == stmts;
  }

  /** The loop over declarations, from the point where it has read `done`. */
  lemma {:induction false} DeclsAreSound(inBlock: bool, done: seq<Stmt>, toks: seq<Token>, cur: nat)
      returns (stmts: seq<Stmt>, n: nat)
    requires At(toks, cur) && ParseDecls(toks, inBlock, done, cur).Ok?
    ensures ParseDecls(toks, inBlock, done, cur) == Ok(done + stmts, n)
    ensures cur <= n < |toks| && (toks[n].kind == Eof || (inBlock && toks[n].kind == RBrace))
    ensures StmtsAt(stmts, toks, cur, n) && AllWritable(stmts)
    ensures stmts != [] && StartsNothing(toks[cur].kind) ==> stmts[0].VarDecl?
    decreases |toks| - cur, 23
  {
    hide ParseDecl, StmtAt, Writable, StartsNothing, Terminated;
    DeclPieces(inBlock, done, toks, cur);
    if toks[cur].kind == Eof || (inBlock && toks[cur].kind == RBrace) {
      stmts, n := [], cur;
      assert done + stmts == done;
    } else {
      var d := ParseDecl(toks, cur);
      DeclIsSound(toks, cur);
      var rest;
      rest, n := DeclsAreSound(inBlock, done + [d.value], toks, d.next);
      stmts := [d.value] + rest;
      assert stmts[1..] == rest && done + [d.value] + rest == done + stmts;
      assert Parted(stmts);
    }
  }

  lemma DeclPieces(inBlock: bool, done: seq<Stmt>, toks: seq<Token>, cur: nat)
    requires At(toks, cur) && ParseDecls(toks, inBlock, done, cur).Ok?
    ensures if toks[cur].kind == Eof || (inBlock && toks[cur].kind == RBrace)
            then ParseDecls(toks, inBlock, done, cur) == Ok(done, cur)
            else
              var d := ParseDecl(toks, cur);
              && d.Ok? && d.next > cur
              && ParseDecls(toks, inBlock, done, cur) == ParseDecls(toks, inBlock, done + [d.value], d.next)
  {
    hide ParseDecl;
  }

  lemma {:induction false} DeclIsSound(toks: seq<Token>, cur: nat)
    requires At(toks, cur) && ParseDecl(toks, cur).Ok?
    ensures var r := ParseDecl(toks, cur);
            && SoundStmt(r.value, true, toks, cur, r.next)
            && (r.next > cur ==> !Empty(r.value) && (StartsNothing(toks[cur].kind) ==> r.value.VarDecl?))
    decreases |toks| - cur, 22
  {
    hide ParseDecl, ParseStmt, ParseVarDecl, VarAt, Complete, StartsNothing;
    DispatchDecl(toks, cur);
    if toks[cur].kind == Var || toks[cur].kind == Let {
      VarIsSound(toks, cur + 1);
    } else {
      StmtIsSound(toks, cur);
      EmptyStatement(toks, cur);
      MoreWritable(ParseStmt(toks, cur).value);
    }
  }

  lemma MoreWritable(s: Stmt)
    requires Writable(s, false)
    ensures Writable(s, true)
  {
  }

  /** Writable statements have their elses at the nearest if. */
  lemma {:induction false} WritableIsNested(s: Stmt, decl: bool)
    requires Writable(s, decl)
    ensures Nested(s)
    decreases s, 1
  {
    hide Complete, WritableStart;
    match s
    case IfStmt(_, thn, els) =>
      WritableIsNested(thn, false);
      if !els.NoStmt? { WritableIsNested(els, false); }
    case WhileStmt(_, loop) => WritableIsNested(loop, false);
    case ForStmt(_, _, _, loop) => WritableIsNested(loop, false);
    case FuncDecl(_, _, body) => WritableAreNested(body);
    case Block(stmts) => WritableAreNested(stmts);
    case _ =>
  }

  lemma {:induction false} WritableAreNested(stmts: seq<Stmt>)
    requires AllWritable(stmts)
    ensures AllNested(stmts)
    decreases stmts, 0
  {
    hide Writable, Nested;
    if stmts != [] {
      WritableIsNested(stmts[0], true);
      WritableAreNested(stmts[1..]);
    }
  }

  // ----- The results -----

  /**
   In every statement that parses, an else goes to the nearest if: at no depth does one stand after a
   branch that ends with an open if, and none follows that an open if at the end could still take.
   */
  lemma ElseGoesToNearestIf(toks: seq<Token>, cur: nat)
    requires At(toks, cur) && ParseStmt(toks, cur).Ok?
    ensures var r := ParseStmt(toks, cur); Nested(r.value) && (OpenIf(r.value) ==> toks[r.next].kind != Else)
  {
    hide ParseStmt, Writable, Nested;
    StmtIsSound(toks, cur);
    WritableIsNested(ParseStmt(toks, cur).value, false);
  }

  lemma ElseGoesToNearestIfInPrograms(toks: seq<Token>)
    requires Terminated(toks) && ParseProgram(toks, 0).Ok?
    ensures AllNested(ParseProgram(toks, 0).value)
  {
    hide ParseDecls, AllWritable, AllNested;
    var stmts, n := DeclsAreSound(false, [], toks, 0);
    assert [] + stmts == stmts;
    WritableAreNested(stmts);
  }

  /**
   A statement is what the parser returns with cursor `n` if and only if it is writable, the tokens up
   to `n` spell it, and none follows that it would take.
   */
  lemma ParsesExactlyTheSpelledStatement(toks: seq<Token>, cur: nat, s: Stmt, n: nat)
    requires At(toks, cur)
    ensures ParseStmt(toks, cur) == Ok(s, n) <==> Writable(s, false) && Ahead(s, toks, cur, n)
  {
    hide ParseStmt, StmtAt, Writable, MayFollow;
    if ParseStmt(toks, cur) == Ok(s, n) { StmtIsSound(toks, cur); }
    if Writable(s, false) && Ahead(s, toks, cur, n) { StmtReadBack(s, toks, cur, n); }
  }

  /** Likewise for programs, which end at the first end marker where a declaration could start. */
  lemma ParsesExactlyTheSpelledProgram(toks: seq<Token>, stmts: seq<Stmt>, n: nat)
    requires Terminated(toks)
    ensures ParseProgram(toks, 0) == Ok(stmts, n) <==>
            AllWritable(stmts) && StmtsAt(stmts, toks, 0, n) && TokenAt(toks, n, Eof)
  {
    hide ParseDecls, StmtsAt, AllWritable, StartsNothing;
    if ParseProgram(toks, 0) == Ok(stmts, n) {
      var read, m := DeclsAreSound(false, [], toks, 0);
      assert [] + read == read;
    }
    if AllWritable(stmts) && StmtsAt(stmts, toks, 0, n) && TokenAt(toks, n, Eof) {
      ProgramReadBack(stmts, toks, n);
    }
  }

  /** No token list spells two programs. */
  lemma ProgramSpelledAtMostOnce(toks: seq<Token>, p: seq<Stmt>, m: nat, q: seq<Stmt>, n: nat)
    requires Terminated(toks) && AllWritable(p) && AllWritable(q)
    requires StmtsAt(p, toks, 0, m) && TokenAt(toks, m, Eof) && StmtsAt(q, toks, 0, n) && TokenAt(toks, n, Eof)
    ensures p == q && m == n
  {
    ProgramReadBack(p, toks, m);
    ProgramReadBack(q, toks, n);
  }

  /** A function has at most 255 parameters. */
  lemma ParameterLimit(toks: seq<Token>, params: seq<Token>, cur: nat)
    requires At(toks, cur) && toks[cur].kind == Identifier && cur + 1 < |toks|
    ensures |params| >= 255 ==> ParseParams(toks, params, cur) == Err(TooManyArguments)
    ensures |params| < 255 && toks[cur + 1].kind != Comma ==>
              ParseParams(toks, params, cur) == Ok(params + [toks[cur]], cur + 1)
    ensures |params| < 255 && toks[cur + 1].kind == Comma && cur + 2 < |toks| ==>
              ParseParams(toks, params, cur) == ParseParams(toks, params + [toks[cur]], cur + 2)
  {
  }

  /** A token that is not the expected one is an error, and so is the end of the tokens after an expression. */
  lemma MissingTokens(toks: seq<Token>, cur: nat, k: Kind)
    requires At(toks, cur) && k != Eof
    ensures toks[cur].kind != k ==> Expect(toks, cur, k) == Err(Unexpected)
    ensures var r := ParseExpr(toks, cur);
            r.Ok? && !r.value.NoExpr? && toks[r.next].kind != Semicolon ==>
              ParseExprStmt(toks, cur) == Err(if r.next + 1 == |toks| then PastEnd else Unexpected)
  {
    hide ParseExpr;
  }
}
