/**
 Where parsing makes no progress: a declaration consumes nothing exactly at a token that can neither
 start nor continue anything, and there the loop over declarations never ends.
 */
module ParserProgress {
  import opened Syntax
  import opened Grammar
  import opened Spelling
  import opened ParserRoundTrip
  import opened ParserSoundness

  // ----- Which function reads a statement -----

  /** A keyword decides which function reads the statement. */
  lemma Dispatch(toks: seq<Token>, cur: nat)
    requires At(toks, cur)
    ensures var k := toks[cur].kind;
            && (k != Eof ==> cur + 1 < |toks|)
            && (k == If ==> ParseStmt(toks, cur) == ParseIf(toks, cur + 1))
            && (k == While ==> ParseStmt(toks, cur) == ParseWhile(toks, cur + 1))
            && (k == For ==> ParseStmt(toks, cur) == ParseFor(toks, cur + 1))
            && (k == Function ==> ParseStmt(toks, cur) == ParseFuncDecl(toks, cur + 1))
            && (k == Return ==> ParseStmt(toks, cur) == ParseReturn(toks, cur + 1))
  {
    hide ParseIf, ParseWhile, ParseFor, ParseFuncDecl, ParseReturn, ParseBlock, ParseExprStmt;
  }

  lemma DispatchBlock(toks: seq<Token>, cur: nat)
    requires At(toks, cur) && toks[cur].kind == LBrace && cur + 1 < |toks|
    ensures var b := ParseBlock(toks, cur + 1);
            ParseStmt(toks, cur) == if b.Ok? then Ok(Block(b.value), b.next) else Err(b.why)
  {
    hide ParseIf, ParseWhile, ParseFor, ParseFuncDecl, ParseReturn, ParseBlock, ParseExprStmt;
  }

  /** What does not start with a keyword or a brace is an expression statement. */
  predicate StartsKeyword(k: Kind) {
    k == Function || k == If || k == While || k == For || k == Return || k == LBrace
  }

  lemma DispatchExpr(toks: seq<Token>, cur: nat)
    requires At(toks, cur) && !StartsKeyword(toks[cur].kind)
    ensures ParseStmt(toks, cur) == ParseExprStmt(toks, cur)
  {
    hide ParseIf, ParseWhile, ParseFor, ParseFuncDecl, ParseReturn, ParseBlock, ParseExprStmt;
  }

  lemma DispatchDecl(toks: seq<Token>, cur: nat)
    requires At(toks, cur)
    ensures var k := toks[cur].kind;
            if k == Var || k == Let then cur + 1 < |toks| && ParseDecl(toks, cur) == ParseVarDecl(toks, cur + 1)
            else ParseDecl(toks, cur) == ParseStmt(toks, cur)
  {
    hide ParseStmt, ParseVarDecl;
  }

  // ----- Progress -----

  /** Only an empty statement starts before such a token: it is no keyword, operand or operator. */
  predicate StartsNothing(k: Kind) {
    !StartsKeyword(k) && !StartsOperand(0, k) && OpLevel(k) == 0 && k != Equal
  }

  /** Nor does a declaration. */
  predicate Stuck(k: Kind) {
    StartsNothing(k) && k != Var && k != Let
  }

  /** An expression is missing exactly before what is no operand and no operator, and only then empty. */
  lemma EmptyExpression(toks: seq<Token>, cur: nat)
    requires At(toks, cur)
    ensures var k := toks[cur].kind;
            ParseExpr(toks, cur) == Ok(NoExpr, cur) <==> !StartsOperand(0, k) && OpLevel(k) == 0 && k != Equal
    ensures var r := ParseExpr(toks, cur);
            r.Ok? ==> (r.next == cur <==> r.value.NoExpr?)
  {
    hide ParseExpr, IsLiteralKind;
    ParsesExactlyTheSpelled(toks, cur, NoExpr, cur);
    var r := ParseExpr(toks, cur);
    if r.Ok? {
      ExprIsSound(toks, cur);
      FirstToken(0, r.value, toks[cur]);
    }
  }

  /** Keywords and braces start statements that are not empty. */
  lemma KeywordIsConsumed(toks: seq<Token>, cur: nat)
    requires At(toks, cur) && ParseStmt(toks, cur).Ok? && StartsKeyword(toks[cur].kind)
    ensures ParseStmt(toks, cur).next > cur && !ParseStmt(toks, cur).value.ExprStmt?
  {
    hide ParseStmt, ParseCondition, ParseForStart, ParseOptional, ParseParams, ParseBlock;
    Dispatch(toks, cur);
    if toks[cur].kind == LBrace { DispatchBlock(toks, cur); }
  }

  /** A statement is empty, and consumes nothing, exactly where nothing else starts. */
  lemma EmptyStatement(toks: seq<Token>, cur: nat)
    requires At(toks, cur)
    ensures StartsNothing(toks[cur].kind) ==> ParseStmt(toks, cur) == Ok(ExprStmt(NoExpr), cur)
    ensures var r := ParseStmt(toks, cur);
            r.Ok? && (r.next == cur || r.value == ExprStmt(NoExpr)) ==> StartsNothing(toks[cur].kind)
  {
    hide ParseStmt, ParseExpr, StartsKeyword, StartsOperand;
    if StartsKeyword(toks[cur].kind) {
      if ParseStmt(toks, cur).Ok? { KeywordIsConsumed(toks, cur); }
    } else {
      DispatchExpr(toks, cur);
      EmptyExpression(toks, cur);
    }
  }

  /** A declaration consumes no token if and only if the token it starts at is stuck. */
  lemma ConsumesNothingExactlyWhenStuck(toks: seq<Token>, cur: nat)
    requires At(toks, cur)
    ensures (ParseDecl(toks, cur).Ok? && ParseDecl(toks, cur).next == cur) <==> Stuck(toks[cur].kind)
  {
    hide ParseDecl, ParseStmt, ParseVarDecl, StartsNothing;
    DispatchDecl(toks, cur);
    EmptyStatement(toks, cur);
  }

  /** So a program never finishes parsing once its next declaration would start at a stuck token. */
  lemma StuckProgramDiverges(toks: seq<Token>, inBlock: bool, done: seq<Stmt>, cur: nat)
    requires At(toks, cur) && toks[cur].kind != Eof && !(inBlock && toks[cur].kind == RBrace)
    ensures Stuck(toks[cur].kind) ==> ParseDecls(toks, inBlock, done, cur) == Err(Diverges)
    ensures !Stuck(toks[cur].kind) && ParseDecl(toks, cur).Ok? ==>
              var r := ParseDecl(toks, cur);
              && r.next > cur
              && ParseDecls(toks, inBlock, done, cur) == ParseDecls(toks, inBlock, done + [r.value], r.next)
  {
    hide ParseDecl, Stuck;
    ConsumesNothingExactlyWhenStuck(toks, cur);
  }
}
