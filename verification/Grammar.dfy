/**
 What the recursive-descent parser of src/lib/JSParser.cpp computes, as functions of the tokens and
 the cursor.  The class in Parser.dfy is proved to compute exactly this.

 The six functions for binary operators differ only in their operators, so they are one function of
 a level: 1 for ||, 2 for &&, 3 for equality, 4 for comparison, 5 for + and -, 6 for * and /.
 Level 0 is assignment, 7 unary, 8 call and 9 primary expressions.
 */
module Grammar {
  import opened Values
  import opened Syntax

  const MAX_ARGS: nat := 255

  /**
   Why parsing does not return: a thrown exception, the dereference of a null operand, a read
   beyond the last token, or a loop that consumes nothing and so never ends.
   */
  datatype Failure = Unexpected | InvalidTarget | TooManyArguments | NullOperand | PastEnd | Diverges

  datatype Result<+T> = Ok(value: T, next: nat) | Err(why: Failure) {
    predicate IsFailure() { Err? }
    function PropagateFailure<U>(): Result<U> requires Err? { Err(why) }
    function Extract(): (T, nat) requires Ok? { (value, next) }
  }

  /** What the lexer delivers: a last token that marks the end. */
  ghost predicate Terminated(toks: seq<Token>) {
    toks != [] && toks[|toks| - 1].kind == Eof
  }

  /** The token at a cursor and that cursor, which a result never leaves behind or overruns. */
  ghost predicate At(toks: seq<Token>, cur: nat) {
    Terminated(toks) && cur < |toks|
  }

  ghost predicate Within<T>(toks: seq<Token>, cur: nat, r: Result<T>) {
    r.Ok? ==> cur <= r.next < |toks|
  }

  function OpLevel(k: Kind): nat {
    match k
    case Or => 1
    case And => 2
    case BangEqual => 3 case EqualEqual => 3
    case Greater => 4 case GreaterEqual => 4 case Less => 4 case LessEqual => 4
    case Minus => 5 case Plus => 5
    case Slash => 6 case Star => 6
    case _ => 0
  }

  function Node(level: nat, left: Expr, op: Token, right: Expr): Expr {
    if level <= 2 then Logical(left, op, right) else Binary(left, op, right)
  }

  predicate IsLiteralKind(k: Kind) {
    k == True || k == False || k == NullTok || k == NumericTok || k == StringTok || k == UndefinedTok
  }

  /** The value of a literal token; the keyword undefined has its own text as its value. */
  function LiteralValue(t: Token): Value {
    match t.kind
    case True => Boolean(true)
    case False => Boolean(false)
    case NullTok => Null
    case _ => t.literal
  }

  function Expect(toks: seq<Token>, cur: nat, k: Kind): (r: Result<Token>)
    requires At(toks, cur) && k != Eof
    ensures Within(toks, cur, r) && (r.Ok? ==> r.next == cur + 1)
  {
    if toks[cur].kind == k then Ok(toks[cur], cur + 1) else Err(Unexpected)
  }

  // ----- Expressions -----

  function ParseExpr(toks: seq<Token>, cur: nat): (r: Result<Expr>)
    requires At(toks, cur)
    ensures Within(toks, cur, r)
    decreases |toks| - cur, 11
  {
    var (target, i) :- ParseBinary(1, toks, cur);
    if toks[i].kind != Equal then Ok(target, i)
    else
      var (source, j) :- ParseExpr(toks, i + 1);
      match target
      case NoExpr => Err(NullOperand)
      case Variable(name) => Ok(Assign(name, source), j)
      case _ => Err(InvalidTarget)
  }

  function ParseBinary(level: nat, toks: seq<Token>, cur: nat): (r: Result<Expr>)
    requires At(toks, cur) && 1 <= level <= 7
    ensures Within(toks, cur, r)
    decreases |toks| - cur, 11 - level
  {
    if level == 7 then ParseUnary(toks, cur)
    else
      var (left, i) :- ParseBinary(level + 1, toks, cur);
      ParseRest(level, toks, left, i)
  }

  /** The loop over the operators of a level: `left` is what it has read so far. */
  function ParseRest(level: nat, toks: seq<Token>, left: Expr, cur: nat): (r: Result<Expr>)
    requires At(toks, cur) && 1 <= level <= 6
    ensures Within(toks, cur, r)
    decreases |toks| - cur, 0
  {
    if OpLevel(toks[cur].kind) != level then Ok(left, cur)
    else
      var (right, i) :- ParseBinary(level + 1, toks, cur + 1);
      ParseRest(level, toks, Node(level, left, toks[cur], right), i)
  }

  function ParseUnary(toks: seq<Token>, cur: nat): (r: Result<Expr>)
    requires At(toks, cur)
    ensures Within(toks, cur, r)
    decreases |toks| - cur, 3
  {
    if toks[cur].kind != Bang && toks[cur].kind != Minus then ParseCall(toks, cur)
    else
      var (right, i) :- ParseUnary(toks, cur + 1);
      if right.NoExpr? then Err(NullOperand) else Ok(Unary(toks[cur], right), i)
  }

  function ParseCall(toks: seq<Token>, cur: nat): (r: Result<Expr>)
    requires At(toks, cur)
    ensures Within(toks, cur, r)
    decreases |toks| - cur, 2
  {
    var (callee, i) :- ParsePrimary(toks, cur);
    ParseCalls(toks, callee, i)
  }

  /** The loop over argument lists. */
  function ParseCalls(toks: seq<Token>, callee: Expr, cur: nat): (r: Result<Expr>)
    requires At(toks, cur)
    ensures Within(toks, cur, r)
    decreases |toks| - cur, 0
  {
    if toks[cur].kind != LParen then Ok(callee, cur)
    else
      var (args, i) :- if toks[cur + 1].kind == RParen then Ok([], cur + 1) else ParseArgs(toks, [], cur + 1);
      var (paren, j) :- Expect(toks, i, RParen);
      ParseCalls(toks, Call(callee, paren, args), j)
  }

  /** The loop over arguments: `args` are those read so far, and one more must follow. */
  function ParseArgs(toks: seq<Token>, args: seq<Expr>, cur: nat): (r: Result<seq<Expr>>)
    requires At(toks, cur)
    ensures Within(toks, cur, r)
    decreases |toks| - cur, 12
  {
    if |args| >= MAX_ARGS then Err(TooManyArguments)
    else
      var (arg, i) :- ParseExpr(toks, cur);
      if toks[i].kind == Comma then ParseArgs(toks, args + [arg], i + 1) else Ok(args + [arg], i)
  }

  /** A token that starts no primary expression gives the null pointer and is not consumed. */
  function ParsePrimary(toks: seq<Token>, cur: nat): (r: Result<Expr>)
    requires At(toks, cur)
    ensures Within(toks, cur, r)
    decreases |toks| - cur, 1
  {
    var t := toks[cur];
    if IsLiteralKind(t.kind) then Ok(Literal(LiteralValue(t)), cur + 1)
    else if t.kind == Identifier then Ok(Variable(t), cur + 1)
    else if t.kind == LParen then
      var (inner, i) :- ParseExpr(toks, cur + 1);
      var (_, j) :- Expect(toks, i, RParen);
      Ok(Grouping(inner), j)
    else Ok(NoExpr, cur)
  }

  // ----- Statements -----

  function ParseDecl(toks: seq<Token>, cur: nat): (r: Result<Stmt>)
    requires At(toks, cur)
    ensures Within(toks, cur, r)
    decreases |toks| - cur, 22
  {
    if toks[cur].kind == Var || toks[cur].kind == Let then ParseVarDecl(toks, cur + 1)
    else ParseStmt(toks, cur)
  }

  function ParseStmt(toks: seq<Token>, cur: nat): (r: Result<Stmt>)
    requires At(toks, cur)
    ensures Within(toks, cur, r)
    decreases |toks| - cur, 21
  {
    match toks[cur].kind
    case Function => ParseFuncDecl(toks, cur + 1)
    case If => ParseIf(toks, cur + 1)
    case While => ParseWhile(toks, cur + 1)
    case For => ParseFor(toks, cur + 1)
    case Return => ParseReturn(toks, cur + 1)
    case LBrace =>
      var (stmts, i) :- ParseBlock(toks, cur + 1);
      Ok(Block(stmts), i)
    case _ => ParseExprStmt(toks, cur)
  }

  /** The loop over declarations, up to the end of the block or of the program. */
  function ParseDecls(toks: seq<Token>, inBlock: bool, stmts: seq<Stmt>, cur: nat): (r: Result<seq<Stmt>>)
    requires At(toks, cur)
    ensures Within(toks, cur, r)
    decreases |toks| - cur, 23
  {
    if toks[cur].kind == Eof || (inBlock && toks[cur].kind == RBrace) then Ok(stmts, cur)
    else
      var (stmt, i) :- ParseDecl(toks, cur);
      if i == cur then Err(Diverges) else ParseDecls(toks, inBlock, stmts + [stmt], i)
  }

  function ParseBlock(toks: seq<Token>, cur: nat): (r: Result<seq<Stmt>>)
    requires At(toks, cur)
    ensures Within(toks, cur, r)
    decreases |toks| - cur, 24
  {
    var (stmts, i) :- ParseDecls(toks, true, [], cur);
    var (_, j) :- Expect(toks, i, RBrace);
    Ok(stmts, j)
  }

  function ParseProgram(toks: seq<Token>, cur: nat): (r: Result<seq<Stmt>>)
    requires At(toks, cur)
    ensures Within(toks, cur, r)
  {
    ParseDecls(toks, false, [], cur)
  }

  /** A parenthesized condition. */
  function ParseCondition(toks: seq<Token>, cur: nat): (r: Result<Expr>)
    requires At(toks, cur)
    ensures Within(toks, cur, r) && (r.Ok? ==> cur < r.next)
  {
    var (_, i) :- Expect(toks, cur, LParen);
    var (cond, j) :- ParseExpr(toks, i);
    var (_, k) :- Expect(toks, j, RParen);
    Ok(cond, k)
  }

  function ParseIf(toks: seq<Token>, cur: nat): (r: Result<Stmt>)
    requires At(toks, cur)
    ensures Within(toks, cur, r)
    decreases |toks| - cur, 20
  {
    var (cond, i) :- ParseCondition(toks, cur);
    var (thn, j) :- ParseStmt(toks, i);
    if toks[j].kind == Else then
      var (els, k) :- ParseStmt(toks, j + 1);
      Ok(IfStmt(cond, thn, els), k)
    else Ok(IfStmt(cond, thn, NoStmt), j)
  }

  function ParseWhile(toks: seq<Token>, cur: nat): (r: Result<Stmt>)
    requires At(toks, cur)
    ensures Within(toks, cur, r)
    decreases |toks| - cur, 20
  {
    var (cond, i) :- ParseCondition(toks, cur);
    var (loop, j) :- ParseStmt(toks, i);
    Ok(WhileStmt(cond, loop), j)
  }

  function ParseForStart(toks: seq<Token>, cur: nat): (r: Result<Stmt>)
    requires At(toks, cur)
    ensures Within(toks, cur, r)
  {
    match toks[cur].kind
    case Semicolon => Ok(NoStmt, cur + 1)
    case Var => ParseVarDecl(toks, cur + 1)
    case _ => ParseExprStmt(toks, cur)
  }

  /** An expression that may be left out before a token of kind `stop`, which is then consumed. */
  function ParseOptional(toks: seq<Token>, cur: nat, stop: Kind): (r: Result<Expr>)
    requires At(toks, cur) && stop != Eof
    ensures Within(toks, cur, r) && (r.Ok? ==> cur < r.next)
  {
    var (e, i) :- if toks[cur].kind == stop then Ok(NoExpr, cur) else ParseExpr(toks, cur);
    var (_, j) :- Expect(toks, i, stop);
    Ok(e, j)
  }

  function ParseFor(toks: seq<Token>, cur: nat): (r: Result<Stmt>)
    requires At(toks, cur)
    ensures Within(toks, cur, r)
    decreases |toks| - cur, 20
  {
    var (_, i) :- Expect(toks, cur, LParen);
    var (start, j) :- ParseForStart(toks, i);
    var (cond, k) :- ParseOptional(toks, j, Semicolon);
    var (step, l) :- ParseOptional(toks, k, RParen);
    var (loop, m) :- ParseStmt(toks, l);
    Ok(ForStmt(start, cond, step, loop), m)
  }

  function ParseReturn(toks: seq<Token>, cur: nat): (r: Result<Stmt>)
    requires At(toks, cur) && cur > 0
    ensures Within(toks, cur, r)
  {
    var (result, i) :- ParseOptional(toks, cur, Semicolon);
    Ok(ReturnStmt(toks[cur - 1], result), i)
  }

  function ParseVarDecl(toks: seq<Token>, cur: nat): (r: Result<Stmt>)
    requires At(toks, cur)
    ensures Within(toks, cur, r)
  {
    var (name, i) :- Expect(toks, cur, Identifier);
    var (init, j) :- if toks[i].kind == Equal then ParseExpr(toks, i + 1) else Ok(NoExpr, i);
    var (_, k) :- Expect(toks, j, Semicolon);
    Ok(VarDecl(name, init), k)
  }

  /** The loop over parameters: `params` are those read so far, and one more must follow. */
  function ParseParams(toks: seq<Token>, params: seq<Token>, cur: nat): (r: Result<seq<Token>>)
    requires At(toks, cur)
    ensures Within(toks, cur, r)
    decreases |toks| - cur
  {
    if |params| >= MAX_ARGS then Err(TooManyArguments)
    else
      var (param, i) :- Expect(toks, cur, Identifier);
      if toks[i].kind == Comma then ParseParams(toks, params + [param], i + 1) else Ok(params + [param], i)
  }

  function ParseFuncDecl(toks: seq<Token>, cur: nat): (r: Result<Stmt>)
    requires At(toks, cur)
    ensures Within(toks, cur, r)
    decreases |toks| - cur, 20
  {
    var (name, i) :- Expect(toks, cur, Identifier);
    var (_, j) :- Expect(toks, i, LParen);
    var (params, k) :- if toks[j].kind == RParen then Ok([], j) else ParseParams(toks, [], j);
    var (_, l) :- Expect(toks, k, RParen);
    var (_, m) :- Expect(toks, l, LBrace);
    var (body, n) :- ParseBlock(toks, m);
    Ok(FuncDecl(name, params, body), n)
  }

  /** The debug output reads one token further than the one it has checked. */
  function ParseExprStmt(toks: seq<Token>, cur: nat): (r: Result<Stmt>)
    requires At(toks, cur)
    ensures Within(toks, cur, r)
  {
    var (e, i) :- ParseExpr(toks, cur);
    if e.NoExpr? then Ok(ExprStmt(e), i)
    else if i + 1 >= |toks| then Err(PastEnd)
    else
      var (_, j) :- Expect(toks, i, Semicolon);
      Ok(ExprStmt(e), j)
  }
}
