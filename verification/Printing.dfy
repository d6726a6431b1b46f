/**
 Every writable program can be written: its printed tokens spell it, so parsing what is printed gives
 the program back.
 */
module Printing {
  import opened Values
  import opened Syntax
  import opened Grammar
  import opened Spelling
  import opened StatementRoundTrip
  import L = Lexer
  import LP = LexerProofs

  // ----- Printing -----

  /** The token that the lexer makes of a keyword or, without a lexeme, of punctuation. */
  function Fixed(k: Kind): Token {
    Token(k, LP.KeywordText(k), Text(LP.KeywordText(k)))
  }

  ghost predicate IsNumeralOf(ar: Arith, digits: string, n: Number) {
    LP.IsNumeral(digits) && ar.read(digits) == n
  }

  /** A numeral with this value, if there is one. */
  ghost function NumeralOf(ar: Arith, n: Number): (digits: string)
    ensures (exists d :: IsNumeralOf(ar, d, n)) ==> IsNumeralOf(ar, digits, n)
  {
    if exists d :: IsNumeralOf(ar, d, n) then
      var d :| IsNumeralOf(ar, d, n);
      d
    else ""
  }

  /** A token for each pattern of an expression. */
  ghost function TokenFor(ar: Arith, p: Pattern): (t: Token)
    ensures Fits(t, p)
  {
    match p
    case Exactly(token) => token
    case OfKind(kind) => Fixed(kind)
    case Literally(value) => LiteralFor(ar, value)
  }

  ghost function LiteralFor(ar: Arith, v: Value): (t: Token)
    ensures IsLiteralKind(t.kind) && LiteralValue(t) == v
  {
    hide NumeralOf;
    match v
    case Boolean(b) => Fixed(if b then True else False)
    case Null => Fixed(NullTok)
    case Text(s) => L.StringToken(s)
    case Numeric(n) => Token(NumericTok, NumeralOf(ar, n), Numeric(n))
    case Undefined => Token(UndefinedTok, "undefined", Undefined)
  }

  ghost function PrintExpr(ar: Arith, e: Expr): (ts: seq<Token>)
    ensures |ts| == |Spell(e)| && forall i | 0 <= i < |ts| :: Fits(ts[i], Spell(e)[i])
  {
    seq(|Spell(e)|, i requires 0 <= i < |Spell(e)| => TokenFor(ar, Spell(e)[i]))
  }

  ghost function PrintEnded(ar: Arith, e: Expr, stop: Kind): seq<Token> {
    PrintExpr(ar, e) + [Fixed(stop)]
  }

  ghost function PrintVar(ar: Arith, name: Token, init: Expr): seq<Token> {
    [name] + (if init.NoExpr? then [Fixed(Semicolon)] else [Fixed(Equal)] + PrintEnded(ar, init, Semicolon))
  }

  ghost function PrintHead(ar: Arith, keyword: Kind, cond: Expr): seq<Token> {
    [Fixed(keyword), Fixed(LParen)] + PrintEnded(ar, cond, RParen)
  }

  ghost function PrintStart(ar: Arith, start: Stmt): seq<Token> {
    match start
    case VarDecl(name, init) => [Fixed(Var)] + PrintVar(ar, name, init)
    case ExprStmt(expr) => PrintEnded(ar, expr, Semicolon)
    case _ => [Fixed(Semicolon)]
  }

  function PrintParams(params: seq<Token>): (ts: seq<Token>)
    ensures |ts| == Width(params)
  {
    if params == [] then [Fixed(RParen)]
    else if |params| == 1 then [params[0], Fixed(RParen)]
    else [params[0], Fixed(Comma)] + PrintParams(params[1..])
  }

  ghost function PrintStmt(ar: Arith, s: Stmt): seq<Token>
    decreases s, 0
  {
    match s
    case NoStmt => []
    case ExprStmt(expr) => if expr.NoExpr? then [] else PrintEnded(ar, expr, Semicolon)
    case VarDecl(name, init) => [Fixed(Var)] + PrintVar(ar, name, init)
    case FuncDecl(name, params, body) =>
      [Fixed(Function), name, Fixed(LParen)] + (PrintParams(params) + PrintBlock(ar, body))
    case Block(stmts) => PrintBlock(ar, stmts)
    case IfStmt(cond, thn, els) =>
      PrintHead(ar, If, cond) + (PrintStmt(ar, thn) + PrintElse(ar, els))
    case WhileStmt(cond, loop) => PrintHead(ar, While, cond) + PrintStmt(ar, loop)
    case ForStmt(start, cond, step, loop) =>
      [Fixed(For), Fixed(LParen)] +
      (PrintStart(ar, start) + (PrintEnded(ar, cond, Semicolon) + (PrintEnded(ar, step, RParen) + PrintStmt(ar, loop))))
    case ReturnStmt(keyword, result) => [keyword] + PrintEnded(ar, result, Semicolon)
  }

  ghost function PrintElse(ar: Arith, els: Stmt): seq<Token>
    decreases els, 1
  {
    if els.NoStmt? then [] else [Fixed(Else)] + PrintStmt(ar, els)
  }

  ghost function PrintBlock(ar: Arith, stmts: seq<Stmt>): seq<Token>
    decreases stmts, 1
  {
    [Fixed(LBrace)] + (Print(ar, stmts) + [Fixed(RBrace)])
  }

  ghost function Print(ar: Arith, stmts: seq<Stmt>): seq<Token>
    decreases stmts, 0
  {
    if stmts == [] then [] else PrintStmt(ar, stmts[0]) + Print(ar, stmts[1..])
  }

  // ----- What is printed is spelled -----

  ghost predicate Inside(toks: seq<Token>, cur: nat, part: seq<Token>) {
    cur + |part| <= |toks| && toks[cur..cur + |part|] == part
  }

  lemma InsideParts(toks: seq<Token>, cur: nat, a: seq<Token>, b: seq<Token>)
    requires Inside(toks, cur, a + b)
    ensures Inside(toks, cur, a) && Inside(toks, cur + |a|, b)
  {
    assert toks[cur..cur + |a|] == toks[cur..cur + |a + b|][..|a|] == a;
    assert toks[cur + |a|..cur + |a| + |b|] == toks[cur..cur + |a + b|][|a|..] == b;
  }

  lemma InsideIndex(toks: seq<Token>, cur: nat, part: seq<Token>, k: nat)
    requires Inside(toks, cur, part) && k < |part|
    ensures toks[cur + k] == part[k]
  {
    assert toks[cur..cur + |part|][k] == part[k];
  }

  lemma EndedIsSpelled(ar: Arith, e: Expr, stop: Kind, toks: seq<Token>, cur: nat)
    requires Inside(toks, cur, PrintEnded(ar, e, stop))
    ensures ExprAt(e, stop, toks, cur, cur + |PrintEnded(ar, e, stop)|)
  {
    var ts := PrintExpr(ar, e);
    InsideIndex(toks, cur, ts + [Fixed(stop)], |ts|);
    forall i | 0 <= i < |ts| ensures Fits(toks[cur + i], Spell(e)[i]) {
      InsideIndex(toks, cur, ts + [Fixed(stop)], i);
    }
  }

  lemma VarIsSpelled(ar: Arith, name: Token, init: Expr, toks: seq<Token>, cur: nat)
    requires Inside(toks, cur, PrintVar(ar, name, init))
    ensures VarAt(name, init, toks, cur, cur + |PrintVar(ar, name, init)|)
  {
    hide PrintEnded, ExprAt;
    InsideIndex(toks, cur, PrintVar(ar, name, init), 0);
    InsideIndex(toks, cur, PrintVar(ar, name, init), 1);
    if init.NoExpr? {
      assert PrintVar(ar, name, init) == [name] + [Fixed(Semicolon)];
      InsideParts(toks, cur, [name], [Fixed(Semicolon)]);
      NothingIsSpelled(Semicolon, toks, cur + 1);
    } else {
      var rest := PrintEnded(ar, init, Semicolon);
      assert PrintVar(ar, name, init) == [name, Fixed(Equal)] + rest;
      InsideParts(toks, cur, [name, Fixed(Equal)], rest);
      EndedIsSpelled(ar, init, Semicolon, toks, cur + 2);
    }
  }

  lemma DeclIsSpelled(ar: Arith, name: Token, init: Expr, toks: seq<Token>, cur: nat)
    requires Inside(toks, cur, [Fixed(Var)] + PrintVar(ar, name, init))
    ensures TokenAt(toks, cur, Var) && VarAt(name, init, toks, cur + 1, cur + 1 + |PrintVar(ar, name, init)|)
  {
    hide PrintVar, VarAt;
    InsideIndex(toks, cur, [Fixed(Var)] + PrintVar(ar, name, init), 0);
    InsideParts(toks, cur, [Fixed(Var)], PrintVar(ar, name, init));
    VarIsSpelled(ar, name, init, toks, cur + 1);
  }

  lemma NothingIsSpelled(stop: Kind, toks: seq<Token>, cur: nat)
    requires TokenAt(toks, cur, stop)
    ensures ExprAt(NoExpr, stop, toks, cur, cur + 1)
  {
  }

  lemma HeadIsSpelled(ar: Arith, keyword: Kind, cond: Expr, toks: seq<Token>, cur: nat)
    requires Inside(toks, cur, PrintHead(ar, keyword, cond))
    ensures HeadAt(keyword, cond, toks, cur, cur + |PrintHead(ar, keyword, cond)|)
  {
    hide PrintEnded, ExprAt;
    InsideIndex(toks, cur, PrintHead(ar, keyword, cond), 0);
    InsideIndex(toks, cur, PrintHead(ar, keyword, cond), 1);
    InsideParts(toks, cur, [Fixed(keyword), Fixed(LParen)], PrintEnded(ar, cond, RParen));
    EndedIsSpelled(ar, cond, RParen, toks, cur + 2);
  }

  lemma StartIsSpelled(ar: Arith, start: Stmt, toks: seq<Token>, cur: nat)
    requires WritableStart(start) && Inside(toks, cur, PrintStart(ar, start))
    ensures StartAt(start, toks, cur, cur + |PrintStart(ar, start)|)
  {
    hide PrintEnded, PrintVar, ExprAt, VarAt;
    match start
    case NoStmt => InsideIndex(toks, cur, PrintStart(ar, start), 0);
    case VarDecl(name, init) => DeclIsSpelled(ar, name, init, toks, cur);
    case ExprStmt(e) => EndedIsSpelled(ar, e, Semicolon, toks, cur);
  }

  lemma {:induction false} ParamsAreSpelled(params: seq<Token>, toks: seq<Token>, cur: nat)
    requires Inside(toks, cur, PrintParams(params))
    ensures ParamsAt(params, toks, cur)
    decreases |params|
  {
    var ts := PrintParams(params);
    InsideIndex(toks, cur, ts, 0);
    if params != [] { InsideIndex(toks, cur, ts, 1); }
    if |params| > 1 {
      InsideParts(toks, cur, [params[0], Fixed(Comma)], PrintParams(params[1..]));
      ParamsAreSpelled(params[1..], toks, cur + 2);
    }
  }

  lemma {:induction false} PrintedIsSpelled(ar: Arith, s: Stmt, decl: bool, toks: seq<Token>, cur: nat)
    requires Writable(s, decl) && Inside(toks, cur, PrintStmt(ar, s))
    ensures StmtAt(s, toks, cur, cur + |PrintStmt(ar, s)|)
    decreases s, 2
  {
    hide PrintEnded, PrintVar, PrintBlock, ExprAt, VarAt, BlockAt, Inside, Complete;
    match s
    case ExprStmt(e) => if !e.NoExpr? { EndedIsSpelled(ar, e, Semicolon, toks, cur); }
    case VarDecl(name, init) => DeclIsSpelled(ar, name, init, toks, cur);
    case FuncDecl(_, _, _) => FuncIsSpelled(ar, s, toks, cur);
    case Block(stmts) => BlockIsSpelled(ar, stmts, toks, cur);
    case IfStmt(_, _, _) => IfIsSpelled(ar, s, toks, cur);
    case WhileStmt(_, _) => WhileIsSpelled(ar, s, toks, cur);
    case ForStmt(_, _, _, _) => ForIsSpelled(ar, s, toks, cur);
    case ReturnStmt(keyword, result) => ReturnIsSpelled(ar, keyword, result, toks, cur);
  }

  lemma ReturnIsSpelled(ar: Arith, keyword: Token, result: Expr, toks: seq<Token>, cur: nat)
    requires Inside(toks, cur, [keyword] + PrintEnded(ar, result, Semicolon))
    ensures TokenAt(toks, cur, keyword.kind) && toks[cur] == keyword
    ensures ExprAt(result, Semicolon, toks, cur + 1, cur + 1 + |PrintEnded(ar, result, Semicolon)|)
  {
    hide PrintEnded, ExprAt;
    InsideIndex(toks, cur, [keyword] + PrintEnded(ar, result, Semicolon), 0);
    InsideParts(toks, cur, [keyword], PrintEnded(ar, result, Semicolon));
    EndedIsSpelled(ar, result, Semicolon, toks, cur + 1);
  }

  lemma {:induction false} IfIsSpelled(ar: Arith, s: Stmt, toks: seq<Token>, cur: nat)
    requires s.IfStmt? && Writable(s, false) && Inside(toks, cur, PrintStmt(ar, s))
    ensures StmtAt(s, toks, cur, cur + |PrintStmt(ar, s)|)
    decreases s, 1
  {
    hide PrintHead, HeadAt, StmtAt, Inside, PrintStmt, Complete, OpenIf;
    assert Writable(s.thn, false) && (s.els.NoStmt? || Writable(s.els, false));
    hide Writable;
    IfPieces(ar, s, toks, cur);
    var i := cur + |PrintHead(ar, If, s.cond)|;
    var j := i + |PrintStmt(ar, s.thn)|;
    HeadIsSpelled(ar, If, s.cond, toks, cur);
    PrintedIsSpelled(ar, s.thn, false, toks, i);
    if !s.els.NoStmt? { PrintedIsSpelled(ar, s.els, false, toks, j + 1); }
    IfAt(s, toks, cur, i, j, cur + |PrintStmt(ar, s)|);
  }

  lemma IfPieces(ar: Arith, s: Stmt, toks: seq<Token>, cur: nat)
    requires s.IfStmt? && Inside(toks, cur, PrintStmt(ar, s))
    ensures var i := cur + |PrintHead(ar, If, s.cond)|;
            var j := i + |PrintStmt(ar, s.thn)|;
            && Inside(toks, cur, PrintHead(ar, If, s.cond)) && Inside(toks, i, PrintStmt(ar, s.thn))
            && if s.els.NoStmt? then cur + |PrintStmt(ar, s)| == j
               else
                 && TokenAt(toks, j, Else) && Inside(toks, j + 1, PrintStmt(ar, s.els))
                 && cur + |PrintStmt(ar, s)| == j + 1 + |PrintStmt(ar, s.els)|
  {
    hide PrintHead, PrintElse, Inside;
    var head, thn, els := PrintHead(ar, If, s.cond), PrintStmt(ar, s.thn), PrintElse(ar, s.els);
    assert PrintStmt(ar, s) == head + (thn + els);
    hide PrintStmt;
    InsideParts(toks, cur, head, thn + els);
    InsideParts(toks, cur + |head|, thn, els);
    ElsePieces(ar, s.els, toks, cur + |head| + |thn|);
  }

  lemma ElsePieces(ar: Arith, els: Stmt, toks: seq<Token>, cur: nat)
    requires Inside(toks, cur, PrintElse(ar, els))
    ensures if els.NoStmt? then PrintElse(ar, els) == []
            else
              && TokenAt(toks, cur, Else) && Inside(toks, cur + 1, PrintStmt(ar, els))
              && |PrintElse(ar, els)| == 1 + |PrintStmt(ar, els)|
  {
    hide PrintStmt, Inside;
    if !els.NoStmt? {
      InsideParts(toks, cur, [Fixed(Else)], PrintStmt(ar, els));
      InsideToken(toks, cur, Else);
    }
  }

  lemma {:induction false} WhileIsSpelled(ar: Arith, s: Stmt, toks: seq<Token>, cur: nat)
    requires s.WhileStmt? && Writable(s, false) && Inside(toks, cur, PrintStmt(ar, s))
    ensures StmtAt(s, toks, cur, cur + |PrintStmt(ar, s)|)
    decreases s, 1
  {
    hide PrintHead, HeadAt, StmtAt, Inside;
    var head := PrintHead(ar, While, s.cond);
    InsideParts(toks, cur, head, PrintStmt(ar, s.loop));
    HeadIsSpelled(ar, While, s.cond, toks, cur);
    PrintedIsSpelled(ar, s.loop, false, toks, cur + |head|);
    WhileAt(s, toks, cur, cur + |head|, cur + |PrintStmt(ar, s)|);
  }

  lemma InsideToken(toks: seq<Token>, cur: nat, k: Kind)
    requires Inside(toks, cur, [Fixed(k)])
    ensures TokenAt(toks, cur, k)
  {
    InsideIndex(toks, cur, [Fixed(k)], 0);
  }

  lemma {:induction false} ForIsSpelled(ar: Arith, s: Stmt, toks: seq<Token>, cur: nat)
    requires s.ForStmt? && Writable(s, false) && Inside(toks, cur, PrintStmt(ar, s))
    ensures StmtAt(s, toks, cur, cur + |PrintStmt(ar, s)|)
    decreases s, 1
  {
    hide PrintStart, PrintEnded, PrintStmt, StartAt, ExprAt, StmtAt, Inside, WritableStart, Complete;
    assert WritableStart(s.start) && Writable(s.loop, false);
    hide Writable;
    ForPieces(ar, s, toks, cur);
    var i := cur + 2 + |PrintStart(ar, s.start)|;
    var j := i + |PrintEnded(ar, s.cond, Semicolon)|;
    var k := j + |PrintEnded(ar, s.step, RParen)|;
    StartIsSpelled(ar, s.start, toks, cur + 2);
    EndedIsSpelled(ar, s.cond, Semicolon, toks, i);
    EndedIsSpelled(ar, s.step, RParen, toks, j);
    PrintedIsSpelled(ar, s.loop, false, toks, k);
    ForAt(s, toks, cur, i, j, k, cur + |PrintStmt(ar, s)|);
  }

  lemma ForPieces(ar: Arith, s: Stmt, toks: seq<Token>, cur: nat)
    requires s.ForStmt? && Inside(toks, cur, PrintStmt(ar, s))
    ensures TokenAt(toks, cur, For) && TokenAt(toks, cur + 1, LParen)
    ensures var i := cur + 2 + |PrintStart(ar, s.start)|;
            var j := i + |PrintEnded(ar, s.cond, Semicolon)|;
            var k := j + |PrintEnded(ar, s.step, RParen)|;
            && Inside(toks, cur + 2, PrintStart(ar, s.start)) && Inside(toks, i, PrintEnded(ar, s.cond, Semicolon))
            && Inside(toks, j, PrintEnded(ar, s.step, RParen)) && Inside(toks, k, PrintStmt(ar, s.loop))
            && cur + |PrintStmt(ar, s)| == k + |PrintStmt(ar, s.loop)|
  {
    hide PrintStart, PrintEnded, Inside;
    var head, start, cond := [Fixed(For), Fixed(LParen)], PrintStart(ar, s.start), PrintEnded(ar, s.cond, Semicolon);
    var step, loop := PrintEnded(ar, s.step, RParen), PrintStmt(ar, s.loop);
    assert PrintStmt(ar, s) == head + (start + (cond + (step + loop)));
    hide PrintStmt;
    InsideParts(toks, cur, head, start + (cond + (step + loop)));
    TwoTokens(toks, cur, For, LParen);
    InsideParts(toks, cur + 2, start, cond + (step + loop));
    InsideParts(toks, cur + 2 + |start|, cond, step + loop);
    InsideParts(toks, cur + 2 + |start| + |cond|, step, loop);
  }

  lemma TwoTokens(toks: seq<Token>, cur: nat, k: Kind, l: Kind)
    requires Inside(toks, cur, [Fixed(k), Fixed(l)])
    ensures TokenAt(toks, cur, k) && TokenAt(toks, cur + 1, l)
  {
    InsideIndex(toks, cur, [Fixed(k), Fixed(l)], 0);
    InsideIndex(toks, cur, [Fixed(k), Fixed(l)], 1);
  }

  lemma {:induction false} FuncIsSpelled(ar: Arith, s: Stmt, toks: seq<Token>, cur: nat)
    requires s.FuncDecl? && Writable(s, false) && Inside(toks, cur, PrintStmt(ar, s))
    ensures StmtAt(s, toks, cur, cur + |PrintStmt(ar, s)|)
    decreases s, 1
  {
    hide PrintParams, PrintBlock, PrintStmt, ParamsAt, BlockAt, StmtAt, Inside, AllWritable;
    assert AllWritable(s.body) && s.name.kind == Identifier;
    hide Writable;
    FuncPieces(ar, s, toks, cur);
    ParamsAreSpelled(s.params, toks, cur + 3);
    BlockIsSpelled(ar, s.body, toks, cur + 3 + Width(s.params));
    FuncAt(s, toks, cur, cur + |PrintStmt(ar, s)|);
  }

  lemma FuncPieces(ar: Arith, s: Stmt, toks: seq<Token>, cur: nat)
    requires s.FuncDecl? && Inside(toks, cur, PrintStmt(ar, s))
    ensures TokenAt(toks, cur, Function) && TokenAt(toks, cur + 2, LParen)
    ensures cur + 1 < |toks| && toks[cur + 1] == s.name
    ensures var i := cur + 3 + Width(s.params);
            && Inside(toks, cur + 3, PrintParams(s.params)) && Inside(toks, i, PrintBlock(ar, s.body))
            && cur + |PrintStmt(ar, s)| == i + |PrintBlock(ar, s.body)|
  {
    hide PrintParams, PrintBlock, Inside;
    var head := [Fixed(Function), s.name, Fixed(LParen)];
    var params, body := PrintParams(s.params), PrintBlock(ar, s.body);
    assert PrintStmt(ar, s) == head + (params + body);
    hide PrintStmt;
    InsideParts(toks, cur, head, params + body);
    InsideParts(toks, cur + 3, params, body);
    InsideIndex(toks, cur, head, 0);
    InsideIndex(toks, cur, head, 1);
    InsideIndex(toks, cur, head, 2);
    InsideFits(toks, cur, head);
  }

  lemma InsideFits(toks: seq<Token>, cur: nat, part: seq<Token>)
    requires Inside(toks, cur, part)
    ensures cur + |part| <= |toks|
  {
  }

  lemma {:induction false} BlockIsSpelled(ar: Arith, stmts: seq<Stmt>, toks: seq<Token>, cur: nat)
    requires AllWritable(stmts) && Inside(toks, cur, PrintBlock(ar, stmts))
    ensures BlockAt(stmts, toks, cur, cur + |PrintBlock(ar, stmts)|)
    decreases stmts, 1
  {
    hide Print, StmtsAt, AllWritable;
    var inner := Print(ar, stmts);
    InsideParts(toks, cur, [Fixed(LBrace)], inner + [Fixed(RBrace)]);
    InsideParts(toks, cur + 1, inner, [Fixed(RBrace)]);
    InsideToken(toks, cur, LBrace);
    InsideToken(toks, cur + 1 + |inner|, RBrace);
    PrintedStmtsAreSpelled(ar, stmts, toks, cur + 1);
  }

  lemma {:induction false} PrintedStmtsAreSpelled(ar: Arith, stmts: seq<Stmt>, toks: seq<Token>, cur: nat)
    requires AllWritable(stmts) && Inside(toks, cur, Print(ar, stmts))
    ensures StmtsAt(stmts, toks, cur, cur + |Print(ar, stmts)|)
    decreases stmts, 0
  {
    hide PrintStmt, StmtAt, Writable, Inside;
    if stmts != [] {
      var first, rest := PrintStmt(ar, stmts[0]), Print(ar, stmts[1..]);
      InsideParts(toks, cur, first, rest);
      PrintedIsSpelled(ar, stmts[0], true, toks, cur);
      PrintedStmtsAreSpelled(ar, stmts[1..], toks, cur + |first|);
    }
  }

  /** Parsing the printed tokens of a writable program gives the program and consumes them all. */
  lemma PrintedProgramIsReadBack(ar: Arith, stmts: seq<Stmt>)
    requires AllWritable(stmts)
    ensures var toks := Print(ar, stmts) + [Plain(Eof)];
            Terminated(toks) && ParseProgram(toks, 0) == Ok(stmts, |Print(ar, stmts)|)
  {
    var toks := Print(ar, stmts) + [Plain(Eof)];
    hide Print, ParseProgram, AllWritable;
    assert toks[0..|Print(ar, stmts)|] == Print(ar, stmts);
    PrintedStmtsAreSpelled(ar, stmts, toks, 0);
    ProgramReadBack(stmts, toks, |Print(ar, stmts)|);
  }
}
