/**
 The parser object: a token list and a cursor that every method advances.  Each method computes
 what the function of the same name in Grammar.dfy says of the cursor at which it starts; when it
 succeeds it leaves the cursor where that function says.
 */
module Parser {
  import opened Syntax
  import opened Grammar

  class JSParser {
    const tokens: seq<Token>
    var current: nat

    ghost predicate Valid()
      reads this
    {
      At(tokens, current)
    }

    ghost predicate Done<T>(r: Result<T>)
      reads this
    {
      r.Ok? ==> current == r.next
    }

    constructor (tokens: seq<Token>)
      requires Terminated(tokens)
      ensures Valid() && this.tokens == tokens && current == 0
    {
      this.tokens, current := tokens, 0;
    }

    function Peek(): Kind
      requires Valid()
      reads this
    {
      tokens[current].kind
    }

    method Match(kind: Kind) returns (matched: bool)
      requires Valid() && kind != Eof
      modifies this
      ensures Valid() && matched == (tokens[old(current)].kind == kind)
      ensures current == old(current) + if matched then 1 else 0
    {
      matched := Peek() == kind;
      if matched { current := current + 1; }
    }

    method Consume(kind: Kind) returns (r: Result<Token>)
      requires Valid() && kind != Eof
      modifies this
      ensures Valid() && r == Expect(tokens, old(current), kind) && Done(r)
    {
      if Peek() != kind { return Err(Unexpected); }
      current := current + 1;
      r := Ok(tokens[current - 1], current);
    }

    // ----- Expressions -----

    method ParseExpr() returns (r: Result<Expr>)
      requires Valid()
      modifies this
      ensures Valid() && r == Grammar.ParseExpr(tokens, old(current)) && Done(r)
      decreases |tokens| - current, 11
    {
      r := ParseBinary(1);
      if r.Err? { return; }
      var target := r.value;
      var hasSource := Match(Equal);
      if !hasSource { return; }
      r := ParseExpr();
      if r.Err? { return; }
      match target
      case NoExpr => return Err(NullOperand);
      case Variable(name) => return Ok(Assign(name, r.value), current);
      case _ => return Err(InvalidTarget);
    }

    method ParseBinary(level: nat) returns (r: Result<Expr>)
      requires Valid() && 1 <= level <= 7
      modifies this
      ensures Valid() && r == Grammar.ParseBinary(level, tokens, old(current)) && Done(r)
      decreases |tokens| - current, 11 - level
    {
      if level == 7 {
        r := ParseUnary();
        return;
      }
      r := ParseBinary(level + 1);
      if r.Err? { return; }
      var expr := r.value;
      while OpLevel(Peek()) == level
        invariant Valid() && old(current) <= current
        invariant Grammar.ParseBinary(level, tokens, old(current)) == ParseRest(level, tokens, expr, current)
        decreases |tokens| - current
      {
        var op := tokens[current];
        current := current + 1;
        r := ParseBinary(level + 1);
        if r.Err? { return; }
        expr := Node(level, expr, op, r.value);
      }
      r := Ok(expr, current);
    }

    method ParseUnary() returns (r: Result<Expr>)
      requires Valid()
      modifies this
      ensures Valid() && r == Grammar.ParseUnary(tokens, old(current)) && Done(r)
      decreases |tokens| - current, 3
    {
      if Peek() != Bang && Peek() != Minus {
        r := ParseCall();
        return;
      }
      current := current + 1;
      var op := tokens[current - 1];
      r := ParseUnary();
      if r.Err? { return; }
      r := if r.value.NoExpr? then Err(NullOperand) else Ok(Unary(op, r.value), current);
    }

    method ParseCall() returns (r: Result<Expr>)
      requires Valid()
      modifies this
      ensures Valid() && r == Grammar.ParseCall(tokens, old(current)) && Done(r)
      decreases |tokens| - current, 2
    {
      r := ParsePrimary();
      if r.Err? { return; }
      var expr := r.value;
      while Peek() == LParen
        invariant Valid() && old(current) <= current
        invariant Grammar.ParseCall(tokens, old(current)) == ParseCalls(tokens, expr, current)
        decreases |tokens| - current
      {
        current := current + 1;
        var args := Ok([], current);
        if Peek() != RParen {
          args := ParseArgs();
          if args.Err? { return Err(args.why); }
        }
        var paren := Consume(RParen);
        if paren.Err? { return Err(paren.why); }
        expr := Call(expr, paren.value, args.value);
      }
      r := Ok(expr, current);
    }

    method ParseArgs() returns (r: Result<seq<Expr>>)
      requires Valid()
      modifies this
      ensures Valid() && r == Grammar.ParseArgs(tokens, [], old(current)) && Done(r)
      decreases |tokens| - current, 12
    {
      var args, more := [], true;
      while more
        invariant Valid() && old(current) <= current
        invariant if more then Grammar.ParseArgs(tokens, [], old(current)) == Grammar.ParseArgs(tokens, args, current)
                  else Grammar.ParseArgs(tokens, [], old(current)) == Ok(args, current)
        decreases more, |tokens| - current
      {
        if |args| >= MAX_ARGS { return Err(TooManyArguments); }
        var arg := ParseExpr();
        if arg.Err? { return Err(arg.why); }
        args := args + [arg.value];
        more := Match(Comma);
      }
      r := Ok(args, current);
    }

    method ParsePrimary() returns (r: Result<Expr>)
      requires Valid()
      modifies this
      ensures Valid() && r == Grammar.ParsePrimary(tokens, old(current)) && Done(r)
      decreases |tokens| - current, 1
    {
      var t := tokens[current];
      if IsLiteralKind(t.kind) {
        current := current + 1;
        return Ok(Literal(LiteralValue(t)), current);
      }
      if t.kind == Identifier {
        current := current + 1;
        return Ok(Variable(t), current);
      }
      if t.kind == LParen {
        current := current + 1;
        r := ParseExpr();
        if r.Err? { return; }
        var paren := Consume(RParen);
        if paren.Err? { return Err(paren.why); }
        return Ok(Grouping(r.value), current);
      }
      r := Ok(NoExpr, current);
    }

    // ----- Statements -----

    /** The whole program; parsing it does not return where a declaration consumes nothing. */
    method Parse() returns (r: Result<seq<Stmt>>)
      requires Valid()
      modifies this
      ensures Valid() && r == ParseProgram(tokens, old(current)) && Done(r)
    {
      r := ParseDecls(false);
    }

    method ParseDecls(inBlock: bool) returns (r: Result<seq<Stmt>>)
      requires Valid()
      modifies this
      ensures Valid() && r == Grammar.ParseDecls(tokens, inBlock, [], old(current)) && Done(r)
      decreases |tokens| - current, 23
    {
      var stmts := [];
      while Peek() != Eof && !(inBlock && Peek() == RBrace)
        invariant Valid() && old(current) <= current
        invariant Grammar.ParseDecls(tokens, inBlock, [], old(current)) ==
                  Grammar.ParseDecls(tokens, inBlock, stmts, current)
        decreases |tokens| - current
      {
        var before := current;
        var stmt := ParseDecl();
        if stmt.Err? { return Err(stmt.why); }
        if current == before { return Err(Diverges); }
        stmts := stmts + [stmt.value];
      }
      r := Ok(stmts, current);
    }

    method ParseDecl() returns (r: Result<Stmt>)
      requires Valid()
      modifies this
      ensures Valid() && r == Grammar.ParseDecl(tokens, old(current)) && Done(r)
      decreases |tokens| - current, 22
    {
      var isVar := Match(Var);
      var isLet := false;
      if !isVar { isLet := Match(Let); }
      if isVar || isLet { r := ParseVarDecl(); } else { r := ParseStmt(); }
    }

    method ParseStmt() returns (r: Result<Stmt>)
      requires Valid()
      modifies this
      ensures Valid() && r == Grammar.ParseStmt(tokens, old(current)) && Done(r)
      decreases |tokens| - current, 21
    {
      hide Grammar.ParseFuncDecl, Grammar.ParseIf, Grammar.ParseWhile, Grammar.ParseFor, Grammar.ParseReturn;
      hide Grammar.ParseBlock, Grammar.ParseExprStmt;
      match Peek()
      case Function => current := current + 1; r := ParseFuncDecl();
      case If => current := current + 1; r := ParseIf();
      case While => current := current + 1; r := ParseWhile();
      case For => current := current + 1; r := ParseFor();
      case Return => current := current + 1; r := ParseReturn();
      case LBrace =>
        current := current + 1;
        var stmts := ParseBlock();
        r := if stmts.Err? then Err(stmts.why) else Ok(Block(stmts.value), current);
      case _ => r := ParseExprStmt();
    }

    method ParseBlock() returns (r: Result<seq<Stmt>>)
      requires Valid()
      modifies this
      ensures Valid() && r == Grammar.ParseBlock(tokens, old(current)) && Done(r)
      decreases |tokens| - current, 24
    {
      var stmts := ParseDecls(true);
      if stmts.Err? { return stmts; }
      var brace := Consume(RBrace);
      r := if brace.Err? then Err(brace.why) else Ok(stmts.value, current);
    }

    method ParseCondition() returns (r: Result<Expr>)
      requires Valid()
      modifies this
      ensures Valid() && r == Grammar.ParseCondition(tokens, old(current)) && Done(r)
    {
      var paren := Consume(LParen);
      if paren.Err? { return Err(paren.why); }
      r := ParseExpr();
      if r.Err? { return; }
      paren := Consume(RParen);
      r := if paren.Err? then Err(paren.why) else Ok(r.value, current);
    }

    method ParseIf() returns (r: Result<Stmt>)
      requires Valid()
      modifies this
      ensures Valid() && r == Grammar.ParseIf(tokens, old(current)) && Done(r)
      decreases |tokens| - current, 20
    {
      var cond := ParseCondition();
      if cond.Err? { return Err(cond.why); }
      var thn := ParseStmt();
      if thn.Err? { return thn; }
      var hasElse := Match(Else);
      if !hasElse { return Ok(IfStmt(cond.value, thn.value, NoStmt), current); }
      var els := ParseStmt();
      r := if els.Err? then els else Ok(IfStmt(cond.value, thn.value, els.value), current);
    }

    method ParseWhile() returns (r: Result<Stmt>)
      requires Valid()
      modifies this
      ensures Valid() && r == Grammar.ParseWhile(tokens, old(current)) && Done(r)
      decreases |tokens| - current, 20
    {
      var cond := ParseCondition();
      if cond.Err? { return Err(cond.why); }
      var loop := ParseStmt();
      r := if loop.Err? then loop else Ok(WhileStmt(cond.value, loop.value), current);
    }

    method ParseForStart() returns (r: Result<Stmt>)
      requires Valid()
      modifies this
      ensures Valid() && r == Grammar.ParseForStart(tokens, old(current)) && Done(r)
    {
      match Peek()
      case Semicolon => current := current + 1; r := Ok(NoStmt, current);
      case Var => current := current + 1; r := ParseVarDecl();
      case _ => r := ParseExprStmt();
    }

    method ParseOptional(stop: Kind) returns (r: Result<Expr>)
      requires Valid() && stop != Eof
      modifies this
      ensures Valid() && r == Grammar.ParseOptional(tokens, old(current), stop) && Done(r)
    {
      r := Ok(NoExpr, current);
      if Peek() != stop {
        r := ParseExpr();
        if r.Err? { return; }
      }
      var end := Consume(stop);
      r := if end.Err? then Err(end.why) else Ok(r.value, current);
    }

    method ParseFor() returns (r: Result<Stmt>)
      requires Valid()
      modifies this
      ensures Valid() && r == Grammar.ParseFor(tokens, old(current)) && Done(r)
      decreases |tokens| - current, 20
    {
      var paren := Consume(LParen);
      if paren.Err? { return Err(paren.why); }
      var start := ParseForStart();
      if start.Err? { return start; }
      var cond := ParseOptional(Semicolon);
      if cond.Err? { return Err(cond.why); }
      var step := ParseOptional(RParen);
      if step.Err? { return Err(step.why); }
      var loop := ParseStmt();
      r := if loop.Err? then loop else Ok(ForStmt(start.value, cond.value, step.value, loop.value), current);
    }

    method ParseReturn() returns (r: Result<Stmt>)
      requires Valid() && current > 0
      modifies this
      ensures Valid() && r == Grammar.ParseReturn(tokens, old(current)) && Done(r)
    {
      var keyword := tokens[current - 1];
      var result := ParseOptional(Semicolon);
      r := if result.Err? then Err(result.why) else Ok(ReturnStmt(keyword, result.value), current);
    }

    method ParseVarDecl() returns (r: Result<Stmt>)
      requires Valid()
      modifies this
      ensures Valid() && r == Grammar.ParseVarDecl(tokens, old(current)) && Done(r)
    {
      var name := Consume(Identifier);
      if name.Err? { return Err(name.why); }
      var init := Ok(NoExpr, current);
      var hasInit := Match(Equal);
      if hasInit {
        init := ParseExpr();
        if init.Err? { return Err(init.why); }
      }
      var end := Consume(Semicolon);
      r := if end.Err? then Err(end.why) else Ok(VarDecl(name.value, init.value), current);
    }

    method ParseParams() returns (r: Result<seq<Token>>)
      requires Valid()
      modifies this
      ensures Valid() && r == Grammar.ParseParams(tokens, [], old(current)) && Done(r)
    {
      var params, more := [], true;
      while more
        invariant Valid() && old(current) <= current
        invariant if more
                  then Grammar.ParseParams(tokens, [], old(current)) == Grammar.ParseParams(tokens, params, current)
                  else Grammar.ParseParams(tokens, [], old(current)) == Ok(params, current)
        decreases more, |tokens| - current
      {
        if |params| >= MAX_ARGS { return Err(TooManyArguments); }
        var param := Consume(Identifier);
        if param.Err? { return Err(param.why); }
        params := params + [param.value];
        more := Match(Comma);
      }
      r := Ok(params, current);
    }

    method ParseFuncDecl() returns (r: Result<Stmt>)
      requires Valid()
      modifies this
      ensures Valid() && r == Grammar.ParseFuncDecl(tokens, old(current)) && Done(r)
      decreases |tokens| - current, 20
    {
      var name := Consume(Identifier);
      if name.Err? { return Err(name.why); }
      var open := Consume(LParen);
      if open.Err? { return Err(open.why); }
      var params := Ok([], current);
      if Peek() != RParen {
        params := ParseParams();
        if params.Err? { return Err(params.why); }
      }
      var close := Consume(RParen);
      if close.Err? { return Err(close.why); }
      var brace := Consume(LBrace);
      if brace.Err? { return Err(brace.why); }
      var body := ParseBlock();
      r := if body.Err? then Err(body.why) else Ok(FuncDecl(name.value, params.value, body.value), current);
    }

    method ParseExprStmt() returns (r: Result<Stmt>)
      requires Valid()
      modifies this
      ensures Valid() && r == Grammar.ParseExprStmt(tokens, old(current)) && Done(r)
    {
      var expr := ParseExpr();
      if expr.Err? { return Err(expr.why); }
      if expr.value.NoExpr? { return Ok(ExprStmt(NoExpr), current); }
      if current + 1 >= |tokens| { return Err(PastEnd); }
      var end := Consume(Semicolon);
      r := if end.Err? then Err(end.why) else Ok(ExprStmt(expr.value), current);
    }
  }
}
