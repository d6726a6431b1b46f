/** Tokens, and the syntax trees that the parser builds from them. */
module Syntax {
  import opened Values

  datatype Kind =
    | LParen | RParen | LBrace | RBrace | LBracket | RBracket | Comma | Dot | Minus | Plus
    | Semicolon | Slash | Star
    | Bang | Equal | Less | Greater
    | BangEqual | EqualEqual | LessEqual | GreaterEqual | And | Or
    | Identifier | NumericTok | StringTok
    | Import | Export | Default
    | Var | Let | Const
    | Function | Class | Super | Extends | Delete | InstanceOf | TypeOf | New | This
    | Return | Break | Continue | Throw | If | Else | Switch | Case | Try | Catch
    | Do | While | For | In | Of
    | True | False | NullTok | UndefinedTok | Void
    | Eof

  datatype Token = Token(kind: Kind, lexeme: string, literal: Value)

  /** A token without a lexeme, as the lexer makes it for operators and punctuation. */
  function Plain(kind: Kind): Token {
    Token(kind, "", Text(""))
  }

  /** An identifier, as the lexer makes it. */
  function Named(text: string): Token {
    Token(Identifier, text, Text(text))
  }

  /** `NoExpr` is the null pointer that the parser leaves where an operand is missing. */
  datatype Expr =
    | NoExpr
    | Literal(value: Value)
    | Variable(name: Token)
    | Grouping(inner: Expr)
    | Unary(op: Token, right: Expr)
    | Binary(left: Expr, op: Token, right: Expr)
    | Logical(left: Expr, op: Token, right: Expr)
    | Assign(name: Token, source: Expr)
    | Call(callee: Expr, paren: Token, args: seq<Expr>)

  /** `NoStmt` is the null pointer of an absent branch or initializer. */
  datatype Stmt =
    | NoStmt
    | ExprStmt(expr: Expr)
    | VarDecl(name: Token, init: Expr)
    | FuncDecl(name: Token, params: seq<Token>, body: seq<Stmt>)
    | Block(stmts: seq<Stmt>)
    | IfStmt(cond: Expr, thn: Stmt, els: Stmt)
    | WhileStmt(cond: Expr, loop: Stmt)
    | ForStmt(start: Stmt, cond: Expr, step: Expr, loop: Stmt)
    | ReturnStmt(keyword: Token, result: Expr)
}
