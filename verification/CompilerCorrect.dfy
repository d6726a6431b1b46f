/**
 Running compiled code evaluates the tree it was compiled from.

 Operands are one byte, so the value at index `i` of the pool is read from index `i % 256`.  The
 theorems hold for pools of every size, in terms of that reading; up to 256 entries every value is
 its own, and the meaning of the code is the meaning of the tree.
 */
module CompilerCorrect {
  import opened Values
  import opened Syntax
  import opened Compiler
  import opened Machine

  type Globals = map<string, Value>

  datatype Evaluated = Evaluated(value: Value, globals: Globals)

  /** Trees of literals, variables, groupings and operators: those that all of their nodes emit code for. */
  predicate Compilable(e: Expr) {
    match e
    case Literal(_) => true
    case Variable(_) => true
    case Grouping(inner) => Compilable(inner)
    case Unary(op, right) => UnaryCode(op.kind) != [] && Compilable(right)
    case Binary(left, op, right) => BinaryCode(op.kind) != [] && Compilable(left) && Compilable(right)
    case Logical(left, op, right) => LogicalCode(op.kind) != [] && Compilable(left) && Compilable(right)
    case _ => false
  }

  // ----- The meaning of a tree under the operators of the machine -----

  /** Reading a global that is not there puts it there, as undefined. */
  function Lookup(globals: Globals, name: string): Evaluated {
    var touched := Touch(globals, name);
    Evaluated(touched[name], touched)
  }

  function Eval(ar: Arith, e: Expr, g: Globals): Evaluated
    requires Compilable(e)
  {
    match e
    case Literal(value) => Evaluated(value, g)
    case Variable(name) => Lookup(g, name.lexeme)
    case Grouping(inner) => Eval(ar, inner, g)
    case Unary(op, right) =>
      var r := Eval(ar, right, g);
      Evaluated(UnaryResult(ar, UnaryCode(op.kind)[0], r.value), r.globals)
    case Binary(left, op, right) =>
      var l := Eval(ar, left, g);
      var r := Eval(ar, right, l.globals);
      Evaluated(BinaryResult(ar, BinaryCode(op.kind)[0], l.value, r.value), r.globals)
    case Logical(left, op, right) =>
      var l := Eval(ar, left, g);
      var r := Eval(ar, right, l.globals);
      Evaluated(BinaryResult(ar, LogicalCode(op.kind)[0], l.value, r.value), r.globals)
  }

  /** The tree that the machine sees: each value replaced by the one its operand byte leads to. */
  function Reread(pool: seq<Value>, e: Expr, base: nat): (r: Expr)
    requires base + |Pool(e)| <= |pool|
    ensures |Pool(r)| == |Pool(e)| && (Compilable(e) ==> Compilable(r)) && (r.NoExpr? ==> e.NoExpr?)
    decreases e
  {
    match e
    case Literal(_) => Literal(pool[Operand(base)])
    case Variable(name) => Variable(name.(lexeme := AsText(pool[Operand(base)])))
    case Grouping(inner) => Grouping(Reread(pool, inner, base))
    case Unary(op, right) => Unary(op, Reread(pool, right, base))
    case Binary(left, op, right) =>
      Binary(Reread(pool, left, base), op, Reread(pool, right, base + |Pool(left)|))
    case Logical(left, op, right) =>
      Logical(Reread(pool, left, base), op, Reread(pool, right, base + |Pool(left)|))
    case _ => e
  }

  // ----- Code in place -----

  ghost predicate At(code: seq<Byte>, i: nat, part: seq<Byte>) {
    i + |part| <= |code| && code[i..i + |part|] == part
  }

  lemma AtConcat(code: seq<Byte>, i: nat, a: seq<Byte>, b: seq<Byte>)
    requires At(code, i, a + b)
    ensures At(code, i, a) && At(code, i + |a|, b)
  {
    assert code[i..i + |a|] == code[i..i + |a + b|][..|a|] == a;
    assert code[i + |a|..i + |a| + |b|] == code[i..i + |a + b|][|a|..] == b;
  }

  lemma AtIndex(code: seq<Byte>, i: nat, part: seq<Byte>, k: nat)
    requires At(code, i, part) && k < |part|
    ensures code[i + k] == part[k]
  {
    assert code[i + k] == code[i..i + |part|][k];
  }

  /** The state after the code of `e`: one more value on the stack. */
  function After(ar: Arith, pool: seq<Value>, e: Expr, base: nat, s: State): (t: State)
    requires Compilable(e) && base + |Pool(e)| <= |pool|
    ensures t.ip == s.ip + |Code(e, base)| && |t.stack| == |s.stack| + 1 && t.stack[..|s.stack|] == s.stack
  {
    var r := Eval(ar, Reread(pool, e, base), s.globals);
    State(s.ip + |Code(e, base)|, s.stack + [r.value], r.globals)
  }

  lemma UnaryStep(ar: Arith, code: seq<Byte>, pool: seq<Value>, s: State, op: Byte, rest: seq<Value>, v: Value)
    requires At(code, s.ip, [op]) && IsUnary(op) && s.stack == rest + [v]
    ensures Execute(ar, code, pool, s) ==
            Execute(ar, code, pool, State(s.ip + 1, rest + [UnaryResult(ar, op, v)], s.globals))
  {
    AtIndex(code, s.ip, [op], 0);
    assert s.stack[..|s.stack| - 1] == rest;
  }

  lemma BinaryStep(ar: Arith, code: seq<Byte>, pool: seq<Value>, s: State, op: Byte, rest: seq<Value>, v: Value,
                   w: Value)
    requires At(code, s.ip, [op]) && IsBinary(op) && s.stack == rest + [v] + [w]
    ensures Execute(ar, code, pool, s) ==
            Execute(ar, code, pool, State(s.ip + 1, rest + [BinaryResult(ar, op, v, w)], s.globals))
  {
    AtIndex(code, s.ip, [op], 0);
    assert s.stack[..|s.stack| - 2] == rest;
  }

  lemma LeafStep(ar: Arith, code: seq<Byte>, pool: seq<Value>, s: State, op: Byte, base: nat)
    requires At(code, s.ip, [op, Operand(base)]) && base < |pool| && (op == CONSTANT || op == GET_GLOBAL)
    ensures var v := pool[Operand(base)];
            var r := if op == CONSTANT then Evaluated(v, s.globals) else Lookup(s.globals, AsText(v));
            Execute(ar, code, pool, s) == Execute(ar, code, pool, State(s.ip + 2, s.stack + [r.value], r.globals))
  {
    AtIndex(code, s.ip, [op, Operand(base)], 0);
    AtIndex(code, s.ip, [op, Operand(base)], 1);
    assert s.stack[..|s.stack|] == s.stack;
  }

  lemma AfterLeaf(ar: Arith, pool: seq<Value>, e: Expr, base: nat, s: State)
    requires Compilable(e) && base + |Pool(e)| <= |pool|
    ensures e.Literal? ==>
              After(ar, pool, e, base, s) == State(s.ip + 2, s.stack + [pool[Operand(base)]], s.globals)
    ensures e.Variable? ==>
              var r := Lookup(s.globals, AsText(pool[Operand(base)]));
              After(ar, pool, e, base, s) == State(s.ip + 2, s.stack + [r.value], r.globals)
    ensures e.Grouping? ==> After(ar, pool, e, base, s) == After(ar, pool, e.inner, base, s)
  {
  }

  lemma AfterUnary(ar: Arith, pool: seq<Value>, e: Expr, base: nat, s: State)
    requires e.Unary? && Compilable(e) && base + |Pool(e)| <= |pool|
    ensures var t := After(ar, pool, e.right, base, s);
            After(ar, pool, e, base, s) ==
            State(t.ip + 1, s.stack + [UnaryResult(ar, UnaryCode(e.op.kind)[0], t.stack[|s.stack|])], t.globals)
  {
    hide UnaryCode, UnaryResult;
  }

  /** The state after two trees holds their values on top of the old stack. */
  lemma AfterBoth(ar: Arith, pool: seq<Value>, left: Expr, right: Expr, base: nat, s: State)
    requires Compilable(left) && Compilable(right) && base + |Pool(left)| + |Pool(right)| <= |pool|
    ensures var l := Eval(ar, Reread(pool, left, base), s.globals);
            var r := Eval(ar, Reread(pool, right, base + |Pool(left)|), l.globals);
            var u := After(ar, pool, right, base + |Pool(left)|, After(ar, pool, left, base, s));
            && u.ip == s.ip + |Code(left, base)| + |Code(right, base + |Pool(left)|)| && u.globals == r.globals
            && u.stack == s.stack + [l.value] + [r.value]
            && u.stack[|s.stack|] == l.value && u.stack[|s.stack| + 1] == r.value
  {
    hide Eval, Reread, Code, Pool, Compilable;
  }

  lemma AfterOperands(ar: Arith, pool: seq<Value>, e: Expr, base: nat, s: State)
    requires (e.Binary? || e.Logical?) && Compilable(e) && base + |Pool(e)| <= |pool|
    ensures var u := After(ar, pool, e.right, base + |Pool(e.left)|, After(ar, pool, e.left, base, s));
            var op := if e.Binary? then BinaryCode(e.op.kind) else LogicalCode(e.op.kind);
            var n := |s.stack|;
            After(ar, pool, e, base, s) ==
            State(u.ip + 1, s.stack + [BinaryResult(ar, op[0], u.stack[n], u.stack[n + 1])], u.globals)
  {
    hide Eval, Reread, Code, BinaryCode, LogicalCode, BinaryResult;
    EvalOperands(ar, pool, e, base, s.globals);
    OperandsLength(e, base);
    AfterBoth(ar, pool, e.left, e.right, base, s);
  }

  lemma EvalOperands(ar: Arith, pool: seq<Value>, e: Expr, base: nat, g: Globals)
    requires (e.Binary? || e.Logical?) && Compilable(e) && base + |Pool(e)| <= |pool|
    ensures var l := Eval(ar, Reread(pool, e.left, base), g);
            var r := Eval(ar, Reread(pool, e.right, base + |Pool(e.left)|), l.globals);
            var op := if e.Binary? then BinaryCode(e.op.kind) else LogicalCode(e.op.kind);
            Eval(ar, Reread(pool, e, base), g) == Evaluated(BinaryResult(ar, op[0], l.value, r.value), r.globals)
  {
    hide Eval, BinaryCode, LogicalCode, BinaryResult;
    EvalPair(ar, Reread(pool, e, base), g);
  }

  lemma EvalPair(ar: Arith, e: Expr, g: Globals)
    requires (e.Binary? || e.Logical?) && Compilable(e)
    ensures var l := Eval(ar, e.left, g);
            var r := Eval(ar, e.right, l.globals);
            var op := if e.Binary? then BinaryCode(e.op.kind) else LogicalCode(e.op.kind);
            Eval(ar, e, g) == Evaluated(BinaryResult(ar, op[0], l.value, r.value), r.globals)
  {
    hide BinaryCode, LogicalCode, BinaryResult;
  }

  lemma OperandsLength(e: Expr, base: nat)
    requires (e.Binary? || e.Logical?) && Compilable(e)
    ensures |Code(e, base)| == |Code(e.left, base)| + |Code(e.right, base + |Pool(e.left)|)| + 1
  {
    hide BinaryCode, LogicalCode;
  }

  /**
   From any state at the start of the code of a tree, execution reaches the end of that code with
   the old stack, the value of the tree on top of it, and no fault on the way.
   */
  lemma {:induction false} ExprRuns(ar: Arith, code: seq<Byte>, pool: seq<Value>, e: Expr, base: nat, s: State)
    requires Compilable(e) && base + |Pool(e)| <= |pool| && At(code, s.ip, Code(e, base))
    ensures Execute(ar, code, pool, s) == Execute(ar, code, pool, After(ar, pool, e, base, s))
    decreases e, 1
  {
    hide Execute, Step, BinaryResult, UnaryResult, BinaryCode, LogicalCode, UnaryCode;
    hide After, Eval, Reread, At;
    match e
    case Literal(_) =>
      AfterLeaf(ar, pool, e, base, s);
      LeafStep(ar, code, pool, s, CONSTANT, base);
    case Variable(_) =>
      AfterLeaf(ar, pool, e, base, s);
      LeafStep(ar, code, pool, s, GET_GLOBAL, base);
    case Grouping(inner) =>
      AfterLeaf(ar, pool, e, base, s); ExprRuns(ar, code, pool, inner, base, s);
    case Unary(op, right) =>
      AfterUnary(ar, pool, e, base, s);
      OperandRuns(ar, code, pool, e, right, UnaryCode(op.kind), base, s);
    case Binary(left, op, right) =>
      AfterOperands(ar, pool, e, base, s);
      OperandsRun(ar, code, pool, e, left, right, BinaryCode(op.kind), base, s);
    case Logical(left, op, right) =>
      AfterOperands(ar, pool, e, base, s);
      OperandsRun(ar, code, pool, e, left, right, LogicalCode(op.kind), base, s);
  }

  lemma {:induction false} OperandRuns(ar: Arith, code: seq<Byte>, pool: seq<Value>, parent: Expr, right: Expr,
                                       op: seq<Byte>, base: nat, s: State)
    requires right < parent && Compilable(right) && |op| == 1 && IsUnary(op[0])
    requires base + |Pool(right)| <= |pool| && At(code, s.ip, Code(right, base) + op)
    ensures var t := After(ar, pool, right, base, s);
            Execute(ar, code, pool, s) ==
            Execute(ar, code, pool, State(t.ip + 1, s.stack + [UnaryResult(ar, op[0], t.stack[|s.stack|])], t.globals))
    decreases parent, 0
  {
    hide Execute, Step, BinaryResult, UnaryResult, Eval, Reread, Code, Pool, Compilable, At, After;
    AtConcat(code, s.ip, Code(right, base), op);
    ExprRuns(ar, code, pool, right, base, s);
    var t := After(ar, pool, right, base, s);
    assert op == [op[0]];
    UnaryStep(ar, code, pool, t, op[0], s.stack, t.stack[|s.stack|]);
  }

  lemma {:induction false} OperandsRun(ar: Arith, code: seq<Byte>, pool: seq<Value>, parent: Expr, left: Expr,
                                       right: Expr,
                                       op: seq<Byte>, base: nat, s: State)
    requires left < parent && right < parent
    requires Compilable(left) && Compilable(right) && |op| == 1 && IsBinary(op[0])
    requires base + |Pool(left)| + |Pool(right)| <= |pool|
    requires At(code, s.ip, Code(left, base) + Code(right, base + |Pool(left)|) + op)
    ensures var t := After(ar, pool, left, base, s);
            var u := After(ar, pool, right, base + |Pool(left)|, t);
            var n := |s.stack|;
            Execute(ar, code, pool, s) ==
            Execute(ar, code, pool,
                    State(u.ip + 1, s.stack + [BinaryResult(ar, op[0], u.stack[n], u.stack[n + 1])], u.globals))
    decreases parent, 0
  {
    hide Execute, Step, BinaryResult, UnaryResult, Eval, Reread, Code, Pool, Compilable, At, After;
    var a, b := Code(left, base), Code(right, base + |Pool(left)|);
    AtConcat(code, s.ip, a + b, op);
    AtConcat(code, s.ip, a, b);
    var t := After(ar, pool, left, base, s);
    var u := After(ar, pool, right, base + |Pool(left)|, t);
    AfterBoth(ar, pool, left, right, base, s);
    ExprRuns(ar, code, pool, left, base, s);
    ExprRuns(ar, code, pool, right, base + |Pool(left)|, t);
    assert op == [op[0]];
    BinaryStep(ar, code, pool, u, op[0], s.stack, u.stack[|s.stack|], u.stack[|s.stack| + 1]);
  }

  // ----- Declarations and programs -----

  /** Initializers are missing or compilable; statements that emit nothing may be anything. */
  predicate CompilableStmt(s: Stmt) {
    s.VarDecl? ==> s.init.NoExpr? || Compilable(s.init)
  }

  predicate CompilableProgram(stmts: seq<Stmt>) {
    stmts == [] || (CompilableStmt(stmts[0]) && CompilableProgram(stmts[1..]))
  }

  /** A missing initializer as the tree it is compiled like. */
  function Initializer(init: Expr): Expr {
    if init.NoExpr? then Literal(Undefined) else init
  }

  /** Declares variables from left to right, up to the first return; nothing else has an effect. */
  function EvalProgram(ar: Arith, stmts: seq<Stmt>, g: Globals): Globals
    requires CompilableProgram(stmts)
  {
    if stmts == [] || stmts[0].ReturnStmt? then g
    else if stmts[0].VarDecl? then
      var r := Eval(ar, Initializer(stmts[0].init), g);
      EvalProgram(ar, stmts[1..], r.globals[stmts[0].name.lexeme := r.value])
    else EvalProgram(ar, stmts[1..], g)
  }

  function RereadStmt(pool: seq<Value>, s: Stmt, base: nat): (r: Stmt)
    requires base + |StmtPool(s)| <= |pool|
    ensures |StmtPool(r)| == |StmtPool(s)| && (CompilableStmt(s) ==> CompilableStmt(r))
  {
    match s
    case VarDecl(name, init) =>
      VarDecl(name.(lexeme := AsText(pool[Operand(base + |InitPool(init)|)])), Reread(pool, Initializer(init), base))
    case _ => s
  }

  function RereadProgram(pool: seq<Value>, stmts: seq<Stmt>, base: nat): (r: seq<Stmt>)
    requires base + |ProgramPool(stmts)| <= |pool|
    ensures CompilableProgram(stmts) ==> CompilableProgram(r)
    decreases stmts
  {
    if stmts == [] then []
    else [RereadStmt(pool, stmts[0], base)] + RereadProgram(pool, stmts[1..], base + |StmtPool(stmts[0])|)
  }

  lemma DeclRuns(ar: Arith, code: seq<Byte>, pool: seq<Value>, s: Stmt, base: nat, st: State)
    requires s.VarDecl? && CompilableStmt(s) && base + |StmtPool(s)| <= |pool| && At(code, st.ip, StmtCode(s, base))
    ensures var d := RereadStmt(pool, s, base);
            var r := Eval(ar, d.init, st.globals);
            Execute(ar, code, pool, st) ==
            Execute(ar, code, pool, State(st.ip + |StmtCode(s, base)|, st.stack, r.globals[d.name.lexeme := r.value]))
  {
    hide Execute, Eval, Reread, Code, Pool, At, InitCode, InitPool, StmtCode, Operand, Initializer, RereadStmt,
         CompilableStmt;
    var e := Initializer(s.init);
    InitializerCode(s.init, base);
    DeclReread(pool, s, base);
    DeclPieces(code, st.ip, s, base);
    ExprRuns(ar, code, pool, e, base, st);
    SetStep(ar, code, pool, After(ar, pool, e, base, st), st.stack, base + |InitPool(s.init)|);
  }

  /** A declaration is the code of its initializer and the instruction that stores its value. */
  lemma DeclPieces(code: seq<Byte>, i: nat, s: Stmt, base: nat)
    requires s.VarDecl? && At(code, i, StmtCode(s, base))
    ensures At(code, i, InitCode(s.init, base))
    ensures var k := i + |InitCode(s.init, base)|;
            && k + 1 < |code| && code[k] == SET_GLOBAL && code[k + 1] == Operand(base + |InitPool(s.init)|)
            && i + |StmtCode(s, base)| == k + 2
  {
    var store := [SET_GLOBAL, Operand(base + |InitPool(s.init)|)];
    assert StmtCode(s, base) == InitCode(s.init, base) + store;
    hide StmtCode, InitCode, InitPool, Operand, At;
    var k := i + |InitCode(s.init, base)|;
    AtConcat(code, i, InitCode(s.init, base), store);
    AtIndex(code, k, store, 0);
    AtIndex(code, k, store, 1);
  }

  lemma DeclReread(pool: seq<Value>, s: Stmt, base: nat)
    requires s.VarDecl? && base + |StmtPool(s)| <= |pool|
    ensures base + |Pool(Initializer(s.init))| <= |pool| && base + |InitPool(s.init)| < |pool|
    ensures var d := RereadStmt(pool, s, base);
            && d.VarDecl? && d.init == Reread(pool, Initializer(s.init), base) && !d.init.NoExpr?
            && d.name.lexeme == AsText(pool[Operand(base + |InitPool(s.init)|)])
    ensures CompilableStmt(s) ==> Compilable(Initializer(s.init))
  {
    hide Reread, Pool;
    InitializerCode(s.init, base);
  }

  lemma InitializerCode(init: Expr, base: nat)
    ensures Code(Initializer(init), base) == InitCode(init, base) && Pool(Initializer(init)) == InitPool(init)
  {
  }

  lemma SetStep(ar: Arith, code: seq<Byte>, pool: seq<Value>, s: State, rest: seq<Value>, index: nat)
    requires s.ip + 1 < |code| && code[s.ip] == SET_GLOBAL && code[s.ip + 1] == Operand(index)
    requires index < |pool| && |s.stack| == |rest| + 1 && s.stack[..|rest|] == rest
    ensures Execute(ar, code, pool, s) ==
            Execute(ar, code, pool, State(s.ip + 2, rest, s.globals[AsText(pool[Operand(index)]) := s.stack[|rest|]]))
  {
  }

  /** Any program runs to its end or its first return, keeps the stack, and sets the globals as declared. */
  lemma {:induction false} ProgramRuns(ar: Arith, code: seq<Byte>, pool: seq<Value>, stmts: seq<Stmt>, base: nat,
                                       st: State)
    requires CompilableProgram(stmts) && base + |ProgramPool(stmts)| <= |pool|
    requires At(code, st.ip, ProgramCode(stmts, base)) && st.ip + |ProgramCode(stmts, base)| == |code|
    ensures var r := Execute(ar, code, pool, st);
            && r.Halted? && r.state.stack == st.stack
            && r.state.globals == EvalProgram(ar, RereadProgram(pool, stmts, base), st.globals)
    decreases stmts
  {
    hide Execute, Eval, Reread, RereadStmt, StmtCode, StmtPool, At, CompilableStmt;
    if stmts == [] {
      EndStep(ar, code, pool, st);
    } else {
      var s, next := stmts[0], base + |StmtPool(stmts[0])|;
      AtConcat(code, st.ip, StmtCode(s, base), ProgramCode(stmts[1..], next));
      if s.VarDecl? {
        var d := RereadStmt(pool, s, base);
        DeclReread(pool, s, base);
        DeclRuns(ar, code, pool, s, base, st);
        var r := Eval(ar, d.init, st.globals);
        var t := State(st.ip + |StmtCode(s, base)|, st.stack, r.globals[d.name.lexeme := r.value]);
        ProgramRuns(ar, code, pool, stmts[1..], next, t);
        assert Initializer(d.init) == d.init;
      } else {
        NoDeclaration(pool, s, base);
        if s.ReturnStmt? {
          ReturnStep(ar, code, pool, st);
        } else {
          ProgramRuns(ar, code, pool, stmts[1..], next, st);
        }
      }
    }
  }

  lemma NoDeclaration(pool: seq<Value>, s: Stmt, base: nat)
    requires !s.VarDecl? && base <= |pool|
    ensures StmtPool(s) == [] && RereadStmt(pool, s, base) == s
    ensures StmtCode(s, base) == if s.ReturnStmt? then [RETURN] else []
  {
  }

  lemma EndStep(ar: Arith, code: seq<Byte>, pool: seq<Value>, st: State)
    requires st.ip >= |code|
    ensures Execute(ar, code, pool, st) == Halted(st)
  {
  }

  lemma ReturnStep(ar: Arith, code: seq<Byte>, pool: seq<Value>, st: State)
    requires At(code, st.ip, [RETURN])
    ensures Execute(ar, code, pool, st) == Halted(st.(ip := st.ip + 1))
  {
    AtIndex(code, st.ip, [RETURN], 0);
  }
}
