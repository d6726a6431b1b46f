/**
 The limits of the compiler: how many constants it can number, and which trees it has code for.
 */
module CompilerLimits {
  import opened Values
  import opened Syntax
  import opened Compiler
  import opened Machine
  import opened CompilerCorrect

  // ----- Where every value is its own -----

  /** Cutting an index of the pool to a byte leads to the same value; so it is up to 256 entries. */
  predicate Repeats(pool: seq<Value>) {
    forall i | 0 <= i < |pool| :: pool[i % 256] == pool[i]
  }

  lemma SmallPoolsRepeat(pool: seq<Value>)
    requires |pool| <= 256
    ensures Repeats(pool)
  {
    forall i | 0 <= i < |pool| ensures pool[i % 256] == pool[i] {
      assert i % 256 == i;
    }
  }

  // ----- How large the pool is -----

  /** The literals in what is compiled of a tree. */
  function Literals(e: Expr): nat {
    match e
    case Literal(_) => 1
    case Grouping(inner) => Literals(inner)
    case Unary(_, right) => Literals(right)
    case Binary(left, _, right) => Literals(left) + Literals(right)
    case Logical(left, _, right) => Literals(left) + Literals(right)
    case _ => 0
  }

  /** The references to variables in what is compiled of a tree, repeated ones included. */
  function References(e: Expr): nat {
    match e
    case Variable(_) => 1
    case Grouping(inner) => References(inner)
    case Unary(_, right) => References(right)
    case Binary(left, _, right) => References(left) + References(right)
    case Logical(left, _, right) => References(left) + References(right)
    case _ => 0
  }

  function ProgramLiterals(stmts: seq<Stmt>): nat {
    if stmts == [] then 0
    else (if stmts[0].VarDecl? then Literals(stmts[0].init) else 0) + ProgramLiterals(stmts[1..])
  }

  function ProgramReferences(stmts: seq<Stmt>): nat {
    if stmts == [] then 0
    else (if stmts[0].VarDecl? then References(stmts[0].init) else 0) + ProgramReferences(stmts[1..])
  }

  function Declarations(stmts: seq<Stmt>): nat {
    if stmts == [] then 0 else (if stmts[0].VarDecl? then 1 else 0) + Declarations(stmts[1..])
  }

  function MissingInitializers(stmts: seq<Stmt>): nat {
    if stmts == [] then 0
    else (if stmts[0].VarDecl? && stmts[0].init.NoExpr? then 1 else 0) + MissingInitializers(stmts[1..])
  }

  lemma {:induction false} PoolSize(e: Expr)
    ensures |Pool(e)| == Literals(e) + References(e)
    decreases e
  {
    match e
    case Grouping(inner) => PoolSize(inner);
    case Unary(_, right) => PoolSize(right);
    case Binary(left, _, right) =>
      PoolSize(left);
      PoolSize(right);
    case Logical(left, _, right) =>
      PoolSize(left);
      PoolSize(right);
    case _ =>
  }

  /** No value is shared: one entry for each literal, reference, declared name and missing initializer. */
  lemma {:induction false} ProgramPoolSize(stmts: seq<Stmt>)
    ensures |ProgramPool(stmts)| ==
            ProgramLiterals(stmts) + ProgramReferences(stmts) + Declarations(stmts) + MissingInitializers(stmts)
    decreases stmts
  {
    hide Pool, Literals, References;
    if stmts != [] {
      if stmts[0].VarDecl? {
        PoolSize(stmts[0].init);
        NothingInPool(stmts[0].init);
      }
      ProgramPoolSize(stmts[1..]);
    }
  }

  lemma NothingInPool(e: Expr)
    ensures e.NoExpr? ==> |Pool(e)| == Literals(e) == References(e) == 0
  {
  }

  lemma {:induction false} RereadIsIdentity(pool: seq<Value>, e: Expr, base: nat)
    requires Repeats(pool) && base + |Pool(e)| <= |pool| && pool[base..base + |Pool(e)|] == Pool(e)
    ensures Reread(pool, e, base) == e
    decreases e, 1
  {
    hide Operand, Repeats;
    match e
    case Literal(value) => PoolLeaf(pool, base, value);
    case Variable(name) => PoolLeaf(pool, base, Text(name.lexeme));
    case Grouping(inner) => RereadIsIdentity(pool, inner, base);
    case Unary(_, right) => RereadIsIdentity(pool, right, base);
    case Binary(left, _, right) => OperandsAreThemselves(pool, e, left, right, base);
    case Logical(left, _, right) => OperandsAreThemselves(pool, e, left, right, base);
    case _ =>
  }

  lemma {:induction false} OperandsAreThemselves(pool: seq<Value>, parent: Expr, left: Expr, right: Expr, base: nat)
    requires left < parent && right < parent && Repeats(pool) && base + |Pool(left) + Pool(right)| <= |pool|
    requires pool[base..base + |Pool(left) + Pool(right)|] == Pool(left) + Pool(right)
    ensures Reread(pool, left, base) == left && Reread(pool, right, base + |Pool(left)|) == right
    decreases parent, 0
  {
    hide Reread, Pool, Repeats;
    PoolParts(pool, base, Pool(left), Pool(right));
    RereadIsIdentity(pool, left, base);
    RereadIsIdentity(pool, right, base + |Pool(left)|);
  }

  lemma PoolLeaf(pool: seq<Value>, base: nat, v: Value)
    requires Repeats(pool) && base < |pool| && pool[base..base + 1] == [v]
    ensures pool[Operand(base)] == v
  {
    assert pool[base..base + 1][0] == pool[base];
  }

  lemma PoolParts(pool: seq<Value>, base: nat, a: seq<Value>, b: seq<Value>)
    requires base + |a + b| <= |pool| && pool[base..base + |a + b|] == a + b
    ensures pool[base..base + |a|] == a && pool[base + |a|..base + |a| + |b|] == b
  {
    assert pool[base..base + |a|] == pool[base..base + |a + b|][..|a|];
    assert pool[base + |a|..base + |a| + |b|] == pool[base..base + |a + b|][|a|..];
  }

  lemma {:induction false} RereadProgramMeansTheSame(ar: Arith, pool: seq<Value>, stmts: seq<Stmt>, base: nat,
                                                     g: Globals)
    requires CompilableProgram(stmts)
    requires Repeats(pool) && base + |ProgramPool(stmts)| <= |pool|
    requires pool[base..base + |ProgramPool(stmts)|] == ProgramPool(stmts)
    ensures EvalProgram(ar, RereadProgram(pool, stmts, base), g) == EvalProgram(ar, stmts, g)
    decreases stmts
  {
    hide Reread, Eval, EvalProgram, StmtPool, RereadStmt, CompilableStmt, Repeats, Initializer, Compilable, Pool;
    if stmts == [] {
      EvalNothing(ar, g);
    } else {
      var s, next := stmts[0], base + |StmtPool(stmts[0])|;
      PoolParts(pool, base, StmtPool(s), ProgramPool(stmts[1..]));
      EvalFirst(ar, s, stmts[1..], g);
      EvalFirst(ar, RereadStmt(pool, s, base), RereadProgram(pool, stmts[1..], next), g);
      assert stmts == [s] + stmts[1..];
      if s.VarDecl? {
        DeclReread(pool, s, base);
        DeclIsItself(pool, s, base);
        var r := Eval(ar, Initializer(s.init), g);
        RereadProgramMeansTheSame(ar, pool, stmts[1..], next, r.globals[s.name.lexeme := r.value]);
      } else {
        NoDeclaration(pool, s, base);
        RereadProgramMeansTheSame(ar, pool, stmts[1..], next, g);
      }
    }
  }

  lemma EvalNothing(ar: Arith, g: Globals)
    ensures EvalProgram(ar, [], g) == g
  {
  }

  lemma EvalFirst(ar: Arith, s: Stmt, rest: seq<Stmt>, g: Globals)
    requires CompilableStmt(s) && CompilableProgram(rest)
    ensures CompilableProgram([s] + rest)
    ensures EvalProgram(ar, [s] + rest, g) ==
            if s.ReturnStmt? then g
            else if s.VarDecl? then
              var r := Eval(ar, Initializer(s.init), g);
              EvalProgram(ar, rest, r.globals[s.name.lexeme := r.value])
            else EvalProgram(ar, rest, g)
  {
    assert ([s] + rest)[1..] == rest;
  }

  lemma DeclIsItself(pool: seq<Value>, s: Stmt, base: nat)
    requires s.VarDecl? && Repeats(pool) && base + |StmtPool(s)| <= |pool|
    requires pool[base..base + |StmtPool(s)|] == StmtPool(s)
    ensures RereadStmt(pool, s, base) == VarDecl(s.name, Initializer(s.init))
    ensures Initializer(Initializer(s.init)) == Initializer(s.init)
  {
    var e := Initializer(s.init);
    InitializerCode(s.init, base);
    PoolParts(pool, base, Pool(e), [Text(s.name.lexeme)]);
    RereadIsIdentity(pool, e, base);
    PoolLeaf(pool, base + |Pool(e)|, Text(s.name.lexeme));
    hide Reread, Pool, Operand, Repeats;
    DeclReread(pool, s, base);
  }

  /**
   If the pool repeats, a fresh machine runs the compiled program to its end with an empty stack and
   the declared globals.
   */
  lemma RepeatingProgramMeansSource(ar: Arith, stmts: seq<Stmt>)
    requires CompilableProgram(stmts) && Repeats(ProgramPool(stmts))
    ensures var r := Execute(ar, ProgramCode(stmts, 0), ProgramPool(stmts), State(0, [], map[]));
            r.Halted? && r.state.stack == [] && r.state.globals == EvalProgram(ar, stmts, map[])
  {
    var code, pool := ProgramCode(stmts, 0), ProgramPool(stmts);
    hide Execute, EvalProgram, ProgramCode, ProgramPool, RereadProgram, Repeats;
    assert code[0..0 + |code|] == code && pool[0..0 + |pool|] == pool;
    ProgramRuns(ar, code, pool, stmts, 0, State(0, [], map[]));
    RereadProgramMeansTheSame(ar, pool, stmts, 0, map[]);
  }

  /** So it does with at most 256 constants. */
  lemma CompiledProgramMeansSource(ar: Arith, stmts: seq<Stmt>)
    requires CompilableProgram(stmts) && |ProgramPool(stmts)| <= 256
    ensures var r := Execute(ar, ProgramCode(stmts, 0), ProgramPool(stmts), State(0, [], map[]));
            r.Halted? && r.state.stack == [] && r.state.globals == EvalProgram(ar, stmts, map[])
  {
    SmallPoolsRepeat(ProgramPool(stmts));
    RepeatingProgramMeansSource(ar, stmts);
  }

  // ----- The operands, decoded from the bytes -----

  predicate HasOperand(op: Byte) {
    op == CONSTANT || op == GET_GLOBAL || op == SET_GLOBAL
  }

  /** The operand bytes of the instructions of `code`. */
  function Operands(code: seq<Byte>): seq<Byte> {
    if code == [] then []
    else if !HasOperand(code[0]) then Operands(code[1..])
    else if |code| == 1 then []
    else [code[1]] + Operands(code[2..])
  }

  /** No instruction of `code` lacks its operand. */
  predicate Whole(code: seq<Byte>) {
    if code == [] then true
    else if !HasOperand(code[0]) then Whole(code[1..])
    else |code| >= 2 && Whole(code[2..])
  }

  lemma {:induction false} OperandsConcat(a: seq<Byte>, b: seq<Byte>)
    requires Whole(a) && Whole(b)
    ensures Whole(a + b) && Operands(a + b) == Operands(a) + Operands(b)
    decreases |a|
  {
    if a == [] {
      assert a + b == b;
    } else {
      var n := if HasOperand(a[0]) then 2 else 1;
      var rest := a[n..];
      assert (a + b)[n..] == rest + b;
      HeadOperand(a, n);
      HeadOperand(a + b, n);
      hide Whole, Operands, HasOperand;
      OperandsConcat(rest, b);
    }
  }

  /** The first instruction, of `n` bytes, and the rest. */
  lemma HeadOperand(code: seq<Byte>, n: nat)
    requires code != [] && n == (if HasOperand(code[0]) then 2 else 1) && n <= |code|
    ensures Operands(code) == (if n == 2 then [code[1]] else []) + Operands(code[n..])
    ensures Whole(code) == Whole(code[n..])
  {
  }

  function Indices(base: nat, n: nat): seq<Byte> {
    seq<Byte>(n, i requires 0 <= i < n => Operand(base + i))
  }

  lemma IndicesConcat(base: nat, m: nat, n: nat)
    ensures Indices(base, m) + Indices(base + m, n) == Indices(base, m + n)
  {
    var lhs, rhs := Indices(base, m) + Indices(base + m, n), Indices(base, m + n);
    forall i | 0 <= i < m + n ensures lhs[i] == rhs[i] {
      if i >= m { assert base + m + (i - m) == base + i; }
    }
  }

  /** The code of a tree has one operand for each entry of its pool, in order. */
  lemma {:induction false} CodeOperands(e: Expr, base: nat)
    ensures Whole(Code(e, base)) && Operands(Code(e, base)) == Indices(base, |Pool(e)|)
    decreases e
  {
    hide BinaryCode, UnaryCode, LogicalCode, Operand, Operands, Whole, Indices;
    match e
    case Literal(_) => LeafOperands(CONSTANT, base);
    case Variable(_) => LeafOperands(GET_GLOBAL, base);
    case Grouping(inner) => CodeOperands(inner, base);
    case Unary(op, right) =>
      CodeOperands(right, base);
      OperatorOperands(UnaryCode(op.kind));
      OperandsConcat(Code(right, base), UnaryCode(op.kind));
      NoOperands(base, Operands(Code(right, base)));
    case Binary(left, op, right) => BothOperands(e, left, right, BinaryCode(op.kind), base);
    case Logical(left, op, right) => BothOperands(e, left, right, LogicalCode(op.kind), base);
    case _ => NoOperands(base, []);
  }

  lemma NoOperands(base: nat, ops: seq<Byte>)
    ensures Whole([]) && Operands([]) == Indices(base, 0) == [] && ops + [] == ops
  {
  }

  lemma LeafOperands(op: Byte, base: nat)
    requires HasOperand(op)
    ensures Whole([op, Operand(base)]) && Operands([op, Operand(base)]) == Indices(base, 1)
  {
    var code := [op, Operand(base)];
    assert code[2..] == [];
    assert Indices(base, 1)[0] == Operand(base);
  }

  lemma OperatorOperands(op: seq<Byte>)
    requires |op| <= 1 && (op != [] ==> IsUnary(op[0]) || IsBinary(op[0]))
    ensures Whole(op) && Operands(op) == []
  {
    if op != [] { assert op[1..] == []; }
  }

  lemma {:induction false} BothOperands(parent: Expr, left: Expr, right: Expr, op: seq<Byte>, base: nat)
    requires left < parent && right < parent
    requires |op| <= 1 && (op != [] ==> IsBinary(op[0]))
    ensures var code := Code(left, base) + Code(right, base + |Pool(left)|) + op;
            Whole(code) && Operands(code) == Indices(base, |Pool(left) + Pool(right)|)
    decreases parent, 0
  {
    hide Operands, Whole, Indices, Code, Pool;
    var a, b := Code(left, base), Code(right, base + |Pool(left)|);
    CodeOperands(left, base);
    CodeOperands(right, base + |Pool(left)|);
    OperatorOperands(op);
    OperandsConcat(a, b);
    OperandsConcat(a + b, op);
    IndicesConcat(base, |Pool(left)|, |Pool(right)|);
  }

  lemma {:induction false} ProgramOperands(stmts: seq<Stmt>, base: nat)
    ensures Whole(ProgramCode(stmts, base))
    ensures Operands(ProgramCode(stmts, base)) == Indices(base, |ProgramPool(stmts)|)
    decreases stmts
  {
    hide ProgramCode, ProgramPool, StmtCode, StmtPool, Operands, Whole, Indices;
    if stmts == [] {
      NoProgram(base);
      NoOperands(base, []);
    } else {
      var s, next := stmts[0], base + |StmtPool(stmts[0])|;
      FirstOfProgram(stmts, base);
      StmtOperands(s, base);
      ProgramOperands(stmts[1..], next);
      OperandsConcat(StmtCode(s, base), ProgramCode(stmts[1..], next));
      IndicesConcat(base, |StmtPool(s)|, |ProgramPool(stmts[1..])|);
    }
  }

  lemma NoProgram(base: nat)
    ensures ProgramCode([], base) == [] && ProgramPool([]) == []
  {
  }

  lemma FirstOfProgram(stmts: seq<Stmt>, base: nat)
    requires stmts != []
    ensures ProgramCode(stmts, base) ==
            StmtCode(stmts[0], base) + ProgramCode(stmts[1..], base + |StmtPool(stmts[0])|)
    ensures |ProgramPool(stmts)| == |StmtPool(stmts[0])| + |ProgramPool(stmts[1..])|
  {
    hide StmtCode, StmtPool;
  }

  lemma StmtOperands(s: Stmt, base: nat)
    ensures Whole(StmtCode(s, base)) && Operands(StmtCode(s, base)) == Indices(base, |StmtPool(s)|)
  {
    hide Operand;
    if s.VarDecl? {
      var e, n := Initializer(s.init), |InitPool(s.init)|;
      InitializerCode(s.init, base);
      CodeOperands(e, base);
      LeafOperands(SET_GLOBAL, base + n);
      OperandsConcat(Code(e, base), [SET_GLOBAL, Operand(base + n)]);
      IndicesConcat(base, n, 1);
    } else if s.ReturnStmt? {
      assert [RETURN][1..] == [];
    }
  }

  /** Every operand is the index of its value if and only if there are at most 256 values. */
  lemma OperandsAreExactUpTo256(stmts: seq<Stmt>)
    ensures var ops := Operands(ProgramCode(stmts, 0));
            && |ops| == |ProgramPool(stmts)|
            && ((forall i | 0 <= i < |ops| :: ops[i] == i) <==> |ProgramPool(stmts)| <= 256)
  {
    hide Operands, ProgramCode, ProgramPool, Indices;
    ProgramOperands(stmts, 0);
    IndicesAreExact(|ProgramPool(stmts)|);
  }

  lemma IndicesAreExact(n: nat)
    ensures |Indices(0, n)| == n
    ensures (forall i | 0 <= i < n :: Indices(0, n)[i] == i) <==> n <= 256
  {
    IndicesAreCut(n);
    hide Indices;
    if n > 256 { assert Indices(0, n)[256] == 256 % 256; }
  }

  /** Every operand leads to its value if and only if the pool repeats. */
  lemma OperandsLeadToTheirValues(stmts: seq<Stmt>)
    ensures var ops, pool := Operands(ProgramCode(stmts, 0)), ProgramPool(stmts);
            && |ops| == |pool|
            && ((forall i | 0 <= i < |ops| :: ops[i] < |pool| && pool[ops[i]] == pool[i]) <==> Repeats(pool))
  {
    hide Operands, ProgramCode, ProgramPool;
    ProgramOperands(stmts, 0);
    IndicesAreCut(|ProgramPool(stmts)|);
  }

  lemma IndicesAreCut(n: nat)
    ensures |Indices(0, n)| == n
    ensures forall i | 0 <= i < n :: Indices(0, n)[i] == i % 256 < n
  {
    forall i | 0 <= i < n ensures Indices(0, n)[i] == i % 256 < n {
      assert Indices(0, n)[i] == Operand(0 + i);
    }
  }

  // ----- Beyond 256 constants the meaning can be lost -----

  const SET_X: Stmt := VarDecl(Named("x"), Literal(Boolean(true)))
  const SET_Y: Stmt := VarDecl(Named("y"), Literal(Boolean(false)))

  /** `var x = true;` as often as given, then `var y = false;`. */
  function Overfull(n: nat): seq<Stmt> {
    if n == 0 then [SET_Y] else [SET_X] + Overfull(n - 1)
  }

  /** The pool starts with true and "x" in turn, `n` times. */
  ghost predicate Alternates(pool: seq<Value>, n: nat) {
    2 * n <= |pool| && forall k | 0 <= k < n :: pool[2 * k] == Boolean(true) && pool[2 * k + 1] == Text("x")
  }

  lemma AlternatesOnceMore(pool: seq<Value>, n: nat)
    requires Alternates(pool, n)
    ensures Alternates([Boolean(true), Text("x")] + pool, n + 1)
  {
    var longer := [Boolean(true), Text("x")] + pool;
    forall k | 0 <= k < n + 1 ensures longer[2 * k] == Boolean(true) && longer[2 * k + 1] == Text("x") {
      if k > 0 { assert longer[2 * k] == pool[2 * (k - 1)] && longer[2 * k + 1] == pool[2 * (k - 1) + 1]; }
    }
  }

  lemma {:induction false} OverfullPool(n: nat)
    ensures CompilableProgram(Overfull(n)) && |ProgramPool(Overfull(n))| == 2 * n + 2
    ensures Alternates(ProgramPool(Overfull(n)), n)
  {
    hide Alternates;
    if n == 0 {
      LastAlternates();
    } else {
      OverfullPool(n - 1);
      OverfullStep(n);
      AlternatesOnceMore(ProgramPool(Overfull(n - 1)), n - 1);
    }
  }

  lemma LastAlternates()
    ensures CompilableProgram(Overfull(0)) && |ProgramPool(Overfull(0))| == 2
    ensures Alternates(ProgramPool(Overfull(0)), 0)
  {
    assert Overfull(0)[1..] == [];
  }

  lemma OverfullStep(n: nat)
    requires n > 0 && CompilableProgram(Overfull(n - 1))
    ensures CompilableProgram(Overfull(n))
    ensures ProgramPool(Overfull(n)) == [Boolean(true), Text("x")] + ProgramPool(Overfull(n - 1))
  {
    assert Overfull(n)[1..] == Overfull(n - 1);
  }

  predicate SetsX(s: Stmt) {
    s.VarDecl? && s.name.lexeme == "x" && s.init == Literal(Boolean(true))
  }

  predicate AllSetX(stmts: seq<Stmt>) {
    stmts == [] || (SetsX(stmts[0]) && AllSetX(stmts[1..]))
  }

  lemma {:induction false} SettingX(ar: Arith, stmts: seq<Stmt>, g: Globals)
    requires AllSetX(stmts) && CompilableProgram(stmts)
    ensures EvalProgram(ar, stmts, g) == if stmts == [] then g else g["x" := Boolean(true)]
  {
    if stmts != [] { SettingX(ar, stmts[1..], g["x" := Boolean(true)]); }
  }

  /** The last declarations of the overfull program, as the machine reads them: all set x. */
  lemma {:induction false} OverfullReread(pool: seq<Value>, k: nat, n: nat)
    requires |pool| == 258 && Alternates(pool, 128) && k + n == 128 && 2 * k + |ProgramPool(Overfull(n))| <= 258
    ensures AllSetX(RereadProgram(pool, Overfull(n), 2 * k))
    decreases n
  {
    hide RereadProgram, Overfull, ProgramPool, Alternates, SetsX, RereadStmt, StmtPool;
    OverfullParts(n);
    var p := Overfull(n);
    DeclarationReread(pool, k, p[0]);
    FirstReread(pool, p, 2 * k);
    if n > 0 { OverfullReread(pool, k + 1, n - 1); } else { NoneReread(pool, 2 * k + 2); }
  }

  lemma OverfullParts(n: nat)
    ensures var p := Overfull(n);
            p != [] && (p[0] == SET_X || p[0] == SET_Y) && p[1..] == if n == 0 then [] else Overfull(n - 1)
  {
  }

  lemma NoneReread(pool: seq<Value>, base: nat)
    requires base <= |pool|
    ensures |ProgramPool([])| == 0 && RereadProgram(pool, [], base) == []
  {
  }

  lemma FirstReread(pool: seq<Value>, stmts: seq<Stmt>, base: nat)
    requires stmts != [] && base + |ProgramPool(stmts)| <= |pool|
    ensures |ProgramPool(stmts)| == |StmtPool(stmts[0])| + |ProgramPool(stmts[1..])|
    ensures RereadProgram(pool, stmts, base) ==
            [RereadStmt(pool, stmts[0], base)] + RereadProgram(pool, stmts[1..], base + |StmtPool(stmts[0])|)
  {
    hide StmtPool, RereadStmt;
  }

  lemma DeclarationReread(pool: seq<Value>, k: nat, s: Stmt)
    requires |pool| == 258 && Alternates(pool, 128) && k <= 128 && (s == SET_X || s == SET_Y)
    ensures |StmtPool(s)| == 2 && SetsX(RereadStmt(pool, s, 2 * k))
  {
    var i := if k == 128 then 0 else k;
    assert Operand(2 * k) == 2 * i && Operand(2 * k + 1) == 2 * i + 1;
  }

  lemma {:induction false} OverfullMeaning(ar: Arith, n: nat, g: Globals)
    requires CompilableProgram(Overfull(n))
    ensures "y" in EvalProgram(ar, Overfull(n), g)
  {
    if n == 0 {
      assert Overfull(0)[1..] == [];
    } else {
      assert Overfull(n)[1..] == Overfull(n - 1);
      OverfullMeaning(ar, n - 1, g["x" := Boolean(true)]);
    }
  }

  /** `var x = true;` as often as given. */
  function Copies(n: nat): seq<Stmt> {
    if n == 0 then [] else [SET_X] + Copies(n - 1)
  }

  predicate InTurn(pool: seq<Value>) {
    forall i | 0 <= i < |pool| :: pool[i] == if i % 2 == 0 then Boolean(true) else Text("x")
  }

  lemma InTurnRepeats(pool: seq<Value>)
    requires InTurn(pool)
    ensures Repeats(pool)
  {
    forall i | 0 <= i < |pool| ensures pool[i % 256] == pool[i] {
      SameParity(i);
    }
  }

  lemma SameParity(i: nat)
    ensures i % 256 <= i && i % 256 % 2 == i % 2
  {
    var r, m := i % 256, 128 * (i / 256);
    assert i == 2 * m + r;
    EvenShift(m, r);
  }

  lemma EvenShift(m: int, r: int)
    ensures (2 * m + r) % 2 == r % 2
  {
  }

  lemma InTurnGrows(pool: seq<Value>)
    requires InTurn(pool)
    ensures InTurn([Boolean(true), Text("x")] + pool)
  {
    var longer := [Boolean(true), Text("x")] + pool;
    forall i | 0 <= i < |longer| ensures longer[i] == if i % 2 == 0 then Boolean(true) else Text("x") {
      if i >= 2 {
        assert longer[i] == pool[i - 2];
        assert (i - 2) % 2 == i % 2;
      }
    }
  }

  lemma {:induction false} CopiesPool(n: nat)
    ensures CompilableProgram(Copies(n)) && AllSetX(Copies(n))
    ensures |ProgramPool(Copies(n))| == 2 * n && InTurn(ProgramPool(Copies(n)))
  {
    hide InTurn;
    if n == 0 {
      EmptyInTurn();
    } else {
      CopiesPool(n - 1);
      CopiesStep(n);
      InTurnGrows(ProgramPool(Copies(n - 1)));
    }
  }

  lemma EmptyInTurn()
    ensures InTurn([])
  {
  }

  lemma CopiesStep(n: nat)
    requires n > 0 && CompilableProgram(Copies(n - 1)) && AllSetX(Copies(n - 1))
    ensures CompilableProgram(Copies(n)) && AllSetX(Copies(n))
    ensures ProgramPool(Copies(n)) == [Boolean(true), Text("x")] + ProgramPool(Copies(n - 1))
  {
    assert Copies(n)[1..] == Copies(n - 1);
  }

  /** Any number of equal declarations is harmless, however many constants they have. */
  lemma CopiesAreHarmless(ar: Arith, n: nat)
    requires n > 0
    ensures var p := Copies(n);
            var r := Execute(ar, ProgramCode(p, 0), ProgramPool(p), State(0, [], map[]));
            |ProgramPool(p)| == 2 * n && r.Halted? && r.state.globals == map["x" := Boolean(true)]
  {
    hide Execute, ProgramCode, ProgramPool, EvalProgram, Repeats, InTurn, CompilableProgram, AllSetX;
    CopiesPool(n);
    InTurnRepeats(ProgramPool(Copies(n)));
    RepeatingProgramMeansSource(ar, Copies(n));
    SettingX(ar, Copies(n), map[]);
  }

  /** 129 declarations have 258 constants; running them never declares the last variable. */
  lemma MeaningIsLostBeyond256(ar: Arith)
    ensures var p := Overfull(128);
            && CompilableProgram(p) && |ProgramPool(p)| == 258
            && var r := Execute(ar, ProgramCode(p, 0), ProgramPool(p), State(0, [], map[]));
               && r.Halted? && r.state.globals == map["x" := Boolean(true)]
               && "y" in EvalProgram(ar, p, map[])
  {
    hide Execute, RereadProgram, EvalProgram, ProgramCode, ProgramPool, CompilableProgram, AllSetX, Alternates;
    var p := Overfull(128);
    OverfullPool(128);
    var code, pool := ProgramCode(p, 0), ProgramPool(p);
    assert code[0..0 + |code|] == code;
    OverfullMeaning(ar, 128, map[]);
    OverfullReread(pool, 0, 128);
    RereadIsThere(pool, p);
    ProgramRuns(ar, code, pool, p, 0, State(0, [], map[]));
    SettingX(ar, RereadProgram(pool, p, 0), map[]);
  }

  lemma RereadIsThere(pool: seq<Value>, stmts: seq<Stmt>)
    requires stmts != [] && |ProgramPool(stmts)| <= |pool|
    ensures RereadProgram(pool, stmts, 0) != []
  {
  }

  // ----- Trees without code -----

  /** How many values the code of a tree fails to push, because some node has no code. */
  function Missing(e: Expr): nat {
    match e
    case Literal(_) => 0
    case Variable(_) => 0
    case Grouping(inner) => Missing(inner)
    case Unary(_, right) => Missing(right)
    case Binary(left, _, right) => Missing(left) + Missing(right)
    case Logical(left, _, right) => Missing(left) + Missing(right)
    case _ => 1
  }

  /** The operators of the tree are operators, as they are in every tree the parser builds. */
  predicate KnownOperators(e: Expr) {
    match e
    case Grouping(inner) => KnownOperators(inner)
    case Unary(op, right) => UnaryCode(op.kind) != [] && KnownOperators(right)
    case Binary(left, op, right) => BinaryCode(op.kind) != [] && KnownOperators(left) && KnownOperators(right)
    case Logical(left, op, right) => LogicalCode(op.kind) != [] && KnownOperators(left) && KnownOperators(right)
    case _ => true
  }

  lemma CompilableMissesNothing(e: Expr)
    requires KnownOperators(e)
    ensures Compilable(e) <==> Missing(e) == 0
  {
  }

  /** Execution from `s` either underflows the stack or reaches `t`, at `ip` with a stack of `height`. */
  ghost predicate Arrives(ar: Arith, code: seq<Byte>, pool: seq<Value>, s: State, ip: nat, height: int, t: State) {
    || Execute(ar, code, pool, s) == Crashed(StackUnderflow)
    || (Execute(ar, code, pool, s) == Execute(ar, code, pool, t) && t.ip == ip && |t.stack| == height)
  }

  /**
   The code of any tree raises the stack by one less what is missing, unless it underflows.  So it
   leaves exactly one more value on every stack only if nothing is missing, that is, if the tree is
   compilable; and then it does, by `ExprRuns`.
   */
  lemma {:induction false} CodeFallsShort(ar: Arith, code: seq<Byte>, pool: seq<Value>, e: Expr, base: nat, s: State)
      returns (t: State)
    requires KnownOperators(e) && base + |Pool(e)| <= |pool| && At(code, s.ip, Code(e, base))
    ensures Arrives(ar, code, pool, s, s.ip + |Code(e, base)|, |s.stack| + 1 - Missing(e), t)
    decreases e, 1
  {
    hide Execute, BinaryCode, UnaryCode, LogicalCode, At, AsText, Lookup;
    t := s;
    match e
    case Literal(_) =>
      LeafStep(ar, code, pool, s, CONSTANT, base);
      t := State(s.ip + 2, s.stack + [pool[Operand(base)]], s.globals);
    case Variable(_) =>
      LeafStep(ar, code, pool, s, GET_GLOBAL, base);
      var r := Lookup(s.globals, AsText(pool[Operand(base)]));
      t := State(s.ip + 2, s.stack + [r.value], r.globals);
    case Grouping(inner) =>
      t := CodeFallsShort(ar, code, pool, inner, base, s);
    case Unary(op, right) =>
      t := OperandFallsShort(ar, code, pool, e, right, UnaryCode(op.kind), base, s);
    case Binary(left, op, right) =>
      t := OperandsFallShort(ar, code, pool, e, left, right, BinaryCode(op.kind), base, s);
    case Logical(left, op, right) =>
      t := OperandsFallShort(ar, code, pool, e, left, right, LogicalCode(op.kind), base, s);
    case _ =>
  }

  lemma {:induction false} OperandFallsShort(ar: Arith, code: seq<Byte>, pool: seq<Value>, parent: Expr,
                                             right: Expr, op: seq<Byte>, base: nat, s: State)
      returns (t: State)
    requires right < parent && KnownOperators(right) && |op| == 1 && IsUnary(op[0])
    requires base + |Pool(right)| <= |pool| && At(code, s.ip, Code(right, base) + op)
    ensures Arrives(ar, code, pool, s, s.ip + |Code(right, base)| + 1, |s.stack| + 1 - Missing(right), t)
    decreases parent, 0
  {
    hide Execute, Code, Pool, Missing, KnownOperators, At;
    AtConcat(code, s.ip, Code(right, base), op);
    t := CodeFallsShort(ar, code, pool, right, base, s);
    if Execute(ar, code, pool, s) != Crashed(StackUnderflow) {
      t := OperatorFallsShort(ar, code, pool, t, op, 1);
    }
  }

  lemma {:induction false} OperandsFallShort(ar: Arith, code: seq<Byte>, pool: seq<Value>, parent: Expr,
                                             left: Expr, right: Expr, op: seq<Byte>, base: nat, s: State)
      returns (t: State)
    requires left < parent && right < parent && KnownOperators(left) && KnownOperators(right)
    requires |op| == 1 && IsBinary(op[0])
    requires base + |Pool(left)| + |Pool(right)| <= |pool|
    requires At(code, s.ip, Code(left, base) + Code(right, base + |Pool(left)|) + op)
    ensures var a, b := Code(left, base), Code(right, base + |Pool(left)|);
            Arrives(ar, code, pool, s, s.ip + |a| + |b| + 1, |s.stack| + 1 - Missing(left) - Missing(right), t)
    decreases parent, 0
  {
    hide Execute, Code, Pool, Missing, KnownOperators, At;
    var a, b := Code(left, base), Code(right, base + |Pool(left)|);
    AtConcat(code, s.ip, a + b, op);
    AtConcat(code, s.ip, a, b);
    t := CodeFallsShort(ar, code, pool, left, base, s);
    if Execute(ar, code, pool, s) != Crashed(StackUnderflow) {
      t := CodeFallsShort(ar, code, pool, right, base + |Pool(left)|, t);
      if Execute(ar, code, pool, s) != Crashed(StackUnderflow) {
        t := OperatorFallsShort(ar, code, pool, t, op, 2);
      }
    }
  }

  lemma OperatorFallsShort(ar: Arith, code: seq<Byte>, pool: seq<Value>, s: State, op: seq<Byte>, arity: nat)
      returns (t: State)
    requires |op| == 1 && At(code, s.ip, op)
    requires (arity == 1 && IsUnary(op[0])) || (arity == 2 && IsBinary(op[0]))
    ensures Arrives(ar, code, pool, s, s.ip + 1, |s.stack| + 1 - arity, t)
  {
    AtIndex(code, s.ip, op, 0);
    var r := Step(ar, code, pool, s);
    t := if r.Running? then r.state else s;
  }
}
