/**
 The two ways of running a program agree: on programs of typed, initialized variable declarations
 the machine ends with the globals that the interpreter has in its global scope, although it does
 not short-circuit and its strict comparisons are not strict.
 */
module Agreement {
  import opened Values
  import opened Syntax
  import opened Compiler
  import opened Machine
  import opened CompilerCorrect
  import opened CompilerLimits
  import S = Semantics

  // ----- Types -----

  /** `TOther` is the type of strings, null and undefined; `TNone` of expressions outside the fragment. */
  datatype Type = TNum | TBool | TOther | TNone

  type Context = map<string, Type>

  function TypeOfValue(v: Value): Type {
    match v
    case Numeric(_) => TNum
    case Boolean(_) => TBool
    case _ => TOther
  }

  /**
   Subtraction, multiplication, division and negation take everything, as do they in both semantics;
   addition and comparisons take numbers, and logical operators booleans.
   */
  function TypeOf(e: Expr, ctx: Context): (t: Type)
    ensures t != TNone ==> Compilable(e)
  {
    match e
    case Literal(value) => TypeOfValue(value)
    case Variable(name) => if name.lexeme in ctx then ctx[name.lexeme] else TNone
    case Grouping(inner) => TypeOf(inner, ctx)
    case Unary(op, right) =>
      if TypeOf(right, ctx) == TNone then TNone
      else if op.kind == Minus then TNum
      else if op.kind == Bang then TBool
      else TNone
    case Binary(left, op, right) => BinaryType(op.kind, TypeOf(left, ctx), TypeOf(right, ctx))
    case Logical(left, op, right) =>
      if (op.kind == And || op.kind == Or) && TypeOf(left, ctx) == TBool && TypeOf(right, ctx) == TBool then TBool
      else TNone
    case _ => TNone
  }

  function BinaryType(k: Kind, l: Type, r: Type): (t: Type)
    ensures t != TNone ==> l != TNone && r != TNone && BinaryCode(k) != []
  {
    if l == TNone || r == TNone then TNone
    else if S.Arithmetic(k) then TNum
    else if l != TNum || r != TNum then TNone
    else if k == Plus then TNum
    else if S.Comparison(k) then TBool
    else TNone
  }

  /** Every statement declares a variable with an initializer that has a type. */
  predicate WellTyped(stmts: seq<Stmt>, ctx: Context) {
    stmts == [] ||
    (&& stmts[0].VarDecl? && TypeOf(stmts[0].init, ctx) != TNone
     && WellTyped(stmts[1..], ctx[stmts[0].name.lexeme := TypeOf(stmts[0].init, ctx)]))
  }

  // ----- Strict comparisons made lax -----

  function RelaxKind(k: Kind): Kind {
    if k == Less then LessEqual else if k == Greater then GreaterEqual else k
  }

  function Relax(e: Expr): Expr {
    match e
    case Grouping(inner) => Grouping(Relax(inner))
    case Unary(op, right) => Unary(op, Relax(right))
    case Binary(left, op, right) => Binary(Relax(left), op.(kind := RelaxKind(op.kind)), Relax(right))
    case Logical(left, op, right) => Logical(Relax(left), op, Relax(right))
    case _ => e
  }

  function RelaxAll(stmts: seq<Stmt>): seq<Stmt> {
    if stmts == [] then []
    else [if stmts[0].VarDecl? then stmts[0].(init := Relax(stmts[0].init)) else stmts[0]] + RelaxAll(stmts[1..])
  }

  predicate Lax(e: Expr) {
    match e
    case Grouping(inner) => Lax(inner)
    case Unary(_, right) => Lax(right)
    case Binary(left, op, right) => op.kind != Less && op.kind != Greater && Lax(left) && Lax(right)
    case Logical(left, _, right) => Lax(left) && Lax(right)
    case _ => true
  }

  predicate AllLax(stmts: seq<Stmt>) {
    stmts == [] || ((stmts[0].VarDecl? ==> Lax(stmts[0].init)) && AllLax(stmts[1..]))
  }

  lemma {:induction false} LaxIsRelaxed(e: Expr)
    requires Lax(e)
    ensures Relax(e) == e
  {
    match e
    case Grouping(inner) => LaxIsRelaxed(inner);
    case Unary(_, right) => LaxIsRelaxed(right);
    case Binary(left, _, right) => LaxIsRelaxed(left); LaxIsRelaxed(right);
    case Logical(left, _, right) => LaxIsRelaxed(left); LaxIsRelaxed(right);
    case _ =>
  }

  lemma {:induction false} AllLaxIsRelaxed(stmts: seq<Stmt>)
    requires AllLax(stmts)
    ensures RelaxAll(stmts) == stmts
  {
    if stmts != [] {
      if stmts[0].VarDecl? { LaxIsRelaxed(stmts[0].init); }
      AllLaxIsRelaxed(stmts[1..]);
    }
  }

  // ----- Expressions -----

  /** The bindings of the interpreter for the globals of the machine. */
  function Refs(g: Globals): S.Bindings {
    map x | x in g :: S.Basic(g[x])
  }

  /** The interpreter with these globals and nothing else. */
  function Top(g: Globals): (m: S.Mem)
    ensures S.Valid(m)
  {
    S.Mem([S.Scope(Refs(g), -1)], 0, [], 0, 0)
  }

  predicate Typed(g: Globals, ctx: Context) {
    forall x | x in ctx :: x in g && TypeOfValue(g[x]) == ctx[x]
  }

  /** The operators of the two semantics, on operands of the fragment. */
  lemma OperatorsAgree(ar: Arith, k: Kind, l: Value, r: Value)
    requires BinaryType(k, TypeOfValue(l), TypeOfValue(r)) != TNone
    ensures var v := BinaryResult(ar, BinaryCode(k)[0], l, r);
            && S.BinaryOp(ar, RelaxKind(k), S.Basic(l), S.Basic(r)) == S.Answer(v)
            && TypeOfValue(v) == BinaryType(k, TypeOfValue(l), TypeOfValue(r))
  {
    hide BinaryResult, S.BinaryOp, BinaryCode;
    if S.Comparison(k) {
      ComparisonsAgree(ar, k, l.n, r.n);
    } else {
      ArithmeticAgrees(ar, k, l, r);
    }
  }

  lemma ComparisonsAgree(ar: Arith, k: Kind, x: Number, y: Number)
    requires S.Comparison(k)
    ensures var v := BinaryResult(ar, BinaryCode(k)[0], Numeric(x), Numeric(y));
            v.Boolean? && S.BinaryOp(ar, RelaxKind(k), S.Basic(Numeric(x)), S.Basic(Numeric(y))) == S.Answer(v)
  {
  }

  lemma ArithmeticAgrees(ar: Arith, k: Kind, l: Value, r: Value)
    requires S.Arithmetic(k) || (k == Plus && l.Numeric? && r.Numeric?)
    ensures var v := BinaryResult(ar, BinaryCode(k)[0], l, r);
            v.Numeric? && S.BinaryOp(ar, RelaxKind(k), S.Basic(l), S.Basic(r)) == S.Answer(v)
  {
  }

  lemma UnaryAgrees(ar: Arith, k: Kind, v: Value)
    requires k == Minus || k == Bang
    ensures var u := UnaryResult(ar, UnaryCode(k)[0], v);
            && S.UnaryOp(ar, k, S.Basic(v)) == S.Answer(u)
            && TypeOfValue(u) == if k == Minus then TNum else TBool
  {
  }

  /**
   An expression of the fragment has the same value in both semantics, up to strictness, of its
   type, and changes nothing.
   */
  lemma {:induction false} ExprAgrees(ar: Arith, fuel: nat, e: Expr, ctx: Context, g: Globals)
    requires TypeOf(e, ctx) != TNone && Typed(g, ctx)
    ensures var r := Eval(ar, e, g);
            && r.globals == g && TypeOfValue(r.value) == TypeOf(e, ctx)
            && S.Eval(ar, fuel, Relax(e), Top(g)) == S.Valued(S.Done, S.Basic(r.value), Top(g))
    decreases e
  {
    hide BinaryResult, UnaryResult, S.BinaryOp, S.UnaryOp, Top, BinaryCode, UnaryCode;
    hide S.Kept, S.Clean, S.Valid;
    match e
    case Literal(_) =>
    case Variable(name) => VariableAgrees(ar, name.lexeme, g);
    case Grouping(inner) => ExprAgrees(ar, fuel, inner, ctx, g);
    case Unary(op, right) =>
      ExprAgrees(ar, fuel, right, ctx, g);
      UnaryAgrees(ar, op.kind, Eval(ar, right, g).value);
    case Binary(left, op, right) =>
      ExprAgrees(ar, fuel, left, ctx, g);
      ExprAgrees(ar, fuel, right, ctx, g);
      OperatorsAgree(ar, op.kind, Eval(ar, left, g).value, Eval(ar, right, g).value);
    case Logical(left, op, right) =>
      ExprAgrees(ar, fuel, left, ctx, g);
      ExprAgrees(ar, fuel, right, ctx, g);
      LogicalAgrees(ar, op.kind, Eval(ar, left, g).value, Eval(ar, right, g).value);
  }

  lemma VariableAgrees(ar: Arith, name: string, g: Globals)
    requires name in g
    ensures Lookup(g, name) == Evaluated(g[name], g)
    ensures S.EvalVariable(name, Top(g)) == S.Valued(S.Done, S.Basic(g[name]), Top(g))
  {
    assert S.Holder(Top(g).scopes, name) == 0;
  }

  /** Deciding by the left operand gives what the machine computes from both. */
  lemma LogicalAgrees(ar: Arith, k: Kind, l: Value, r: Value)
    requires (k == And || k == Or) && l.Boolean? && r.Boolean?
    ensures BinaryResult(ar, LogicalCode(k)[0], l, r) == if S.Holds(ar, S.Basic(l)) == (k == Or) then l else r
  {
  }

  // ----- Programs -----

  lemma {:induction false} WellTypedIsCompilable(stmts: seq<Stmt>, ctx: Context)
    requires WellTyped(stmts, ctx)
    ensures CompilableProgram(stmts)
  {
    if stmts != [] {
      WellTypedIsCompilable(stmts[1..], ctx[stmts[0].name.lexeme := TypeOf(stmts[0].init, ctx)]);
    }
  }

  lemma {:induction false} ProgramAgrees(ar: Arith, fuel: nat, stmts: seq<Stmt>, ctx: Context, g: Globals)
    requires WellTyped(stmts, ctx) && Typed(g, ctx) && CompilableProgram(stmts)
    ensures S.ExecAll(ar, fuel, RelaxAll(stmts), Top(g)) == S.Executed(S.Done, Top(EvalProgram(ar, stmts, g)))
  {
    hide TypeOf, Eval, S.Eval, Relax, S.Valid, S.Kept, S.Clean;
    if stmts != [] {
      var s, x := stmts[0], stmts[0].name.lexeme;
      ExprAgrees(ar, fuel, s.init, ctx, g);
      var v := Eval(ar, s.init, g).value;
      var ctx' := ctx[x := TypeOf(s.init, ctx)];
      DeclarationAgrees(ar, fuel, s.(init := Relax(s.init)), g, v);
      assert Typed(g[x := v], ctx');
      ProgramAgrees(ar, fuel, stmts[1..], ctx', g[x := v]);
      assert RelaxAll(stmts)[1..] == RelaxAll(stmts[1..]);
    }
  }

  /**
   The code of a typed program, run on a fresh machine, ends with an empty stack and with the very
   globals that the interpreter ends with, if it reads the strict comparisons as lax ones.
   */
  lemma MachineAgreesWithInterpreter(ar: Arith, fuel: nat, stmts: seq<Stmt>)
    requires WellTyped(stmts, map[]) && Repeats(ProgramPool(stmts))
    ensures var r := Execute(ar, ProgramCode(stmts, 0), ProgramPool(stmts), State(0, [], map[]));
            var i := S.ExecAll(ar, fuel, RelaxAll(stmts), S.START);
            && r.Halted? && r.state.stack == []
            && i.end.Done? && i.mem == Top(r.state.globals)
            && (AllLax(stmts) ==> S.ExecAll(ar, fuel, stmts, S.START) == i)
  {
    hide Execute, S.ExecAll, RelaxAll, Repeats;
    WellTypedIsCompilable(stmts, map[]);
    RepeatingProgramMeansSource(ar, stmts);
    assert Refs(map[]) == map[];
    assert Top(map[]) == S.START;
    ProgramAgrees(ar, fuel, stmts, map[], map[]);
    if AllLax(stmts) { AllLaxIsRelaxed(stmts); }
  }

  // ----- Where single operators part -----

  /** How the comparisons of numbers hang together, for IEEE doubles too; zero equals itself. */
  ghost predicate Ordered(ar: Arith) {
    && ar.eq(ar.zero, ar.zero)
    && forall x, y ::
         && (ar.le(x, y) <==> ar.lt(x, y) || ar.eq(x, y))
         && (ar.ge(x, y) <==> ar.gt(x, y) || ar.eq(x, y))
         && (ar.eq(x, y) ==> !ar.lt(x, y) && !ar.gt(x, y))
  }

  /** Where the order of two texts or booleans is what the interpreter, comparing zeros, makes of it. */
  predicate ComparesLikeZeros(k: Kind, atMost: bool, atLeast: bool)
    requires S.Comparison(k)
  {
    match k
    case LessEqual => atMost
    case GreaterEqual => atLeast
    case Less => !atMost
    case Greater => !atLeast
    case _ => atMost && atLeast
  }

  /**
   The operands on which an operator means the same to the machine and to the interpreter: all for
   arithmetic, numbers for addition, and for comparisons numbers that are not a tie, texts or booleans
   in the order that zeros have, and operands of different kinds whose numbers do not compare.
   */
  predicate OperatorsConcur(ar: Arith, k: Kind, l: Value, r: Value)
    requires BinaryCode(k) != []
  {
    if k == Plus then l.Numeric? && r.Numeric?
    else if S.Arithmetic(k) then true
    else
      match (l, r)
      case (Numeric(x), Numeric(y)) => k == Less || k == Greater ==> !ar.eq(x, y)
      case (Text(s), Text(t)) =>
        if k == EqualEqual || k == BangEqual then s == t
        else ComparesLikeZeros(k, TextAtMost(s, t), TextAtMost(t, s))
      case (Boolean(b), Boolean(c)) => ComparesLikeZeros(k, !b || c, b || !c)
      case _ => !S.Compare(ar, if k == BangEqual then EqualEqual else k, AsNumber(ar, l), AsNumber(ar, r))
  }

  /** Machine and interpreter agree on an operator if and only if its operands are such. */
  lemma OperatorsAgreeExactly(ar: Arith, k: Kind, l: Value, r: Value)
    requires Ordered(ar) && BinaryCode(k) != []
    ensures S.BinaryOp(ar, k, S.Basic(l), S.Basic(r)) == S.Answer(BinaryResult(ar, BinaryCode(k)[0], l, r)) <==>
            OperatorsConcur(ar, k, l, r)
  {
    hide TextAtMost, BinaryResult, S.BinaryOp, S.Compare, Ordered;
    if S.Comparison(k) {
      ComparisonsAgreeExactly(ar, k, l, r);
    } else if k == Plus {
      AdditionAgreesOnNumbersOnly(ar, l, r);
    } else {
      ArithmeticAgrees(ar, k, l, r);
    }
  }

  lemma ComparisonsAgreeExactly(ar: Arith, k: Kind, l: Value, r: Value)
    requires Ordered(ar) && S.Comparison(k)
    ensures S.BinaryOp(ar, k, S.Basic(l), S.Basic(r)) == S.Answer(BinaryResult(ar, BinaryCode(k)[0], l, r)) <==>
            OperatorsConcur(ar, k, l, r)
  {
    hide OperatorsConcur, BinaryResult, S.BinaryOp;
    if k == EqualEqual || k == BangEqual {
      EqualitiesAgreeExactly(ar, k, l, r);
    } else {
      OrdersAgreeExactly(ar, k, l, r);
    }
  }

  lemma EqualitiesAgreeExactly(ar: Arith, k: Kind, l: Value, r: Value)
    requires ar.eq(ar.zero, ar.zero) && (k == EqualEqual || k == BangEqual)
    ensures S.BinaryOp(ar, k, S.Basic(l), S.Basic(r)) == S.Answer(BinaryResult(ar, BinaryCode(k)[0], l, r)) <==>
            OperatorsConcur(ar, k, l, r)
  {
    hide TextAtMost, S.Sum, S.Calculate, Truthy;
  }

  lemma OrdersAgreeExactly(ar: Arith, k: Kind, l: Value, r: Value)
    requires Ordered(ar) && (k == Less || k == LessEqual || k == Greater || k == GreaterEqual)
    ensures S.BinaryOp(ar, k, S.Basic(l), S.Basic(r)) == S.Answer(BinaryResult(ar, BinaryCode(k)[0], l, r)) <==>
            OperatorsConcur(ar, k, l, r)
  {
    hide TextAtMost, S.Sum, S.Calculate, Truthy;
    var x, y := AsNumber(ar, l), AsNumber(ar, r);
    assert ar.le(x, y) <==> ar.lt(x, y) || ar.eq(x, y);
    assert ar.ge(x, y) <==> ar.gt(x, y) || ar.eq(x, y);
    assert ar.le(ar.zero, ar.zero) && ar.ge(ar.zero, ar.zero);
    assert !ar.lt(ar.zero, ar.zero) && !ar.gt(ar.zero, ar.zero);
  }

  /** Addition agrees on numbers and on nothing else. */
  lemma AdditionAgreesOnNumbersOnly(ar: Arith, l: Value, r: Value)
    ensures S.BinaryOp(ar, Plus, S.Basic(l), S.Basic(r)) == S.Answer(BinaryResult(ar, ADD, l, r)) <==>
            l.Numeric? && r.Numeric?
  {
  }

  /** Strict comparisons of numbers agree if and only if the numbers are not equal. */
  lemma StrictComparisonsAgreeOffTies(ar: Arith, k: Kind, x: Number, y: Number)
    requires Ordered(ar) && (k == Less || k == Greater)
    ensures var v := BinaryResult(ar, BinaryCode(k)[0], Numeric(x), Numeric(y));
            S.BinaryOp(ar, k, S.Basic(Numeric(x)), S.Basic(Numeric(y))) == S.Answer(v) <==> !ar.eq(x, y)
  {
    OperatorsAgreeExactly(ar, k, Numeric(x), Numeric(y));
  }

  /** A logical operator gives one of its operands: agreement is that this one is a boolean. */
  lemma LogicalAgreesOnDecidingBooleans(ar: Arith, fuel: nat, k: Kind, l: Value, r: Value, m: S.Mem)
    requires (k == And || k == Or) && S.Valid(m)
    ensures var deciding := if Truthy(ar, l) == (k == Or) then l else r;
            && S.Eval(ar, fuel, Logical(Literal(l), Plain(k), Literal(r)), m) == S.Give(deciding, m)
            && (deciding == BinaryResult(ar, LogicalCode(k)[0], l, r) <==> deciding.Boolean?)
  {
    var e := Logical(Literal(l), Plain(k), Literal(r));
    assert S.Eval(ar, fuel, e.left, m) == S.Give(l, m);
    assert S.Eval(ar, fuel, e.right, m) == S.Give(r, m);
    assert S.Eval(ar, fuel, e, m) == S.EvalLogical(ar, fuel, e, m);
  }

  /** Every operator of the interpreter but addition sees its operands as numbers only. */
  lemma OnlyAdditionSeesTypes(ar: Arith, k: Kind, l: Value, r: Value)
    requires k != Plus
    ensures S.BinaryOp(ar, k, S.Basic(l), S.Basic(r)) ==
            S.BinaryOp(ar, k, S.Basic(Numeric(AsNumber(ar, l))), S.Basic(Numeric(AsNumber(ar, r))))
  {
  }

  /** Such as `true == false`: equal to the machine only if the same, to the interpreter always. */
  lemma BooleansCompareAsNumbers(ar: Arith, b: bool, c: bool)
    requires ar.eq(ar.zero, ar.zero)
    ensures BinaryResult(ar, EQUAL, Boolean(b), Boolean(c)) == Boolean(b == c)
    ensures S.BinaryOp(ar, EqualEqual, S.Basic(Boolean(b)), S.Basic(Boolean(c))) == S.Answer(Boolean(true))
  {
  }

  // ----- Programs whose operators all agree -----

  /** All variables of the tree are set. */
  predicate Declared(e: Expr, g: Globals) {
    match e
    case Variable(name) => name.lexeme in g
    case Grouping(inner) => Declared(inner, g)
    case Unary(_, right) => Declared(right, g)
    case Binary(left, _, right) => Declared(left, g) && Declared(right, g)
    case Logical(left, _, right) => Declared(left, g) && Declared(right, g)
    case _ => true
  }

  lemma {:induction false} DeclaredChangesNothing(ar: Arith, e: Expr, g: Globals)
    requires Compilable(e) && Declared(e, g)
    ensures Eval(ar, e, g).globals == g
  {
    hide BinaryResult, UnaryResult;
    match e
    case Literal(_) =>
    case Variable(_) =>
    case Grouping(inner) => DeclaredChangesNothing(ar, inner, g);
    case Unary(_, right) => DeclaredChangesNothing(ar, right, g);
    case Binary(left, _, right) =>
      DeclaredChangesNothing(ar, left, g);
      DeclaredChangesNothing(ar, right, g);
    case Logical(left, _, right) =>
      DeclaredChangesNothing(ar, left, g);
      DeclaredChangesNothing(ar, right, g);
  }

  /**
   Wherever the interpreter applies an operator in the tree, it does so to operands on which the machine
   agrees.  What a logical operator skips need only be declared.
   */
  predicate Concordant(ar: Arith, e: Expr, g: Globals)
    requires Compilable(e)
  {
    match e
    case Literal(_) => true
    case Variable(_) => true
    case Grouping(inner) => Concordant(ar, inner, g)
    case Unary(_, right) => Concordant(ar, right, g)
    case Binary(left, op, right) =>
      && Concordant(ar, left, g) && Concordant(ar, right, g)
      && OperatorsConcur(ar, op.kind, Eval(ar, left, g).value, Eval(ar, right, g).value)
    case Logical(left, op, right) =>
      var l := Eval(ar, left, g).value;
      && Concordant(ar, left, g)
      && if Truthy(ar, l) == (op.kind == Or) then l.Boolean?
         else Concordant(ar, right, g) && Eval(ar, right, g).value.Boolean?
  }

  lemma {:induction false} ConcordantAgrees(ar: Arith, fuel: nat, e: Expr, g: Globals)
    requires Ordered(ar) && Compilable(e) && Declared(e, g) && Concordant(ar, e, g)
    ensures S.Eval(ar, fuel, e, Top(g)) == S.Valued(S.Done, S.Basic(Eval(ar, e, g).value), Top(g))
    decreases e
  {
    hide BinaryResult, UnaryResult, S.BinaryOp, S.UnaryOp, Top, OperatorsConcur, Ordered;
    hide S.Kept, S.Clean, S.Valid;
    DeclaredChangesNothing(ar, e, g);
    match e
    case Literal(_) =>
    case Variable(name) => VariableAgrees(ar, name.lexeme, g);
    case Grouping(inner) => ConcordantAgrees(ar, fuel, inner, g);
    case Unary(op, right) =>
      ConcordantAgrees(ar, fuel, right, g);
      UnaryAgrees(ar, op.kind, Eval(ar, right, g).value);
    case Binary(left, op, right) =>
      ConcordantAgrees(ar, fuel, left, g);
      ConcordantAgrees(ar, fuel, right, g);
      DeclaredChangesNothing(ar, left, g);
      OperatorsAgreeExactly(ar, op.kind, Eval(ar, left, g).value, Eval(ar, right, g).value);
    case Logical(left, op, right) =>
      var l := Eval(ar, left, g).value;
      ConcordantAgrees(ar, fuel, left, g);
      DeclaredChangesNothing(ar, left, g);
      if Truthy(ar, l) != (op.kind == Or) { ConcordantAgrees(ar, fuel, right, g); }
      LogicalResult(ar, op.kind, l, Eval(ar, right, g).value);
  }

  lemma LogicalResult(ar: Arith, k: Kind, l: Value, r: Value)
    requires k == And || k == Or
    ensures var v := BinaryResult(ar, LogicalCode(k)[0], l, r);
            && S.Holds(ar, S.Basic(l)) == Truthy(ar, l)
            && (Truthy(ar, l) == (k == Or) && l.Boolean? ==> v == l)
            && (Truthy(ar, l) != (k == Or) && r.Boolean? ==> v == r)
  {
  }

  /** A list of initialized declarations in which every initializer is declared and concordant. */
  predicate AllConcordant(ar: Arith, stmts: seq<Stmt>, g: Globals) {
    stmts == [] ||
    (&& stmts[0].VarDecl? && Compilable(stmts[0].init)
     && Declared(stmts[0].init, g) && Concordant(ar, stmts[0].init, g)
     && AllConcordant(ar, stmts[1..], g[stmts[0].name.lexeme := Eval(ar, stmts[0].init, g).value]))
  }

  lemma {:induction false} ConcordantProgramAgrees(ar: Arith, fuel: nat, stmts: seq<Stmt>, g: Globals)
    requires Ordered(ar) && AllConcordant(ar, stmts, g)
    ensures CompilableProgram(stmts)
    ensures S.ExecAll(ar, fuel, stmts, Top(g)) == S.Executed(S.Done, Top(EvalProgram(ar, stmts, g)))
  {
    hide Eval, S.Eval, Concordant, Declared, Ordered, S.Valid, S.Kept, S.Clean;
    if stmts != [] {
      var s, x := stmts[0], stmts[0].name.lexeme;
      var v := Eval(ar, s.init, g).value;
      ConcordantAgrees(ar, fuel, s.init, g);
      DeclaredChangesNothing(ar, s.init, g);
      DeclarationAgrees(ar, fuel, s, g, v);
      ConcordantProgramAgrees(ar, fuel, stmts[1..], g[x := v]);
    }
  }

  lemma DeclarationAgrees(ar: Arith, fuel: nat, s: Stmt, g: Globals, v: Value)
    requires s.VarDecl? && S.Eval(ar, fuel, s.init, Top(g)) == S.Valued(S.Done, S.Basic(v), Top(g))
    ensures S.Exec(ar, fuel, s, Top(g)) == S.Executed(S.Done, Top(g[s.name.lexeme := v]))
  {
    hide S.Eval, S.Valid, S.Kept, S.Clean;
    assert Refs(g[s.name.lexeme := v]) == Refs(g)[s.name.lexeme := S.Basic(v)];
  }

  /** On such a program the machine and the interpreter end with the same globals, strict comparisons and all. */
  lemma MachineAgreesWhereOperatorsDo(ar: Arith, fuel: nat, stmts: seq<Stmt>)
    requires Ordered(ar) && AllConcordant(ar, stmts, map[]) && Repeats(ProgramPool(stmts))
    ensures var r := Execute(ar, ProgramCode(stmts, 0), ProgramPool(stmts), State(0, [], map[]));
            && r.Halted? && r.state.stack == []
            && S.ExecAll(ar, fuel, stmts, S.START) == S.Executed(S.Done, Top(r.state.globals))
  {
    hide Execute, S.ExecAll, AllConcordant, Repeats, Ordered;
    assert Refs(map[]) == map[];
    assert Top(map[]) == S.START;
    ConcordantProgramAgrees(ar, fuel, stmts, map[]);
    RepeatingProgramMeansSource(ar, stmts);
  }
}
