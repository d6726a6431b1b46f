/**
 What the tree interpreter of src/lib/Interpreter.cpp computes, as functions on its whole state.

 Scopes form a vector in which each scope names its parent by index; values are kept on a stack.
 A return is an exception: it skips the epilogues of the blocks it leaves, and so does an error.
 `fuel` bounds the rounds of a loop and the depth of calls, so that diverging programs have a result.
 */
module Semantics {
  import opened Values
  import opened Syntax

  /** A pointer to a value: null, a primitive value, or a declared function. */
  datatype Ref = NoRef | Basic(v: Value) | Func(name: Token, params: seq<Token>, body: seq<Stmt>)

  type Bindings = map<string, Ref>

  datatype Scope = Scope(values: Bindings, parent: int)

  /**
   The first three faults are thrown.  The others are uses of a pointer for which the original has
   no defined result: a null pointer, a function read as a primitive value, a call of something that
   is no function, and a parameter beyond the last argument.
   */
  datatype Fault =
    | Undeclared(name: string) | BadPlus | UnknownOperator
    | NullPointer | NotBasic | NotCallable | MissingArgument

  /** How the execution of a statement ends. */
  datatype Ending = Done | Returned(result: Ref) | Failed(why: Fault) | OutOfFuel

  /**
   The state of the interpreter, and two counts: the scopes whose owner was left by an exception and
   did not remove them, and the calls that ended by a return.
   */
  datatype Mem = Mem(scopes: seq<Scope>, curr: int, stack: seq<Ref>, abandoned: nat, returned: nat)

  datatype Valued = Valued(end: Ending, value: Ref, mem: Mem)

  /** Only statements end by a return, and only what is done has a value. */
  predicate Settled(r: Valued) {
    !r.end.Returned? && (r.end.Done? || r.value.NoRef?)
  }

  /** The result of an operator, or why it has none. */
  datatype Answer = Answer(value: Value) | Refused(why: Fault)

  function Answered(a: Answer, m: Mem): (res: Valued)
    ensures res.mem == m && Settled(res)
  {
    if a.Answer? then Give(a.value, m) else Fail(a.why, m)
  }

  datatype Valuing = Valuing(end: Ending, args: seq<Value>, mem: Mem)

  datatype Executed = Executed(end: Ending, mem: Mem)

  // ----- States -----

  /** Scopes are linked in a line down to the global one, and the last one is current. */
  predicate Linear(scopes: seq<Scope>, curr: int) {
    && |scopes| > 0 && curr == |scopes| - 1
    && forall i | 0 <= i < |scopes| :: scopes[i].parent == i - 1
  }

  /** No name is bound to a null pointer. */
  predicate NoNulls(values: Bindings) {
    forall x | x in values :: values[x] != NoRef
  }

  predicate Valid(m: Mem) {
    Linear(m.scopes, m.curr) && forall i | 0 <= i < |m.scopes| :: NoNulls(m.scopes[i].values)
  }

  const START: Mem := Mem([Scope(map[], -1)], 0, [], 0, 0)

  /**
   What every execution keeps from `m` to `n`: the stack grows by one value for each call that
   returned, the scopes by those abandoned, and what was on the stack stays there.
   */
  predicate Kept(m: Mem, n: Mem) {
    && Valid(n)
    && m.abandoned <= n.abandoned && |n.scopes| == |m.scopes| + (n.abandoned - m.abandoned)
    && m.returned <= n.returned && |n.stack| == |m.stack| + (n.returned - m.returned)
    && n.returned - m.returned <= n.abandoned - m.abandoned
    && m.stack <= n.stack && SameNames(m, n)
  }

  function Names(m: Mem, i: nat): set<string>
    requires i < |m.scopes|
  {
    m.scopes[i].values.Keys
  }

  /** Old scopes are all there, and bind the names they did; only the current one may bind more. */
  predicate SameNames(m: Mem, n: Mem) {
    && 0 < |m.scopes| <= |n.scopes|
    && (forall i | 0 <= i < |m.scopes| - 1 :: Names(n, i) == Names(m, i))
    && Names(m, |m.scopes| - 1) <= Names(n, |m.scopes| - 1)
  }

  /** An execution that ends normally leaves scopes behind exactly if some call in it returned. */
  predicate Clean(end: Ending, m: Mem, n: Mem) {
    end.Done? ==> (n.returned == m.returned <==> n.abandoned == m.abandoned)
  }

  lemma KeptTwice(a: Mem, b: Mem, c: Mem)
    requires Kept(a, b) && Kept(b, c)
    ensures Kept(a, c)
  {
    hide Valid;
  }

  /** The index of the last scope that binds the name, or -1. */
  function Holder(scopes: seq<Scope>, name: string): (i: int)
    ensures -1 <= i < |scopes|
    ensures i >= 0 ==> name in scopes[i].values
    ensures forall j | i < j < |scopes| :: name !in scopes[j].values
  {
    if scopes == [] then -1
    else if name in scopes[|scopes| - 1].values then |scopes| - 1
    else Holder(scopes[..|scopes| - 1], name)
  }

  function Bound(m: Mem, i: nat, name: string, value: Ref): (n: Mem)
    requires Valid(m) && i < |m.scopes| && value != NoRef && (name in m.scopes[i].values || i == m.curr)
    ensures Kept(m, n) && |n.scopes| == |m.scopes|
  {
    var s := m.scopes[i];
    m.(scopes := m.scopes[i := s.(values := s.values[name := value])])
  }

  function Enter(m: Mem, values: Bindings): (n: Mem)
    requires Valid(m) && NoNulls(values)
    ensures Valid(n) && |n.scopes| == |m.scopes| + 1 && forall i | 0 <= i < |m.scopes| :: Names(n, i) == Names(m, i)
  {
    m.(scopes := m.scopes + [Scope(values, m.curr)], curr := m.curr + 1)
  }

  /** The epilogue of a block: the parent of the current scope becomes current. */
  function Leave(m: Mem): (n: Mem)
    requires Valid(m) && |m.scopes| > 1
    ensures Valid(n) && |n.scopes| == |m.scopes| - 1 && forall i | 0 <= i < |n.scopes| :: Names(n, i) == Names(m, i)
  {
    m.(scopes := m.scopes[..|m.scopes| - 1], curr := m.scopes[m.curr].parent)
  }

  /** The epilogue of a call. */
  function PopScope(m: Mem): (n: Mem)
    requires Valid(m) && |m.scopes| > 1
    ensures Valid(n) && |n.scopes| == |m.scopes| - 1 && forall i | 0 <= i < |n.scopes| :: Names(n, i) == Names(m, i)
  {
    m.(scopes := m.scopes[..|m.scopes| - 1], curr := m.curr - 1)
  }

  function Abandon(m: Mem): Mem {
    m.(abandoned := m.abandoned + 1)
  }

  /** A call that ended by a return leaves its value on the stack. */
  function PushReturned(m: Mem, value: Ref): Mem {
    m.(stack := m.stack + [value], returned := m.returned + 1)
  }

  // ----- Operators -----

  /** The fault of reading this pointer as a primitive value. */
  function Misuse(r: Ref): Fault {
    if r.NoRef? then NullPointer else NotBasic
  }

  function Fail(why: Fault, m: Mem): Valued {
    Valued(Failed(why), NoRef, m)
  }

  function Give(v: Value, m: Mem): Valued {
    Valued(Done, Basic(v), m)
  }

  /** A function is true; a null pointer has no truth. */
  predicate Holds(ar: Arith, r: Ref)
    requires !r.NoRef?
  {
    r.Func? || Truthy(ar, r.v)
  }

  predicate Comparison(k: Kind) {
    k == Less || k == LessEqual || k == Greater || k == GreaterEqual || k == EqualEqual || k == BangEqual
  }

  predicate Arithmetic(k: Kind) {
    k == Minus || k == Star || k == Slash
  }

  /** All comparisons are of numbers; a value that is no number counts as zero. */
  predicate Compare(ar: Arith, k: Kind, x: Number, y: Number)
    requires Comparison(k)
  {
    match k
    case Less => ar.lt(x, y)
    case LessEqual => ar.le(x, y)
    case Greater => ar.gt(x, y)
    case GreaterEqual => ar.ge(x, y)
    case EqualEqual => ar.eq(x, y)
    case BangEqual => !ar.eq(x, y)
  }

  function Calculate(ar: Arith, k: Kind, x: Number, y: Number): Number
    requires Arithmetic(k)
  {
    match k
    case Minus => ar.sub(x, y)
    case Star => ar.mul(x, y)
    case Slash => ar.div(x, y)
  }

  /** Next to a string everything is text to be joined; otherwise there must be two numbers. */
  function Sum(ar: Arith, l: Value, r: Value): (a: Answer)
    ensures l.Text? || r.Text? ==> a == Answer(Text(Show(ar, l) + Show(ar, r)))
    ensures a.Refused? <==> !(l.Text? || r.Text?) && !(l.Numeric? && r.Numeric?)
    ensures a.Answer? && !(l.Text? || r.Text?) ==> a.value.Numeric?
  {
    if l.Text? && r.Text? then Answer(Text(l.s + r.s))
    else if l.Numeric? && r.Numeric? then Answer(Numeric(ar.add(l.n, r.n)))
    else if l.Text? then Answer(Text(l.s + Show(ar, r)))
    else if r.Text? then Answer(Text(Show(ar, l) + r.s))
    else Refused(BadPlus)
  }

  /** Refused are unknown operators, operands that are no primitive values, and bad sums. */
  function BinaryOp(ar: Arith, k: Kind, l: Ref, r: Ref): (a: Answer)
    ensures a.Refused? <==>
            || !(k == Plus || Arithmetic(k) || Comparison(k))
            || !l.Basic? || !r.Basic?
            || (k == Plus && !l.v.Text? && !r.v.Text? && !(l.v.Numeric? && r.v.Numeric?))
    ensures a.Answer? && k != Plus ==> if Comparison(k) then a.value.Boolean? else a.value.Numeric?
  {
    if !(k == Plus || Arithmetic(k) || Comparison(k)) then Refused(UnknownOperator)
    else if !l.Basic? then Refused(Misuse(l))
    else if !r.Basic? then Refused(Misuse(r))
    else if k == Plus then Sum(ar, l.v, r.v)
    else
      var x, y := AsNumber(ar, l.v), AsNumber(ar, r.v);
      if Arithmetic(k) then Answer(Numeric(Calculate(ar, k, x, y)))
      else Answer(Boolean(Compare(ar, k, x, y)))
  }

  /** An unknown operator gives null. */
  function UnaryOp(ar: Arith, k: Kind, r: Ref): Answer {
    if k == Minus then
      if !r.Basic? then Refused(Misuse(r)) else Answer(Numeric(ar.neg(AsNumber(ar, r.v))))
    else if k == Bang then
      if r.NoRef? then Refused(NullPointer) else Answer(Boolean(!Holds(ar, r)))
    else Answer(Null)
  }

  // ----- Expressions -----

  /** The value of an expression; a missing one has the null pointer as its value. */
  function Eval(ar: Arith, fuel: nat, e: Expr, m: Mem): (res: Valued)
    requires Valid(m)
    ensures Kept(m, res.mem) && Clean(res.end, m, res.mem) && Settled(res)
    decreases fuel, e, 1
  {
    match e
    case NoExpr => Valued(Done, NoRef, m)
    case Literal(value) => Give(value, m)
    case Variable(name) => EvalVariable(name.lexeme, m)
    case Grouping(inner) => Eval(ar, fuel, inner, m)
    case Unary(op, right) =>
      var r := Eval(ar, fuel, right, m);
      if r.end.Done? then Answered(UnaryOp(ar, op.kind, r.value), r.mem) else r
    case Binary(_, _, _) => EvalBinary(ar, fuel, e, m)
    case Logical(_, _, _) => EvalLogical(ar, fuel, e, m)
    case Assign(name, source) =>
      var r := Eval(ar, fuel, source, m);
      if r.end.Done? then AssignRef(name.lexeme, r.value, r.mem) else r
    case Call(_, _, _) => EvalCall(ar, fuel, e, m)
  }

  function EvalBinary(ar: Arith, fuel: nat, e: Expr, m: Mem): (res: Valued)
    requires Valid(m) && e.Binary?
    ensures Kept(m, res.mem) && Clean(res.end, m, res.mem) && Settled(res)
    decreases fuel, e, 0
  {
    hide BinaryOp, Valid;
    var l := Eval(ar, fuel, e.left, m);
    if !l.end.Done? then l else
    var r := Eval(ar, fuel, e.right, l.mem);
    if r.end.Done? then Answered(BinaryOp(ar, e.op.kind, l.value, r.value), r.mem) else r
  }

  /** The right operand is evaluated only if the left one does not decide. */
  function EvalLogical(ar: Arith, fuel: nat, e: Expr, m: Mem): (res: Valued)
    requires Valid(m) && e.Logical?
    ensures Kept(m, res.mem) && Clean(res.end, m, res.mem) && Settled(res)
    decreases fuel, e, 0
  {
    var l := Eval(ar, fuel, e.left, m);
    if !l.end.Done? then l
    else if l.value.NoRef? then Fail(NullPointer, l.mem)
    else if Holds(ar, l.value) == (e.op.kind == Or) then l
    else Eval(ar, fuel, e.right, l.mem)
  }

  function EvalVariable(name: string, m: Mem): (res: Valued)
    requires Valid(m)
    ensures Kept(m, res.mem) && Clean(res.end, m, res.mem) && Settled(res) && !res.end.OutOfFuel?
  {
    var i := Holder(m.scopes, name);
    if i < 0 then Fail(Undeclared(name), m) else Valued(Done, m.scopes[i].values[name], m)
  }

  function AssignRef(name: string, r: Ref, m: Mem): (res: Valued)
    requires Valid(m)
    ensures Kept(m, res.mem) && Clean(res.end, m, res.mem) && Settled(res) && !res.end.OutOfFuel?
  {
    var i := Holder(m.scopes, name);
    if !r.Basic? then Fail(Misuse(r), m)
    else if i < 0 then Fail(Undeclared(name), m)
    else Valued(Done, r, Bound(m, i, name, r))
  }

  /** Arguments are copied, so each must be a primitive value. */
  function EvalArgs(ar: Arith, fuel: nat, args: seq<Expr>, m: Mem): (res: Valuing)
    requires Valid(m)
    ensures Kept(m, res.mem) && Clean(res.end, m, res.mem) && !res.end.Returned?
    decreases fuel, args, 0
  {
    if args == [] then Valuing(Done, [], m) else
    var r := Eval(ar, fuel, args[0], m);
    if !r.end.Done? then Valuing(r.end, [], r.mem)
    else if !r.value.Basic? then Valuing(Failed(Misuse(r.value)), [], r.mem)
    else
      var rest := EvalArgs(ar, fuel, args[1..], r.mem);
      if rest.end.Done? then rest.(args := [r.value.v] + rest.args) else rest
  }

  function EvalCall(ar: Arith, fuel: nat, e: Expr, m: Mem): (res: Valued)
    requires Valid(m) && e.Call?
    ensures Kept(m, res.mem) && Clean(res.end, m, res.mem) && Settled(res)
    decreases fuel, e, 0
  {
    hide Valid, SameNames;
    var c := Eval(ar, fuel, e.callee, m);
    if !c.end.Done? then c
    else if c.value.NoRef? then Fail(NullPointer, c.mem)
    else
      var a := EvalArgs(ar, fuel, e.args, c.mem);
      KeptTwice(m, c.mem, a.mem);
      var ready := Ready(c.value, a);
      if !ready.Done? then Valued(ready, NoRef, a.mem)
      else if fuel == 0 then Valued(OutOfFuel, NoRef, a.mem)
      else
        var r := Apply(ar, fuel - 1, c.value, a.args, a.mem);
        KeptTwice(m, a.mem, r.mem);
        r
  }

  /** Whether the call of a value can begin; more arguments than parameters are dropped. */
  function Ready(f: Ref, a: Valuing): Ending {
    if !a.end.Done? then a.end
    else if !f.Func? then Failed(NotCallable)
    else if |a.args| < |f.params| then Failed(MissingArgument)
    else Done
  }

  function Locals(params: seq<Token>, args: seq<Value>): (values: Bindings)
    requires |params| <= |args|
    ensures NoNulls(values)
  {
    if params == [] then map[]
    else
      var k := |params| - 1;
      Locals(params[..k], args)[params[k].lexeme := Basic(args[k])]
  }

  /** The body runs in a scope with the parameters inside another scope with the parameters. */
  function Apply(ar: Arith, fuel: nat, f: Ref, args: seq<Value>, m: Mem): (res: Valued)
    requires Valid(m) && f.Func? && |f.params| <= |args|
    ensures Kept(m, res.mem) && Clean(res.end, m, res.mem) && Settled(res)
    decreases fuel, f.body, 3
  {
    var locals := Locals(f.params, args);
    var r := ExecBlock(ar, fuel, f.body, locals, Enter(m, locals));
    match r.end
    case Done => Give(Undefined, PopScope(r.mem))
    case Returned(v) =>
      if v.Basic? then Valued(Done, v, PopScope(PushReturned(r.mem, v))) else Fail(Misuse(v), Abandon(r.mem))
    case _ => Valued(r.end, NoRef, Abandon(r.mem))
  }

  // ----- Statements -----

  function Exec(ar: Arith, fuel: nat, s: Stmt, m: Mem): (res: Executed)
    requires Valid(m)
    ensures Kept(m, res.mem) && Clean(res.end, m, res.mem)
    decreases fuel, s, 2
  {
    match s
    case NoStmt => Executed(Done, m)
    case ExprStmt(expr) => var r := Eval(ar, fuel, expr, m); Executed(r.end, r.mem)
    case VarDecl(name, init) => Declare(name.lexeme, Eval(ar, fuel, init, m))
    case FuncDecl(name, params, body) => Executed(Done, Bound(m, m.curr, name.lexeme, Func(name, params, body)))
    case Block(stmts) => ExecBlock(ar, fuel, stmts, map[], m)
    case IfStmt(_, _, _) => ExecIf(ar, fuel, s, m)
    case WhileStmt(_, _) => Loop(ar, fuel, s, m)
    case ForStmt(start, _, _, _) =>
      var r := Exec(ar, fuel, start, m);
      if r.end.Done? then Loop(ar, fuel, s, r.mem) else r
    case ReturnStmt(_, result) =>
      var r := Eval(ar, fuel, result, m);
      Executed(if r.end.Done? then Returned(r.value) else r.end, r.mem)
  }

  function ExecIf(ar: Arith, fuel: nat, s: Stmt, m: Mem): (res: Executed)
    requires Valid(m) && s.IfStmt?
    ensures Kept(m, res.mem) && Clean(res.end, m, res.mem)
    decreases fuel, s, 0
  {
    var c := Test(ar, Eval(ar, fuel, s.cond, m));
    if !c.0.Done? then Executed(c.0, c.2)
    else if c.1 then Exec(ar, fuel, s.thn, c.2)
    else Exec(ar, fuel, s.els, c.2)
  }

  /** Defines the name in the current scope; a missing initializer has no value to show. */
  function Declare(name: string, r: Valued): (res: Executed)
    requires Valid(r.mem)
    ensures Kept(r.mem, res.mem)
  {
    if !r.end.Done? then Executed(r.end, r.mem)
    else if !r.value.Basic? then Executed(Failed(Misuse(r.value)), r.mem)
    else Executed(Done, Bound(r.mem, r.mem.curr, name, r.value))
  }

  /** The truth of a condition, or why it has none. */
  function Test(ar: Arith, r: Valued): (c: (Ending, bool, Mem))
    ensures c.2 == r.mem
  {
    if !r.end.Done? then (r.end, false, r.mem)
    else if r.value.NoRef? then (Failed(NullPointer), false, r.mem)
    else (Done, Holds(ar, r.value), r.mem)
  }

  /** The rounds of a while or for statement; a while statement has no step. */
  function Loop(ar: Arith, fuel: nat, s: Stmt, m: Mem): (res: Executed)
    requires Valid(m) && (s.WhileStmt? || s.ForStmt?)
    ensures Kept(m, res.mem) && Clean(res.end, m, res.mem)
    decreases fuel, s, 1
  {
    hide Valid, SameNames;
    var c := Test(ar, Eval(ar, fuel, s.cond, m));
    if !c.0.Done? || !c.1 then Executed(c.0, c.2) else
    var b := Round(ar, fuel, s, c.2);
    KeptTwice(m, c.2, b.mem);
    if !b.end.Done? then b
    else if fuel == 0 then Executed(OutOfFuel, b.mem)
    else
      var r := Loop(ar, fuel - 1, s, b.mem);
      KeptTwice(m, b.mem, r.mem);
      r
  }

  /** The body of a loop and its step. */
  function Round(ar: Arith, fuel: nat, s: Stmt, m: Mem): (res: Executed)
    requires Valid(m) && (s.WhileStmt? || s.ForStmt?)
    ensures Kept(m, res.mem) && Clean(res.end, m, res.mem)
    decreases fuel, s, 0
  {
    var b := Exec(ar, fuel, s.loop, m);
    if !b.end.Done? || s.WhileStmt? then b else
    var t := Eval(ar, fuel, s.step, b.mem);
    Executed(t.end, t.mem)
  }

  /** Statements in a new scope.  Only a block that ends normally removes a scope: the current one. */
  function ExecBlock(ar: Arith, fuel: nat, stmts: seq<Stmt>, values: Bindings, m: Mem): (res: Executed)
    requires Valid(m) && NoNulls(values)
    ensures Kept(m, res.mem) && Clean(res.end, m, res.mem)
    ensures !res.end.Done? ==> res.mem.returned - m.returned < res.mem.abandoned - m.abandoned
    ensures forall i | 0 <= i < |m.scopes| :: Names(res.mem, i) == Names(m, i)
    decreases fuel, stmts, 1
  {
    hide Valid;
    var r := ExecAll(ar, fuel, stmts, Enter(m, values));
    if r.end.Done? then Executed(Done, Leave(r.mem)) else Executed(r.end, Abandon(r.mem))
  }

  function ExecAll(ar: Arith, fuel: nat, stmts: seq<Stmt>, m: Mem): (res: Executed)
    requires Valid(m)
    ensures Kept(m, res.mem) && Clean(res.end, m, res.mem)
    decreases fuel, stmts, 0
  {
    if stmts == [] then Executed(Done, m) else
    var r := Exec(ar, fuel, stmts[0], m);
    if r.end.Done? then ExecAll(ar, fuel, stmts[1..], r.mem) else r
  }
}
