/**
 Fuel only decides whether an execution is followed to its end: with more of it, an execution that
 ended ends in the same way, with the same value and the same state.
 */
module InterpreterFuel {
  import opened Values
  import opened Syntax
  import opened Semantics

  lemma {:induction false} MoreFuelSameValue(ar: Arith, fuel: nat, more: nat, e: Expr, m: Mem)
    requires Valid(m) && fuel <= more && !Eval(ar, fuel, e, m).end.OutOfFuel?
    ensures Eval(ar, more, e, m) == Eval(ar, fuel, e, m)
    decreases fuel, e, 1
  {
    hide SameNames, Valid, Clean, BinaryOp, UnaryOp, AssignRef, EvalVariable, Answered;
    match e
    case Grouping(inner) => MoreFuelSameValue(ar, fuel, more, inner, m);
    case Unary(_, right) => MoreFuelSameValue(ar, fuel, more, right, m);
    case Binary(left, _, right) => OperandsFuel(ar, fuel, more, e, left, right, m);
    case Logical(left, _, right) => OperandsFuel(ar, fuel, more, e, left, right, m);
    case Assign(_, source) => MoreFuelSameValue(ar, fuel, more, source, m);
    case Call(_, _, _) => CallFuel(ar, fuel, more, e, m);
    case _ =>
  }

  lemma {:induction false} OperandsFuel(ar: Arith, fuel: nat, more: nat, parent: Expr, left: Expr, right: Expr, m: Mem)
    requires Valid(m) && fuel <= more && left < parent && right < parent
    requires !Eval(ar, fuel, left, m).end.OutOfFuel?
    ensures Eval(ar, more, left, m) == Eval(ar, fuel, left, m)
    ensures var l := Eval(ar, fuel, left, m);
            !Eval(ar, fuel, right, l.mem).end.OutOfFuel? ==>
              Eval(ar, more, right, l.mem) == Eval(ar, fuel, right, l.mem)
    decreases fuel, parent, 0
  {
    MoreFuelSameValue(ar, fuel, more, left, m);
    var l := Eval(ar, fuel, left, m);
    if !Eval(ar, fuel, right, l.mem).end.OutOfFuel? {
      MoreFuelSameValue(ar, fuel, more, right, l.mem);
    }
  }

  lemma {:induction false} CallFuel(ar: Arith, fuel: nat, more: nat, e: Expr, m: Mem)
    requires Valid(m) && fuel <= more && e.Call? && !EvalCall(ar, fuel, e, m).end.OutOfFuel?
    ensures EvalCall(ar, more, e, m) == EvalCall(ar, fuel, e, m)
    decreases fuel, e, 0
  {
    hide SameNames, Valid, Clean;
    MoreFuelSameValue(ar, fuel, more, e.callee, m);
    var c := Eval(ar, fuel, e.callee, m);
    if c.end.Done? && !c.value.NoRef? {
      ArgsFuel(ar, fuel, more, e.args, c.mem);
      var a := EvalArgs(ar, fuel, e.args, c.mem);
      if Ready(c.value, a).Done? {
        ApplyFuel(ar, fuel - 1, more - 1, c.value, a.args, a.mem);
      }
    }
  }

  lemma {:induction false} ArgsFuel(ar: Arith, fuel: nat, more: nat, args: seq<Expr>, m: Mem)
    requires Valid(m) && fuel <= more && !EvalArgs(ar, fuel, args, m).end.OutOfFuel?
    ensures EvalArgs(ar, more, args, m) == EvalArgs(ar, fuel, args, m)
    decreases fuel, args, 0
  {
    hide SameNames, Valid, Clean;
    if args != [] {
      MoreFuelSameValue(ar, fuel, more, args[0], m);
      var r := Eval(ar, fuel, args[0], m);
      if r.end.Done? && r.value.Basic? { ArgsFuel(ar, fuel, more, args[1..], r.mem); }
    }
  }

  lemma {:induction false} ApplyFuel(ar: Arith, fuel: nat, more: nat, f: Ref, args: seq<Value>, m: Mem)
    requires Valid(m) && f.Func? && |f.params| <= |args| && fuel <= more
    requires !Apply(ar, fuel, f, args, m).end.OutOfFuel?
    ensures Apply(ar, more, f, args, m) == Apply(ar, fuel, f, args, m)
    decreases fuel, f.body, 3
  {
    hide SameNames, Valid, Clean, Enter;
    var locals := Locals(f.params, args);
    BlockFuel(ar, fuel, more, f.body, locals, Enter(m, locals));
  }

  lemma {:induction false} MoreFuelSameEnding(ar: Arith, fuel: nat, more: nat, s: Stmt, m: Mem)
    requires Valid(m) && fuel <= more && !Exec(ar, fuel, s, m).end.OutOfFuel?
    ensures Exec(ar, more, s, m) == Exec(ar, fuel, s, m)
    decreases fuel, s, 2
  {
    hide SameNames, Valid, Clean, Declare, Bound;
    match s
    case ExprStmt(expr) => MoreFuelSameValue(ar, fuel, more, expr, m);
    case VarDecl(_, init) => DeclareFuel(ar, fuel, more, s, m);
    case Block(stmts) => BlockFuel(ar, fuel, more, stmts, map[], m);
    case IfStmt(cond, thn, els) =>
      MoreFuelSameValue(ar, fuel, more, cond, m);
      var c := Test(ar, Eval(ar, fuel, cond, m));
      if c.0.Done? { MoreFuelSameEnding(ar, fuel, more, if c.1 then thn else els, c.2); }
    case WhileStmt(_, _) => LoopFuel(ar, fuel, more, s, m);
    case ForStmt(start, _, _, _) =>
      MoreFuelSameEnding(ar, fuel, more, start, m);
      var r := Exec(ar, fuel, start, m);
      if r.end.Done? { LoopFuel(ar, fuel, more, s, r.mem); }
    case ReturnStmt(_, result) => MoreFuelSameValue(ar, fuel, more, result, m);
    case _ =>
  }

  lemma {:induction false} DeclareFuel(ar: Arith, fuel: nat, more: nat, s: Stmt, m: Mem)
    requires s.VarDecl? && Valid(m) && fuel <= more && !Exec(ar, fuel, s, m).end.OutOfFuel?
    ensures Exec(ar, more, s, m) == Exec(ar, fuel, s, m)
    decreases fuel, s, 0
  {
    MoreFuelSameValue(ar, fuel, more, s.init, m);
  }

  lemma {:induction false} LoopFuel(ar: Arith, fuel: nat, more: nat, s: Stmt, m: Mem)
    requires Valid(m) && (s.WhileStmt? || s.ForStmt?) && fuel <= more && !Loop(ar, fuel, s, m).end.OutOfFuel?
    ensures Loop(ar, more, s, m) == Loop(ar, fuel, s, m)
    decreases fuel, s, 1
  {
    hide SameNames, Valid, Clean, Round;
    MoreFuelSameValue(ar, fuel, more, s.cond, m);
    var c := Test(ar, Eval(ar, fuel, s.cond, m));
    if c.0.Done? && c.1 {
      RoundFuel(ar, fuel, more, s, c.2);
      var b := Round(ar, fuel, s, c.2);
      if b.end.Done? { LoopFuel(ar, fuel - 1, more - 1, s, b.mem); }
    }
  }

  lemma {:induction false} RoundFuel(ar: Arith, fuel: nat, more: nat, s: Stmt, m: Mem)
    requires Valid(m) && (s.WhileStmt? || s.ForStmt?) && fuel <= more && !Round(ar, fuel, s, m).end.OutOfFuel?
    ensures Round(ar, more, s, m) == Round(ar, fuel, s, m)
    decreases fuel, s, 0
  {
    hide SameNames, Valid, Clean;
    MoreFuelSameEnding(ar, fuel, more, s.loop, m);
    var b := Exec(ar, fuel, s.loop, m);
    if b.end.Done? && s.ForStmt? { MoreFuelSameValue(ar, fuel, more, s.step, b.mem); }
  }

  lemma {:induction false} BlockFuel(ar: Arith, fuel: nat, more: nat, stmts: seq<Stmt>, values: Bindings, m: Mem)
    requires Valid(m) && NoNulls(values) && fuel <= more && !ExecBlock(ar, fuel, stmts, values, m).end.OutOfFuel?
    ensures ExecBlock(ar, more, stmts, values, m) == ExecBlock(ar, fuel, stmts, values, m)
    decreases fuel, stmts, 1
  {
    hide SameNames, Valid, Clean, Enter, Leave;
    MoreFuelSameRun(ar, fuel, more, stmts, Enter(m, values));
  }

  lemma {:induction false} MoreFuelSameRun(ar: Arith, fuel: nat, more: nat, stmts: seq<Stmt>, m: Mem)
    requires Valid(m) && fuel <= more && !ExecAll(ar, fuel, stmts, m).end.OutOfFuel?
    ensures ExecAll(ar, more, stmts, m) == ExecAll(ar, fuel, stmts, m)
    decreases fuel, stmts, 0
  {
    hide SameNames, Valid, Clean;
    if stmts != [] {
      MoreFuelSameEnding(ar, fuel, more, stmts[0], m);
      var r := Exec(ar, fuel, stmts[0], m);
      if r.end.Done? { MoreFuelSameRun(ar, fuel, more, stmts[1..], r.mem); }
    }
  }
}
