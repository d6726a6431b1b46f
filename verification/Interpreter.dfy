/**
 The interpreter object of src/lib/Interpreter.cpp, include/Interpreter.h and include/JSCallable.h:
 every visitor changes the object as `Semantics` says.  An exception in flight is the `Ending` that
 a method returns.
 */
module Interpreter {
  import opened Values
  import opened Syntax
  import opened Semantics

  /** The outcome for the rest of an argument list, after the values of the first arguments. */
  function Prepend(args: seq<Value>, rest: Valuing): Valuing {
    if rest.end.Done? then rest.(args := args + rest.args) else rest
  }

  lemma NoArgsYet(r: Valuing)
    ensures Prepend([], r) == r
  {
    assert [] + r.args == r.args;
  }

  lemma NoArgsLeft(ar: Arith, fuel: nat, done: seq<Value>, rest: seq<Expr>, m: Mem)
    requires Valid(m) && rest == []
    ensures Prepend(done, EvalArgs(ar, fuel, rest, m)) == Valuing(Done, done, m)
  {
    assert done + [] == done;
  }

  lemma OneMoreArg(ar: Arith, fuel: nat, done: seq<Value>, rest: seq<Expr>, m: Mem)
    requires Valid(m) && rest != []
    ensures var r := Eval(ar, fuel, rest[0], m);
            Prepend(done, EvalArgs(ar, fuel, rest, m)) ==
            if !r.end.Done? then Valuing(r.end, [], r.mem)
            else if !r.value.Basic? then Valuing(Failed(Misuse(r.value)), [], r.mem)
            else Prepend(done + [r.value.v], EvalArgs(ar, fuel, rest[1..], r.mem))
  {
    hide SameNames, Clean;
    var r := Eval(ar, fuel, rest[0], m);
    if r.end.Done? && r.value.Basic? {
      var tail := EvalArgs(ar, fuel, rest[1..], r.mem).args;
      assert done + ([r.value.v] + tail) == (done + [r.value.v]) + tail;
    }
  }

  class Interpreter {
    const ar: Arith
    var symTables: seq<Scope>
    var valueStack: seq<Ref>
    var currIdx: int
    ghost var abandoned: nat
    ghost var returned: nat

    constructor (ar: Arith)
      ensures this.ar == ar && Now() == START && Valid(Now())
    {
      this.ar := ar;
      symTables, valueStack, currIdx := [Scope(map[], -1)], [], 0;
      abandoned, returned := 0, 0;
    }

    ghost function Now(): Mem
      reads this
    {
      Mem(symTables, currIdx, valueStack, abandoned, returned)
    }

    // ----- Scopes -----

    method AppendSymbolTable(env: Scope)
      requires Valid(Now()) && env.parent == currIdx && NoNulls(env.values)
      modifies this`symTables, this`currIdx
      ensures Now() == Enter(old(Now()), env.values)
    {
      symTables := symTables + [env];
      currIdx := currIdx + 1;
    }

    method PopSymbolTable()
      requires Valid(Now()) && |symTables| > 1
      modifies this`symTables, this`currIdx
      ensures Now() == PopScope(old(Now()))
    {
      symTables := symTables[..|symTables| - 1];
      currIdx := currIdx - 1;
    }

    /** New bindings go into the current scope. */
    method Define(name: string, value: Ref)
      requires Valid(Now()) && value != NoRef
      modifies this`symTables
      ensures Now() == Bound(old(Now()), old(currIdx), name, value)
    {
      var s := symTables[currIdx];
      symTables := symTables[currIdx := s.(values := s.values[name := value])];
    }

    /**
     Follows the parents from the current scope: changes the binding of the innermost scope that
     holds the name and nothing else, and fails exactly if no scope holds it.
     */
    method Assign(name: string, value: Ref) returns (ok: bool)
      requires Valid(Now()) && value != NoRef
      modifies this`symTables
      ensures ok <==> exists j | 0 <= j < |old(symTables)| :: name in old(symTables)[j].values
      ensures var i := Holder(old(symTables), name);
              ok == (i >= 0) && Now() == if i < 0 then old(Now()) else Bound(old(Now()), i, name, value)
    {
      var idx := currIdx;
      while idx != -1
        invariant -1 <= idx < |symTables| && Now() == old(Now())
        invariant forall j | idx < j < |symTables| :: name !in symTables[j].values
        decreases idx + 1
      {
        var s := symTables[idx];
        if name in s.values && s.values[name] != NoRef {
          symTables := symTables[idx := s.(values := s.values[name := value])];
          return true;
        }
        idx := s.parent;
      }
      return false;
    }

    /** The binding of the innermost scope that holds the name; fails exactly if none does. */
    method Resolve(name: string) returns (ok: bool, value: Ref)
      requires Valid(Now())
      ensures ok <==> exists j | 0 <= j < |symTables| :: name in symTables[j].values
      ensures var i := Holder(symTables, name);
              ok == (i >= 0) && value == if i < 0 then NoRef else symTables[i].values[name]
    {
      var idx := currIdx;
      while idx != -1
        invariant -1 <= idx < |symTables|
        invariant forall j | idx < j < |symTables| :: name !in symTables[j].values
        decreases idx + 1
      {
        var s := symTables[idx];
        if name in s.values && s.values[name] != NoRef {
          return true, s.values[name];
        }
        idx := s.parent;
      }
      return false, NoRef;
    }

    // ----- The value stack -----

    method PushValue(value: Ref)
      modifies this`valueStack
      ensures valueStack == old(valueStack) + [value]
    {
      valueStack := valueStack + [value];
    }

    method PopValue() returns (value: Ref)
      requires valueStack != []
      modifies this`valueStack
      ensures valueStack == old(valueStack)[..|old(valueStack)| - 1]
      ensures value == old(valueStack)[|old(valueStack)| - 1]
    {
      value := valueStack[|valueStack| - 1];
      valueStack := valueStack[..|valueStack| - 1];
    }

    // ----- Expressions -----

    /** The effect of a visitor: the value of the expression is on the stack. */
    ghost predicate Visited(end: Ending, r: Valued)
      reads this
    {
      end == r.end && Now() == if end.Done? then r.mem.(stack := r.mem.stack + [r.value]) else r.mem
    }

    /** Visits an expression that is there, and takes its value from the stack. */
    method Evaluate(e: Expr, fuel: nat) returns (end: Ending, value: Ref)
      requires Valid(Now())
      modifies this
      ensures Eval(ar, fuel, e, old(Now())) == Valued(end, value, Now()) && Valid(Now())
      decreases fuel, e, 3
    {
      value := NoRef;
      end := Done;
      if !e.NoExpr? {
        end := Accept(e, fuel);
        if end.Done? {
          ghost var r := Eval(ar, fuel, e, old(Now()));
          assert valueStack[..|valueStack| - 1] == r.mem.stack;
          value := PopValue();
        }
      }
    }

    method Accept(e: Expr, fuel: nat) returns (end: Ending)
      requires Valid(Now()) && !e.NoExpr?
      modifies this
      ensures Visited(end, Eval(ar, fuel, e, old(Now())))
      decreases fuel, e, 2
    {
      end := Done;
      match e
      case Literal(value) => PushValue(Basic(value));
      case Variable(name) => end := VisitVarExpr(name.lexeme);
      case Grouping(inner) =>
        var value;
        end, value := Evaluate(inner, fuel);
        if end.Done? { PushValue(value); }
      case Unary(_, _) => end := VisitUnaryExpr(e, fuel);
      case Binary(_, _, _) => end := VisitBinaryExpr(e, fuel);
      case Logical(_, _, _) => end := VisitLogicalExpr(e, fuel);
      case Assign(_, _) => end := VisitAssignExpr(e, fuel);
      case Call(_, _, _) => end := VisitCallExpr(e, fuel);
    }

    method VisitVarExpr(name: string) returns (end: Ending)
      requires Valid(Now())
      modifies this`valueStack
      ensures Visited(end, EvalVariable(name, old(Now())))
    {
      var ok, value := Resolve(name);
      if !ok { return Failed(Undeclared(name)); }
      PushValue(value);
      return Done;
    }

    method VisitUnaryExpr(e: Expr, fuel: nat) returns (end: Ending)
      requires Valid(Now()) && e.Unary?
      modifies this
      ensures Visited(end, Eval(ar, fuel, e, old(Now())))
      decreases fuel, e, 1
    {
      var rhs;
      end, rhs := Evaluate(e.right, fuel);
      if !end.Done? { return; }
      var r := UnaryOp(ar, e.op.kind, rhs);
      if r.Refused? { return Failed(r.why); }
      PushValue(Basic(r.value));
    }

    method VisitBinaryExpr(e: Expr, fuel: nat) returns (end: Ending)
      requires Valid(Now()) && e.Binary?
      modifies this
      ensures Visited(end, EvalBinary(ar, fuel, e, old(Now())))
      decreases fuel, e, 1
    {
      hide BinaryOp;
      var lhs, rhs;
      end, lhs := Evaluate(e.left, fuel);
      if !end.Done? { return; }
      end, rhs := Evaluate(e.right, fuel);
      if !end.Done? { return; }
      var r := BinaryOp(ar, e.op.kind, lhs, rhs);
      if r.Refused? { return Failed(r.why); }
      PushValue(Basic(r.value));
    }

    method VisitLogicalExpr(e: Expr, fuel: nat) returns (end: Ending)
      requires Valid(Now()) && e.Logical?
      modifies this
      ensures Visited(end, EvalLogical(ar, fuel, e, old(Now())))
      decreases fuel, e, 1
    {
      var left, value;
      end, left := Evaluate(e.left, fuel);
      if !end.Done? { return; }
      if left.NoRef? { return Failed(NullPointer); }
      if e.op.kind == Or {
        if Holds(ar, left) {
          PushValue(left);
          return;
        }
      } else {
        if !Holds(ar, left) {
          PushValue(left);
          return;
        }
      }
      end, value := Evaluate(e.right, fuel);
      if end.Done? { PushValue(value); }
    }

    method VisitAssignExpr(e: Expr, fuel: nat) returns (end: Ending)
      requires Valid(Now()) && e.Assign?
      modifies this
      ensures Visited(end, Eval(ar, fuel, e, old(Now())))
      decreases fuel, e, 1
    {
      var value, ok;
      end, value := Evaluate(e.source, fuel);
      if !end.Done? { return; }
      if !value.Basic? { return Failed(Misuse(value)); }
      ok := Assign(e.name.lexeme, value);
      if !ok { return Failed(Undeclared(e.name.lexeme)); }
      PushValue(value);
    }

    method VisitCallExpr(e: Expr, fuel: nat) returns (end: Ending)
      requires Valid(Now()) && e.Call?
      modifies this
      ensures Visited(end, EvalCall(ar, fuel, e, old(Now())))
      decreases fuel, e, 1
    {
      hide Kept, Valid;
      var callee, args;
      end, callee := Evaluate(e.callee, fuel);
      if !end.Done? { return; }
      if callee.NoRef? { return Failed(NullPointer); }
      end, args := EvaluateArgs(e, fuel);
      if !end.Done? { return; }
      if !callee.Func? { return Failed(NotCallable); }
      if |args| < |callee.params| { return Failed(MissingArgument); }
      if fuel == 0 { return OutOfFuel; }
      var result;
      end, result := CallFunction(callee, args, fuel - 1);
      if end.Done? { PushValue(Basic(result)); }
    }

    method EvaluateArgs(e: Expr, fuel: nat) returns (end: Ending, args: seq<Value>)
      requires Valid(Now()) && e.Call?
      modifies this
      ensures EvalArgs(ar, fuel, e.args, old(Now())) == Valuing(end, if end.Done? then args else [], Now())
      ensures Valid(Now())
      decreases fuel, e, 0
    {
      hide EvalArgs, Prepend, Kept, Clean, Valid;
      NoArgsYet(EvalArgs(ar, fuel, e.args, Now()));
      assert e.args[0..] == e.args;
      end, args := Done, [];
      for i := 0 to |e.args|
        invariant Valid(Now()) && end.Done?
        invariant Prepend(args, EvalArgs(ar, fuel, e.args[i..], Now())) == EvalArgs(ar, fuel, e.args, old(Now()))
      {
        OneMoreArg(ar, fuel, args, e.args[i..], Now());
        assert e.args[i..][1..] == e.args[i + 1..];
        var value;
        end, value := Evaluate(e.args[i], fuel);
        if !end.Done? { return; }
        if !value.Basic? { return Failed(Misuse(value)), args; }
        args := args + [value.v];
      }
      NoArgsLeft(ar, fuel, args, e.args[|e.args|..], Now());
    }

    /** A function call: a scope with the parameters, then the body in a block that has them again. */
    method CallFunction(f: Ref, args: seq<Value>, fuel: nat) returns (end: Ending, result: Value)
      requires Valid(Now()) && f.Func? && |f.params| <= |args|
      modifies this
      ensures var r := Apply(ar, fuel, f, args, old(Now()));
              end == r.end && Now() == r.mem && (end.Done? ==> r.value == Basic(result))
      ensures Valid(Now())
      decreases fuel, f.body, 5
    {
      hide SameNames, Clean;
      result := Undefined;
      var funcScope := Scope(map[], currIdx);
      for i := 0 to |f.params|
        invariant funcScope == Scope(Locals(f.params[..i], args), currIdx)
      {
        assert f.params[..i + 1][..i] == f.params[..i];
        funcScope := funcScope.(values := funcScope.values[f.params[i].lexeme := Basic(args[i])]);
      }
      assert f.params[..|f.params|] == f.params;
      AppendSymbolTable(funcScope);
      end := ExecuteBlock(f.body, funcScope, fuel);
      if end.Returned? {
        var value := end.result;
        if !value.Basic? {
          end := Failed(Misuse(value));
          abandoned := abandoned + 1;
          return;
        }
        PushValue(value);
        returned := returned + 1;
        PopSymbolTable();
        end, result := Done, value.v;
      } else if end.Done? {
        PopSymbolTable();
      } else {
        abandoned := abandoned + 1;
      }
    }

    // ----- Statements -----

    method Execute(s: Stmt, fuel: nat) returns (end: Ending)
      requires Valid(Now())
      modifies this
      ensures Exec(ar, fuel, s, old(Now())) == Executed(end, Now()) && Valid(Now())
      decreases fuel, s, 4
    {
      end := Done;
      var value;
      match s
      case NoStmt =>
      case ExprStmt(expr) => end, value := Evaluate(expr, fuel);
      case VarDecl(name, init) => end := VisitVarDecl(s, fuel);
      case FuncDecl(name, params, body) => Define(name.lexeme, Func(name, params, body));
      case Block(stmts) => end := ExecuteBlock(stmts, Scope(map[], currIdx), fuel);
      case IfStmt(_, _, _) => end := VisitIfStmt(s, fuel);
      case WhileStmt(_, _) => end := VisitWhileStmt(s, fuel);
      case ForStmt(_, _, _, _) => end := VisitForStmt(s, fuel);
      case ReturnStmt(_, result) =>
        end, value := Evaluate(result, fuel);
        if end.Done? { end := Returned(value); }
    }

    method VisitVarDecl(s: Stmt, fuel: nat) returns (end: Ending)
      requires Valid(Now()) && s.VarDecl?
      modifies this
      ensures Exec(ar, fuel, s, old(Now())) == Executed(end, Now()) && Valid(Now())
      decreases fuel, s, 3
    {
      var value := NoRef;
      if !s.init.NoExpr? {
        end, value := Evaluate(s.init, fuel);
        if !end.Done? { return; }
      }
      if !value.Basic? { return Failed(Misuse(value)); }
      Define(s.name.lexeme, value);
      return Done;
    }

    method VisitIfStmt(s: Stmt, fuel: nat) returns (end: Ending)
      requires Valid(Now()) && s.IfStmt?
      modifies this
      ensures ExecIf(ar, fuel, s, old(Now())) == Executed(end, Now()) && Valid(Now())
      decreases fuel, s, 3
    {
      var value;
      end, value := Evaluate(s.cond, fuel);
      if !end.Done? { return; }
      if value.NoRef? { return Failed(NullPointer); }
      if Holds(ar, value) && !s.thn.NoStmt? {
        end := Execute(s.thn, fuel);
        return;
      }
      if !Holds(ar, value) && !s.els.NoStmt? {
        end := Execute(s.els, fuel);
        return;
      }
    }

    method VisitWhileStmt(s: Stmt, fuel: nat) returns (end: Ending)
      requires Valid(Now()) && s.WhileStmt?
      modifies this
      ensures Loop(ar, fuel, s, old(Now())) == Executed(end, Now()) && Valid(Now())
      decreases fuel, s, 3
    {
      hide Kept, Valid;
      var left: nat, value := fuel, NoRef;
      while true
        invariant left <= fuel && Valid(Now())
        invariant Loop(ar, left, s, Now()) == Loop(ar, fuel, s, old(Now()))
        decreases left
      {
        end, value := Evaluate(s.cond, left);
        if !end.Done? { return; }
        if value.NoRef? { return Failed(NullPointer); }
        if !Holds(ar, value) { return; }
        end := Execute(s.loop, left);
        if !end.Done? { return; }
        if left == 0 { return OutOfFuel; }
        left := left - 1;
      }
    }

    method VisitForStmt(s: Stmt, fuel: nat) returns (end: Ending)
      requires Valid(Now()) && s.ForStmt?
      modifies this
      ensures Exec(ar, fuel, s, old(Now())) == Executed(end, Now()) && Valid(Now())
      decreases fuel, s, 3
    {
      hide Kept, Valid;
      end := Execute(s.start, fuel);
      if !end.Done? { return; }
      var left: nat, value := fuel, NoRef;
      while true
        invariant left <= fuel && Valid(Now())
        invariant Loop(ar, left, s, Now()) == Exec(ar, fuel, s, old(Now()))
        decreases left
      {
        end, value := Evaluate(s.cond, left);
        if !end.Done? { return; }
        if value.NoRef? { return Failed(NullPointer); }
        if !Holds(ar, value) { return; }
        end := Execute(s.loop, left);
        if !end.Done? { return; }
        end, value := Evaluate(s.step, left);
        if !end.Done? { return; }
        if left == 0 { return OutOfFuel; }
        left := left - 1;
      }
    }

    /** The statements of a block in a new scope whose parent is the current one. */
    method ExecuteBlock(stmts: seq<Stmt>, env: Scope, fuel: nat) returns (end: Ending)
      requires Valid(Now()) && NoNulls(env.values)
      modifies this
      ensures ExecBlock(ar, fuel, stmts, env.values, old(Now())) == Executed(end, Now()) && Valid(Now())
      decreases fuel, stmts, 1
    {
      AppendSymbolTable(env.(parent := currIdx));
      end := ExecuteAll(stmts, fuel);
      if !end.Done? {
        abandoned := abandoned + 1;
        return;
      }
      var parent := symTables[currIdx].parent;
      symTables := symTables[..|symTables| - 1];
      currIdx := parent;
    }

    method ExecuteAll(stmts: seq<Stmt>, fuel: nat) returns (end: Ending)
      requires Valid(Now())
      modifies this
      ensures ExecAll(ar, fuel, stmts, old(Now())) == Executed(end, Now()) && Valid(Now())
      decreases fuel, stmts, 0
    {
      end := Done;
      for i := 0 to |stmts|
        invariant Valid(Now()) && end.Done?
        invariant ExecAll(ar, fuel, stmts[i..], Now()) == ExecAll(ar, fuel, stmts, old(Now()))
      {
        assert stmts[i..][1..] == stmts[i + 1..];
        end := Execute(stmts[i], fuel);
        if !end.Done? { return; }
      }
    }

    /** A program: its statements in the global scope, up to the first that does not end normally. */
    method Run(stmts: seq<Stmt>, fuel: nat) returns (end: Ending)
      requires Valid(Now())
      modifies this
      ensures ExecAll(ar, fuel, stmts, old(Now())) == Executed(end, Now()) && Valid(Now())
      ensures Kept(old(Now()), Now())
    {
      end := ExecuteAll(stmts, fuel);
    }
  }
}
