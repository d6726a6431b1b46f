/**
 The interpreter without fuel, by rules: from which states statements and expressions end how, in
 terms of their parts alone.  Each rule says both when an execution ends and that no other does.
 */
module NaturalSemantics {
  import opened Values
  import opened Syntax
  import opened Semantics
  import opened InterpreterFuel

  // ----- Executions that end -----

  ghost predicate Evaluates(ar: Arith, e: Expr, m: Mem, r: Valued) {
    Valid(m) && !r.end.OutOfFuel? && exists fuel: nat :: Eval(ar, fuel, e, m) == r
  }

  ghost predicate Ends(ar: Arith, s: Stmt, m: Mem, x: Executed) {
    Valid(m) && !x.end.OutOfFuel? && exists fuel: nat :: Exec(ar, fuel, s, m) == x
  }

  ghost predicate Runs(ar: Arith, stmts: seq<Stmt>, m: Mem, x: Executed) {
    Valid(m) && !x.end.OutOfFuel? && exists fuel: nat :: ExecAll(ar, fuel, stmts, m) == x
  }

  lemma EvaluatesFrom(ar: Arith, e: Expr, m: Mem, r: Valued) returns (enough: nat)
    requires Evaluates(ar, e, m, r)
    ensures forall fuel: nat | fuel >= enough :: Eval(ar, fuel, e, m) == r
  {
    hide Eval, Valid;
    enough :| Eval(ar, enough, e, m) == r;
    forall fuel: nat | fuel >= enough ensures Eval(ar, fuel, e, m) == r {
      MoreFuelSameValue(ar, enough, fuel, e, m);
    }
  }

  lemma EndsFrom(ar: Arith, s: Stmt, m: Mem, x: Executed) returns (enough: nat)
    requires Ends(ar, s, m, x)
    ensures forall fuel: nat | fuel >= enough :: Exec(ar, fuel, s, m) == x
  {
    hide Exec, Valid;
    enough :| Exec(ar, enough, s, m) == x;
    forall fuel: nat | fuel >= enough ensures Exec(ar, fuel, s, m) == x {
      MoreFuelSameEnding(ar, enough, fuel, s, m);
    }
  }

  lemma RunsFrom(ar: Arith, stmts: seq<Stmt>, m: Mem, x: Executed) returns (enough: nat)
    requires Runs(ar, stmts, m, x)
    ensures forall fuel: nat | fuel >= enough :: ExecAll(ar, fuel, stmts, m) == x
  {
    hide ExecAll, Valid;
    enough :| ExecAll(ar, enough, stmts, m) == x;
    forall fuel: nat | fuel >= enough ensures ExecAll(ar, fuel, stmts, m) == x {
      MoreFuelSameRun(ar, enough, fuel, stmts, m);
    }
  }

  function Max(a: nat, b: nat): (c: nat)
    ensures c >= a && c >= b
  {
    if a < b then b else a
  }

  /** An expression ends in at most one way, and so does a statement. */
  lemma EndsOneWay(ar: Arith, e: Expr, r: Valued, q: Valued, s: Stmt, x: Executed, y: Executed, m: Mem)
    ensures Evaluates(ar, e, m, r) && Evaluates(ar, e, m, q) ==> r == q
    ensures Ends(ar, s, m, x) && Ends(ar, s, m, y) ==> x == y
  {
    hide Eval, Exec, Valid;
    if Evaluates(ar, e, m, r) && Evaluates(ar, e, m, q) {
      var f := EvaluatesFrom(ar, e, m, r);
      var g := EvaluatesFrom(ar, e, m, q);
      assert Eval(ar, Max(f, g), e, m) == r;
    }
    if Ends(ar, s, m, x) && Ends(ar, s, m, y) {
      var f := EndsFrom(ar, s, m, x);
      var g := EndsFrom(ar, s, m, y);
      assert Exec(ar, Max(f, g), s, m) == x;
    }
  }

  // ----- Truth -----

  /** True are true itself, every number that does not equal zero, and every function. */
  predicate IsTrue(ar: Arith, r: Ref) {
    || r.Func?
    || r == Basic(Boolean(true))
    || (r.Basic? && r.v.Numeric? && !ar.eq(r.v.n, ar.zero))
  }

  lemma TruthOf(ar: Arith, r: Ref)
    requires !r.NoRef?
    ensures Holds(ar, r) <==> IsTrue(ar, r)
  {
  }

  // ----- If -----

  /** A condition that came out as `c` ends the statement as `x` itself. */
  predicate Untested(c: Valued, x: Executed) {
    if !c.end.Done? then x == Executed(c.end, c.mem)
    else c.value.NoRef? && x == Executed(Failed(NullPointer), c.mem)
  }

  predicate Tested(c: Valued) {
    c.end.Done? && !c.value.NoRef?
  }

  /** The then branch is run exactly on a true condition, and the else branch, if any, on every other. */
  lemma IfRule(ar: Arith, cond: Expr, thn: Stmt, els: Stmt, m: Mem, x: Executed)
    ensures Ends(ar, IfStmt(cond, thn, els), m, x) <==>
            exists c :: Evaluates(ar, cond, m, c) &&
                        if Tested(c) then Ends(ar, if IsTrue(ar, c.value) then thn else els, c.mem, x)
                        else Untested(c, x)
  {
    hide Eval, Exec, Valid, Kept, Clean, Holds;
    var s := IfStmt(cond, thn, els);
    if Ends(ar, s, m, x) {
      var f: nat :| Exec(ar, f, s, m) == x;
      IfUnfolds(ar, f, s, m);
      var c := Eval(ar, f, cond, m);
      assert Evaluates(ar, cond, m, c);
    }
    if c :| Evaluates(ar, cond, m, c) &&
            if Tested(c) then Ends(ar, if IsTrue(ar, c.value) then thn else els, c.mem, x) else Untested(c, x)
    {
      var f := EvaluatesFrom(ar, cond, m, c);
      if Tested(c) {
        var g := EndsFrom(ar, if IsTrue(ar, c.value) then thn else els, c.mem, x);
        IfUnfolds(ar, Max(f, g), s, m);
      } else {
        IfUnfolds(ar, f, s, m);
      }
    }
  }

  lemma IfUnfolds(ar: Arith, fuel: nat, s: Stmt, m: Mem)
    requires Valid(m) && s.IfStmt?
    ensures var c := Eval(ar, fuel, s.cond, m);
            && Valid(c.mem)
            && if Tested(c) then
                 Exec(ar, fuel, s, m) == Exec(ar, fuel, if IsTrue(ar, c.value) then s.thn else s.els, c.mem)
               else Untested(c, Exec(ar, fuel, s, m))
  {
    hide Eval, Valid, SameNames, Clean, IsTrue, Holds;
    var c := Eval(ar, fuel, s.cond, m);
    if Tested(c) { TruthOf(ar, c.value); }
  }

  // ----- Loops -----

  /** One round from `m` to `n`: the condition is true, then the body ends normally, then the step. */
  ghost predicate FullRound(ar: Arith, cond: Expr, body: Stmt, step: Expr, m: Mem, n: Mem) {
    exists c: Valued, b: Mem ::
      && Evaluates(ar, cond, m, c) && Tested(c) && IsTrue(ar, c.value)
      && Ends(ar, body, c.mem, Executed(Done, b))
      && exists t: Valued :: Evaluates(ar, step, b, t) && t.end.Done? && t.mem == n
  }

  /** The round from `m` is the last: its condition is not true, or its body or its step breaks off. */
  ghost predicate LastRound(ar: Arith, cond: Expr, body: Stmt, step: Expr, m: Mem, x: Executed) {
    exists c: Valued ::
      && Evaluates(ar, cond, m, c)
      && if !Tested(c) then Untested(c, x)
         else if !IsTrue(ar, c.value) then x == Executed(Done, c.mem)
         else BreaksOff(ar, body, step, c.mem, x)
  }

  ghost predicate BreaksOff(ar: Arith, body: Stmt, step: Expr, m: Mem, x: Executed) {
    || (!x.end.Done? && Ends(ar, body, m, x))
    || exists b: Mem, t: Valued ::
         && Ends(ar, body, m, Executed(Done, b))
         && Evaluates(ar, step, b, t) && !t.end.Done? && x == Executed(t.end, t.mem)
  }

  /** The states before the rounds: `m` first, each led to by the one before, and the last ends the loop. */
  ghost predicate Rounds(ar: Arith, cond: Expr, body: Stmt, step: Expr, m: Mem, ms: seq<Mem>, x: Executed) {
    && ms != [] && ms[0] == m
    && (forall i | 0 <= i < |ms| - 1 :: FullRound(ar, cond, body, step, ms[i], ms[i + 1]))
    && LastRound(ar, cond, body, step, ms[|ms| - 1], x)
  }

  /** The step of a while statement is a missing expression. */
  function StepOf(s: Stmt): Expr
    requires s.WhileStmt? || s.ForStmt?
  {
    if s.ForStmt? then s.step else NoExpr
  }

  /** What a loop does with fuel: how its condition comes out, then its body, then its step, then the rest. */
  lemma LoopUnfolds(ar: Arith, fuel: nat, s: Stmt, m: Mem)
    requires Valid(m) && (s.WhileStmt? || s.ForStmt?)
    ensures var c := Eval(ar, fuel, s.cond, m);
            var x := Loop(ar, fuel, s, m);
            && Valid(c.mem)
            && if !Tested(c) then Untested(c, x)
               else if !IsTrue(ar, c.value) then x == Executed(Done, c.mem)
               else
                 var b := Exec(ar, fuel, s.loop, c.mem);
                 && Valid(b.mem)
                 && if !b.end.Done? then x == b
                    else
                      var t := Eval(ar, fuel, StepOf(s), b.mem);
                      && Valid(t.mem)
                      && x == if !t.end.Done? then Executed(t.end, t.mem)
                              else if fuel == 0 then Executed(OutOfFuel, t.mem)
                              else Loop(ar, fuel - 1, s, t.mem)
  {
    hide Eval, Exec, Valid, SameNames, Clean, IsTrue, Holds;
    var c := Eval(ar, fuel, s.cond, m);
    if Tested(c) {
      TruthOf(ar, c.value);
      MissingStep(ar, fuel, Exec(ar, fuel, s.loop, c.mem).mem);
    }
  }

  lemma MissingStep(ar: Arith, fuel: nat, m: Mem)
    requires Valid(m)
    ensures Eval(ar, fuel, NoExpr, m) == Valued(Done, NoRef, m)
  {
  }

  lemma {:induction false} LoopHasRounds(ar: Arith, fuel: nat, s: Stmt, m: Mem) returns (ms: seq<Mem>)
    requires Valid(m) && (s.WhileStmt? || s.ForStmt?) && !Loop(ar, fuel, s, m).end.OutOfFuel?
    ensures Rounds(ar, s.cond, s.loop, StepOf(s), m, ms, Loop(ar, fuel, s, m))
    decreases fuel
  {
    hide Eval, Exec, Loop, Valid, IsTrue;
    LoopUnfolds(ar, fuel, s, m);
    ms := [m];
    var x, c := Loop(ar, fuel, s, m), Eval(ar, fuel, s.cond, m);
    assert Evaluates(ar, s.cond, m, c);
    if Tested(c) && IsTrue(ar, c.value) {
      var b := Exec(ar, fuel, s.loop, c.mem);
      assert Ends(ar, s.loop, c.mem, b);
      if b.end.Done? {
        assert b == Executed(Done, b.mem);
        var t := Eval(ar, fuel, StepOf(s), b.mem);
        assert Evaluates(ar, StepOf(s), b.mem, t);
        if t.end.Done? {
          assert FullRound(ar, s.cond, s.loop, StepOf(s), m, t.mem);
          var rest := LoopHasRounds(ar, fuel - 1, s, t.mem);
          ms := OneMoreRound(ar, s.cond, s.loop, StepOf(s), m, rest, x);
        }
      }
    }
  }

  lemma OneMoreRound(ar: Arith, cond: Expr, body: Stmt, step: Expr, m: Mem, rest: seq<Mem>, x: Executed)
      returns (ms: seq<Mem>)
    requires rest != [] && FullRound(ar, cond, body, step, m, rest[0]) && Rounds(ar, cond, body, step, rest[0], rest, x)
    ensures ms == [m] + rest && Rounds(ar, cond, body, step, m, ms, x)
  {
    hide FullRound, LastRound;
    ms := [m] + rest;
    forall i | 0 <= i < |ms| - 1 ensures FullRound(ar, cond, body, step, ms[i], ms[i + 1]) {
      if i > 0 { assert ms[i] == rest[i - 1] && ms[i + 1] == rest[i]; }
    }
    assert ms[|ms| - 1] == rest[|rest| - 1];
  }

  lemma {:induction false} RoundsMakeLoop(ar: Arith, s: Stmt, m: Mem, ms: seq<Mem>, x: Executed)
      returns (enough: nat)
    requires (s.WhileStmt? || s.ForStmt?) && Rounds(ar, s.cond, s.loop, StepOf(s), m, ms, x)
    ensures Valid(m) && !x.end.OutOfFuel? && forall fuel: nat | fuel >= enough :: Loop(ar, fuel, s, m) == x
    decreases |ms|
  {
    hide Eval, Exec, Loop, Valid, IsTrue, FullRound, LastRound;
    if |ms| == 1 {
      enough := LastMakesLoop(ar, s, m, x);
    } else {
      RestOfRounds(ar, s.cond, s.loop, StepOf(s), m, ms, x);
      var later := RoundsMakeLoop(ar, s, ms[1], ms[1..], x);
      enough := FullMakesLoop(ar, s, m, ms[1], x, later);
    }
  }

  lemma RestOfRounds(ar: Arith, cond: Expr, body: Stmt, step: Expr, m: Mem, ms: seq<Mem>, x: Executed)
    requires Rounds(ar, cond, body, step, m, ms, x) && |ms| > 1
    ensures Rounds(ar, cond, body, step, ms[1], ms[1..], x) && FullRound(ar, cond, body, step, m, ms[1])
  {
    hide FullRound, LastRound;
    forall i | 0 <= i < |ms[1..]| - 1 ensures FullRound(ar, cond, body, step, ms[1..][i], ms[1..][i + 1]) {
      assert ms[1..][i] == ms[i + 1] && ms[1..][i + 1] == ms[i + 2];
    }
  }

  lemma LastMakesLoop(ar: Arith, s: Stmt, m: Mem, x: Executed) returns (enough: nat)
    requires (s.WhileStmt? || s.ForStmt?) && LastRound(ar, s.cond, s.loop, StepOf(s), m, x)
    ensures Valid(m) && !x.end.OutOfFuel? && forall fuel: nat | fuel >= enough :: Loop(ar, fuel, s, m) == x
  {
    hide Eval, Exec, Loop, Valid, IsTrue;
    var c :|
      && Evaluates(ar, s.cond, m, c)
      && if !Tested(c) then Untested(c, x)
         else if !IsTrue(ar, c.value) then x == Executed(Done, c.mem)
         else BreaksOff(ar, s.loop, StepOf(s), c.mem, x);
    enough := EvaluatesFrom(ar, s.cond, m, c);
    if Tested(c) && IsTrue(ar, c.value) {
      var f;
      if !x.end.Done? && Ends(ar, s.loop, c.mem, x) {
        f := EndsFrom(ar, s.loop, c.mem, x);
      } else {
        var b: Mem, t: Valued :|
          && Ends(ar, s.loop, c.mem, Executed(Done, b))
          && Evaluates(ar, StepOf(s), b, t) && !t.end.Done? && x == Executed(t.end, t.mem);
        var g := EndsFrom(ar, s.loop, c.mem, Executed(Done, b));
        var h := EvaluatesFrom(ar, StepOf(s), b, t);
        f := Max(g, h);
      }
      enough := Max(enough, f);
    }
    forall fuel: nat | fuel >= enough ensures Loop(ar, fuel, s, m) == x {
      LoopUnfolds(ar, fuel, s, m);
    }
  }

  lemma FullMakesLoop(ar: Arith, s: Stmt, m: Mem, n: Mem, x: Executed, later: nat) returns (enough: nat)
    requires (s.WhileStmt? || s.ForStmt?) && FullRound(ar, s.cond, s.loop, StepOf(s), m, n)
    requires Valid(n) && forall fuel: nat | fuel >= later :: Loop(ar, fuel, s, n) == x
    ensures Valid(m) && forall fuel: nat | fuel >= enough :: Loop(ar, fuel, s, m) == x
  {
    hide Eval, Exec, Loop, Valid, IsTrue;
    var c: Valued, b: Mem :|
      && Evaluates(ar, s.cond, m, c) && Tested(c) && IsTrue(ar, c.value)
      && Ends(ar, s.loop, c.mem, Executed(Done, b))
      && exists t: Valued :: Evaluates(ar, StepOf(s), b, t) && t.end.Done? && t.mem == n;
    var t: Valued :| Evaluates(ar, StepOf(s), b, t) && t.end.Done? && t.mem == n;
    var f := EvaluatesFrom(ar, s.cond, m, c);
    var g := EndsFrom(ar, s.loop, c.mem, Executed(Done, b));
    var h := EvaluatesFrom(ar, StepOf(s), b, t);
    enough := Max(Max(f, g), Max(h, later + 1));
    forall fuel: nat | fuel >= enough ensures Loop(ar, fuel, s, m) == x {
      LoopUnfolds(ar, fuel, s, m);
      assert Loop(ar, fuel - 1, s, n) == x;
    }
  }

  /**
   A while statement ends as `x` exactly if there are states of which each leads to the next by a
   true condition and a normal end of the body, and in the last of which the condition is not true,
   or the condition or the body breaks off, which makes the end `x`.
   */
  lemma WhileRule(ar: Arith, cond: Expr, body: Stmt, m: Mem, x: Executed)
    ensures Ends(ar, WhileStmt(cond, body), m, x) <==> exists ms :: Rounds(ar, cond, body, NoExpr, m, ms, x)
  {
    hide Eval, Loop, Valid, Rounds;
    var s := WhileStmt(cond, body);
    if Ends(ar, s, m, x) {
      var f: nat :| Exec(ar, f, s, m) == x;
      var ms := LoopHasRounds(ar, f, s, m);
    }
    if ms :| Rounds(ar, cond, body, NoExpr, m, ms, x) {
      var f := RoundsMakeLoop(ar, s, m, ms, x);
      assert Exec(ar, f, s, m) == Loop(ar, f, s, m);
    }
  }

  /** A for statement likewise, from the state its start leaves and with the step after the body. */
  lemma ForRule(ar: Arith, start: Stmt, cond: Expr, step: Expr, body: Stmt, m: Mem, x: Executed)
    ensures Ends(ar, ForStmt(start, cond, step, body), m, x) <==>
            exists i :: Ends(ar, start, m, i) &&
                        if !i.end.Done? then x == i else exists ms :: Rounds(ar, cond, body, step, i.mem, ms, x)
  {
    hide Eval, Loop, Valid, Rounds;
    var s := ForStmt(start, cond, step, body);
    if Ends(ar, s, m, x) {
      var f: nat :| Exec(ar, f, s, m) == x;
      ForUnfolds(ar, f, s, m);
      var i := Exec(ar, f, start, m);
      assert Ends(ar, start, m, i);
      if i.end.Done? { var ms := LoopHasRounds(ar, f, s, i.mem); }
    }
    if i :| Ends(ar, start, m, i) &&
            if !i.end.Done? then x == i else exists ms :: Rounds(ar, cond, body, step, i.mem, ms, x)
    {
      var f := EndsFrom(ar, start, m, i);
      if i.end.Done? {
        var ms :| Rounds(ar, cond, body, step, i.mem, ms, x);
        var g := RoundsMakeLoop(ar, s, i.mem, ms, x);
        ForUnfolds(ar, Max(f, g), s, m);
      } else {
        ForUnfolds(ar, f, s, m);
      }
    }
  }

  lemma ForUnfolds(ar: Arith, fuel: nat, s: Stmt, m: Mem)
    requires Valid(m) && s.ForStmt?
    ensures var i := Exec(ar, fuel, s.start, m);
            && Valid(i.mem)
            && Exec(ar, fuel, s, m) == if i.end.Done? then Loop(ar, fuel, s, i.mem) else i
  {
    hide Eval, Loop, Valid, SameNames, Clean;
  }

  // ----- Expressions -----

  /** The scope `k` is the last one to bind the name. */
  predicate Innermost(scopes: seq<Scope>, name: string, k: nat) {
    k < |scopes| && name in scopes[k].values && forall j | k < j < |scopes| :: name !in scopes[j].values
  }

  predicate Unbound(scopes: seq<Scope>, name: string) {
    forall j | 0 <= j < |scopes| :: name !in scopes[j].values
  }

  lemma HolderIsInnermost(scopes: seq<Scope>, name: string)
    ensures Holder(scopes, name) < 0 <==> Unbound(scopes, name)
    ensures forall k: nat :: Innermost(scopes, name, k) <==> Holder(scopes, name) == k
  {
  }

  /** Literals are their values, a missing operand is null, and parentheses change nothing. */
  lemma LeafRule(ar: Arith, v: Value, inner: Expr, m: Mem, r: Valued)
    ensures Evaluates(ar, NoExpr, m, r) <==> Valid(m) && r == Valued(Done, NoRef, m)
    ensures Evaluates(ar, Literal(v), m, r) <==> Valid(m) && r == Valued(Done, Basic(v), m)
    ensures Evaluates(ar, Grouping(inner), m, r) <==> Evaluates(ar, inner, m, r)
  {
    hide Valid;
    if Valid(m) {
      assert Eval(ar, 0, NoExpr, m) == Valued(Done, NoRef, m);
      assert Eval(ar, 0, Literal(v), m) == Valued(Done, Basic(v), m);
      assert forall f: nat :: Eval(ar, f, Grouping(inner), m) == Eval(ar, f, inner, m);
    }
  }

  /** A variable has the value that the last scope binding it gives it. */
  lemma VariableRule(ar: Arith, name: Token, m: Mem, r: Valued)
    ensures Evaluates(ar, Variable(name), m, r) <==>
            && Valid(m)
            && if Unbound(m.scopes, name.lexeme) then r == Valued(Failed(Undeclared(name.lexeme)), NoRef, m)
               else exists k: nat :: Innermost(m.scopes, name.lexeme, k) &&
                                     r == Valued(Done, m.scopes[k].values[name.lexeme], m)
  {
    hide Valid, Kept, Clean;
    HolderIsInnermost(m.scopes, name.lexeme);
    if Valid(m) {
      assert forall f: nat :: Eval(ar, f, Variable(name), m) == EvalVariable(name.lexeme, m);
      if !Unbound(m.scopes, name.lexeme) { assert Innermost(m.scopes, name.lexeme, Holder(m.scopes, name.lexeme)); }
      assert Eval(ar, 0, Variable(name), m) == EvalVariable(name.lexeme, m);
    }
  }

  function Answers(a: Answer, m: Mem): Valued {
    if a.Answer? then Valued(Done, Basic(a.value), m) else Valued(Failed(a.why), NoRef, m)
  }

  lemma UnaryRule(ar: Arith, op: Token, right: Expr, m: Mem, r: Valued)
    ensures Evaluates(ar, Unary(op, right), m, r) <==>
            exists a :: Evaluates(ar, right, m, a) &&
                        r == if a.end.Done? then Answers(UnaryOp(ar, op.kind, a.value), a.mem) else a
  {
    hide Valid, UnaryOp;
    var e := Unary(op, right);
    if Evaluates(ar, e, m, r) {
      var f: nat :| Eval(ar, f, e, m) == r;
      assert Evaluates(ar, right, m, Eval(ar, f, right, m));
    }
    if a :| Evaluates(ar, right, m, a) &&
            r == if a.end.Done? then Answers(UnaryOp(ar, op.kind, a.value), a.mem) else a
    {
      var f := EvaluatesFrom(ar, right, m, a);
      assert Eval(ar, f, e, m) == r;
    }
  }

  predicate Combined(ar: Arith, k: Kind, a: Valued, b: Valued, r: Valued) {
    r == if b.end.Done? then Answers(BinaryOp(ar, k, a.value, b.value), b.mem) else b
  }

  /** The left operand, then the right one in the state the left one leaves, then the operator. */
  lemma BinaryRule(ar: Arith, left: Expr, op: Token, right: Expr, m: Mem, r: Valued)
    ensures Evaluates(ar, Binary(left, op, right), m, r) <==>
            exists a :: Evaluates(ar, left, m, a) &&
                        if !a.end.Done? then r == a
                        else exists b :: Evaluates(ar, right, a.mem, b) && Combined(ar, op.kind, a, b, r)
  {
    hide Valid, BinaryOp, Eval, Combined;
    var e := Binary(left, op, right);
    if Evaluates(ar, e, m, r) {
      var f: nat :| Eval(ar, f, e, m) == r;
      BinaryUnfolds(ar, f, e, m);
      var a := Eval(ar, f, left, m);
      assert Evaluates(ar, left, m, a);
      if a.end.Done? { assert Evaluates(ar, right, a.mem, Eval(ar, f, right, a.mem)); }
    }
    if a :| Evaluates(ar, left, m, a) &&
            if !a.end.Done? then r == a
            else exists b :: Evaluates(ar, right, a.mem, b) && Combined(ar, op.kind, a, b, r)
    {
      var f := EvaluatesFrom(ar, left, m, a);
      if a.end.Done? {
        var b :| Evaluates(ar, right, a.mem, b) && Combined(ar, op.kind, a, b, r);
        var g := EvaluatesFrom(ar, right, a.mem, b);
        f := Max(f, g);
        BinaryUnfolds(ar, f, e, m);
        CombinedOneWay(ar, op.kind, a, b, r, Eval(ar, f, e, m));
      } else {
        BinaryUnfolds(ar, f, e, m);
      }
    }
  }

  lemma CombinedOneWay(ar: Arith, k: Kind, a: Valued, b: Valued, r: Valued, q: Valued)
    requires Combined(ar, k, a, b, r) && Combined(ar, k, a, b, q)
    ensures r == q
  {
    hide BinaryOp;
  }

  lemma BinaryUnfolds(ar: Arith, fuel: nat, e: Expr, m: Mem)
    requires Valid(m) && e.Binary?
    ensures var a, r := Eval(ar, fuel, e.left, m), Eval(ar, fuel, e, m);
            && Valid(a.mem)
            && if !a.end.Done? then r == a
               else
                 var b := Eval(ar, fuel, e.right, a.mem);
                 Combined(ar, e.op.kind, a, b, r) && (b.end.OutOfFuel? <==> r.end.OutOfFuel?)
  {
    hide Valid, BinaryOp, SameNames, Clean;
  }

  /** The left operand is the value if its truth decides: true for an or, false for an and. */
  lemma LogicalRule(ar: Arith, left: Expr, op: Token, right: Expr, m: Mem, r: Valued)
    ensures Evaluates(ar, Logical(left, op, right), m, r) <==>
            exists a :: Evaluates(ar, left, m, a) &&
                        if !a.end.Done? then r == a
                        else if a.value.NoRef? then r == Valued(Failed(NullPointer), NoRef, a.mem)
                        else if IsTrue(ar, a.value) <==> op.kind == Or then r == a
                        else Evaluates(ar, right, a.mem, r)
  {
    hide Valid, Eval, IsTrue;
    var e := Logical(left, op, right);
    if Evaluates(ar, e, m, r) {
      var f: nat :| Eval(ar, f, e, m) == r;
      LogicalUnfolds(ar, f, e, m);
      assert Evaluates(ar, left, m, Eval(ar, f, left, m));
    }
    if a :| Evaluates(ar, left, m, a) &&
            if !a.end.Done? then r == a
            else if a.value.NoRef? then r == Valued(Failed(NullPointer), NoRef, a.mem)
            else if IsTrue(ar, a.value) <==> op.kind == Or then r == a
            else Evaluates(ar, right, a.mem, r)
    {
      var f := EvaluatesFrom(ar, left, m, a);
      if a.end.Done? && !a.value.NoRef? && !(IsTrue(ar, a.value) <==> op.kind == Or) {
        var g := EvaluatesFrom(ar, right, a.mem, r);
        f := Max(f, g);
      }
      LogicalUnfolds(ar, f, e, m);
    }
  }

  lemma LogicalUnfolds(ar: Arith, fuel: nat, e: Expr, m: Mem)
    requires Valid(m) && e.Logical?
    ensures var a := Eval(ar, fuel, e.left, m);
            && Valid(a.mem)
            && Eval(ar, fuel, e, m) ==
               if !a.end.Done? then a
               else if a.value.NoRef? then Valued(Failed(NullPointer), NoRef, a.mem)
               else if IsTrue(ar, a.value) <==> e.op.kind == Or then a
               else Eval(ar, fuel, e.right, a.mem)
  {
    hide Valid, SameNames, Clean, IsTrue, Holds;
    var a := Eval(ar, fuel, e.left, m);
    if Tested(a) { TruthOf(ar, a.value); }
  }

  /** A name is rebound in one scope. */
  function Rebound(m: Mem, k: nat, name: string, r: Ref): Mem
    requires k < |m.scopes|
  {
    m.(scopes := m.scopes[k := m.scopes[k].(values := m.scopes[k].values[name := r])])
  }

  /** The source, and then the last scope that binds the name binds it to the value, which is the result. */
  lemma AssignRule(ar: Arith, name: Token, source: Expr, m: Mem, r: Valued)
    ensures Evaluates(ar, Assign(name, source), m, r) <==>
            exists a :: Evaluates(ar, source, m, a) && Assigned(name.lexeme, a, r)
  {
    hide Valid, Assigned;
    var e := Assign(name, source);
    if Evaluates(ar, e, m, r) {
      var f: nat :| Eval(ar, f, e, m) == r;
      AssignUnfolds(ar, f, e, m);
      assert Evaluates(ar, source, m, Eval(ar, f, source, m));
    }
    if a :| Evaluates(ar, source, m, a) && Assigned(name.lexeme, a, r) {
      var f := EvaluatesFrom(ar, source, m, a);
      AssignUnfolds(ar, f, e, m);
      AssignedOneWay(name.lexeme, a, r, Eval(ar, f, e, m));
    }
  }

  ghost predicate Assigned(name: string, a: Valued, r: Valued) {
    if !a.end.Done? then r == a
    else if a.value.NoRef? then r == Valued(Failed(NullPointer), NoRef, a.mem)
    else if a.value.Func? then r == Valued(Failed(NotBasic), NoRef, a.mem)
    else if Unbound(a.mem.scopes, name) then r == Valued(Failed(Undeclared(name)), NoRef, a.mem)
    else exists k: nat :: Innermost(a.mem.scopes, name, k) &&
                          r == Valued(Done, a.value, Rebound(a.mem, k, name, a.value))
  }

  lemma AssignUnfolds(ar: Arith, fuel: nat, e: Expr, m: Mem)
    requires Valid(m) && e.Assign?
    ensures var a := Eval(ar, fuel, e.source, m);
            (a.end.OutOfFuel? <==> Eval(ar, fuel, e, m).end.OutOfFuel?) &&
            Assigned(e.name.lexeme, a, Eval(ar, fuel, e, m))
  {
    hide Valid, SameNames, Clean;
    var a := Eval(ar, fuel, e.source, m);
    HolderIsInnermost(a.mem.scopes, e.name.lexeme);
    var k := Holder(a.mem.scopes, e.name.lexeme);
    if k >= 0 { assert Innermost(a.mem.scopes, e.name.lexeme, k); }
  }

  lemma AssignedOneWay(name: string, a: Valued, r: Valued, q: Valued)
    requires Assigned(name, a, r) && Assigned(name, a, q)
    ensures r == q
  {
    HolderIsInnermost(a.mem.scopes, name);
  }

  // ----- Statements -----

  /** A new scope inside the current one. */
  function Entered(m: Mem, values: Bindings): Mem {
    m.(scopes := m.scopes + [Scope(values, m.curr)], curr := m.curr + 1)
  }

  /** The last scope removed. */
  function Left(m: Mem): Mem
    requires |m.scopes| > 0
  {
    m.(scopes := m.scopes[..|m.scopes| - 1], curr := m.curr - 1)
  }

  /** A scope left behind by an exception. */
  function Leftover(m: Mem): Mem {
    m.(abandoned := m.abandoned + 1)
  }

  lemma SimpleRule(ar: Arith, e: Expr, keyword: Token, m: Mem, x: Executed)
    ensures Ends(ar, NoStmt, m, x) <==> Valid(m) && x == Executed(Done, m)
    ensures Ends(ar, ExprStmt(e), m, x) <==> exists a :: Evaluates(ar, e, m, a) && x == Executed(a.end, a.mem)
    ensures Ends(ar, ReturnStmt(keyword, e), m, x) <==>
            exists a :: Evaluates(ar, e, m, a) &&
                        x == Executed(if a.end.Done? then Returned(a.value) else a.end, a.mem)
  {
    hide Valid, Eval;
    if Valid(m) {
      assert Exec(ar, 0, NoStmt, m) == Executed(Done, m);
      forall f: nat ensures var a := Eval(ar, f, e, m);
        && Exec(ar, f, ExprStmt(e), m) == Executed(a.end, a.mem)
        && Exec(ar, f, ReturnStmt(keyword, e), m) ==
           Executed(if a.end.Done? then Returned(a.value) else a.end, a.mem)
      {
      }
    }
    hide Exec;
    if Ends(ar, ExprStmt(e), m, x) {
      var f: nat :| Exec(ar, f, ExprStmt(e), m) == x;
      assert Evaluates(ar, e, m, Eval(ar, f, e, m));
    }
    if Ends(ar, ReturnStmt(keyword, e), m, x) {
      var f: nat :| Exec(ar, f, ReturnStmt(keyword, e), m) == x;
      assert Evaluates(ar, e, m, Eval(ar, f, e, m));
    }
  }

  /** A declaration binds its name in the last scope, to a primitive value. */
  predicate Declares(name: string, a: Valued, x: Executed) {
    if !a.end.Done? then x == Executed(a.end, a.mem)
    else if a.value.NoRef? then x == Executed(Failed(NullPointer), a.mem)
    else if a.value.Func? then x == Executed(Failed(NotBasic), a.mem)
    else |a.mem.scopes| > 0 && x == Executed(Done, Rebound(a.mem, |a.mem.scopes| - 1, name, a.value))
  }

  lemma DeclareRule(ar: Arith, name: Token, init: Expr, m: Mem, x: Executed)
    ensures Ends(ar, VarDecl(name, init), m, x) <==>
            exists a :: Evaluates(ar, init, m, a) && Declares(name.lexeme, a, x)
  {
    hide Valid, Eval, Declares;
    var s := VarDecl(name, init);
    if Ends(ar, s, m, x) {
      var f: nat :| Exec(ar, f, s, m) == x;
      DeclareUnfolds(ar, f, s, m);
      assert Evaluates(ar, init, m, Eval(ar, f, init, m));
    }
    if a :| Evaluates(ar, init, m, a) && Declares(name.lexeme, a, x) {
      var f := EvaluatesFrom(ar, init, m, a);
      DeclareUnfolds(ar, f, s, m);
      DeclaresOneWay(name.lexeme, a, x, Exec(ar, f, s, m));
    }
  }

  lemma DeclaresOneWay(name: string, a: Valued, x: Executed, y: Executed)
    requires Declares(name, a, x) && Declares(name, a, y)
    ensures x == y && (x.end.OutOfFuel? <==> a.end.OutOfFuel?)
  {
  }

  lemma DeclareUnfolds(ar: Arith, fuel: nat, s: Stmt, m: Mem)
    requires Valid(m) && s.VarDecl?
    ensures var a, x := Eval(ar, fuel, s.init, m), Exec(ar, fuel, s, m);
            Declares(s.name.lexeme, a, x) && (x.end.OutOfFuel? <==> a.end.OutOfFuel?)
  {
    hide SameNames, Clean;
  }

  /** A function declaration binds its name in the last scope to the function. */
  lemma FunctionRule(ar: Arith, name: Token, params: seq<Token>, body: seq<Stmt>, m: Mem, x: Executed)
    ensures Ends(ar, FuncDecl(name, params, body), m, x) <==>
            Valid(m) && x == Executed(Done, Rebound(m, |m.scopes| - 1, name.lexeme, Func(name, params, body)))
  {
    if Valid(m) {
      FunctionUnfolds(ar, name, params, body, m);
      hide Exec, Rebound, Valid;
      var s := FuncDecl(name, params, body);
      if Ends(ar, s, m, x) { var f: nat :| Exec(ar, f, s, m) == x; }
      assert Exec(ar, 0, s, m).mem == Rebound(m, |m.scopes| - 1, name.lexeme, Func(name, params, body));
    }
  }

  lemma FunctionUnfolds(ar: Arith, name: Token, params: seq<Token>, body: seq<Stmt>, m: Mem)
    requires Valid(m)
    ensures forall f: nat :: Exec(ar, f, FuncDecl(name, params, body), m) ==
                             Executed(Done, Rebound(m, |m.scopes| - 1, name.lexeme, Func(name, params, body)))
  {
  }

  /** A block is run in a new scope, which a normal end removes and any other leaves behind. */
  lemma BlockRule(ar: Arith, stmts: seq<Stmt>, m: Mem, x: Executed)
    ensures Ends(ar, Block(stmts), m, x) <==>
            Valid(m) && exists y :: Runs(ar, stmts, Entered(m, map[]), y) && BlockLeft(y, x)
  {
    hide Valid, ExecAll, BlockLeft;
    if Ends(ar, Block(stmts), m, x) {
      var f: nat :| Exec(ar, f, Block(stmts), m) == x;
      BlockUnfolds(ar, f, stmts, map[], m);
      assert Runs(ar, stmts, Entered(m, map[]), ExecAll(ar, f, stmts, Entered(m, map[])));
    }
    if y :| Valid(m) && Runs(ar, stmts, Entered(m, map[]), y) && BlockLeft(y, x) {
      var f := RunsFrom(ar, stmts, Entered(m, map[]), y);
      BlockUnfolds(ar, f, stmts, map[], m);
      BlockLeftOneWay(y, x, ExecBlock(ar, f, stmts, map[], m));
      assert Exec(ar, f, Block(stmts), m) == x;
    }
  }

  predicate BlockLeft(y: Executed, x: Executed) {
    if y.end.Done? then |y.mem.scopes| > 0 && x == Executed(Done, Left(y.mem))
    else x == Executed(y.end, Leftover(y.mem))
  }

  lemma BlockLeftOneWay(y: Executed, x: Executed, z: Executed)
    requires BlockLeft(y, x) && BlockLeft(y, z)
    ensures x == z && (x.end.OutOfFuel? <==> y.end.OutOfFuel?)
  {
  }

  lemma BlockUnfolds(ar: Arith, fuel: nat, stmts: seq<Stmt>, values: Bindings, m: Mem)
    requires Valid(m) && NoNulls(values)
    ensures Valid(Entered(m, values))
    ensures var y, x := ExecAll(ar, fuel, stmts, Entered(m, values)), ExecBlock(ar, fuel, stmts, values, m);
            BlockLeft(y, x) && (x.end.OutOfFuel? <==> y.end.OutOfFuel?)
  {
    hide ExecAll, SameNames, Clean, NoNulls;
    assert Entered(m, values) == Enter(m, values);
    var y := ExecAll(ar, fuel, stmts, Enter(m, values));
    if y.end.Done? { assert Leave(y.mem) == Left(y.mem); }
  }

  /** The states between statements that all end normally, and then the first that does not, if any. */
  ghost predicate Passes(ar: Arith, stmts: seq<Stmt>, m: Mem, ms: seq<Mem>, x: Executed) {
    && 0 < |ms| <= |stmts| + 1 && ms[0] == m
    && (forall i | 0 <= i < |ms| - 1 :: Ends(ar, stmts[i], ms[i], Executed(Done, ms[i + 1])))
    && if |ms| == |stmts| + 1 then Valid(ms[|ms| - 1]) && x == Executed(Done, ms[|ms| - 1])
       else !x.end.Done? && Ends(ar, stmts[|ms| - 1], ms[|ms| - 1], x)
  }

  /** Statements are executed one after another, up to the first that does not end normally. */
  lemma SequenceRule(ar: Arith, stmts: seq<Stmt>, m: Mem, x: Executed)
    ensures Runs(ar, stmts, m, x) <==> exists ms :: Passes(ar, stmts, m, ms, x)
  {
    hide ExecAll, Passes, Valid;
    if Runs(ar, stmts, m, x) {
      var f: nat :| ExecAll(ar, f, stmts, m) == x;
      var ms := RunPasses(ar, f, stmts, m);
    }
    if ms :| Passes(ar, stmts, m, ms, x) {
      var f := PassesRun(ar, stmts, m, ms, x);
      assert ExecAll(ar, f, stmts, m) == x;
    }
  }

  lemma {:induction false} RunPasses(ar: Arith, fuel: nat, stmts: seq<Stmt>, m: Mem) returns (ms: seq<Mem>)
    requires Valid(m) && !ExecAll(ar, fuel, stmts, m).end.OutOfFuel?
    ensures Passes(ar, stmts, m, ms, ExecAll(ar, fuel, stmts, m))
    decreases |stmts|
  {
    hide Exec, Valid, Kept, Clean;
    SequenceUnfolds(ar, fuel, stmts, m);
    hide ExecAll;
    ms := [m];
    if stmts != [] {
      var y := Exec(ar, fuel, stmts[0], m);
      assert Ends(ar, stmts[0], m, y);
      hide Ends;
      if y.end.Done? {
        var rest := RunPasses(ar, fuel, stmts[1..], y.mem);
        OneMorePasses(ar, stmts, m, rest, ExecAll(ar, fuel, stmts, m));
        ms := [m] + rest;
      }
    }
  }

  lemma SequenceUnfolds(ar: Arith, fuel: nat, stmts: seq<Stmt>, m: Mem)
    requires Valid(m)
    ensures if stmts == [] then ExecAll(ar, fuel, stmts, m) == Executed(Done, m)
            else
              var y := Exec(ar, fuel, stmts[0], m);
              && Valid(y.mem)
              && ExecAll(ar, fuel, stmts, m) == if y.end.Done? then ExecAll(ar, fuel, stmts[1..], y.mem) else y
  {
    hide Exec, Valid, SameNames, Clean;
  }

  lemma OneMorePasses(ar: Arith, stmts: seq<Stmt>, m: Mem, rest: seq<Mem>, x: Executed)
    requires stmts != [] && rest != [] && Ends(ar, stmts[0], m, Executed(Done, rest[0]))
    requires Passes(ar, stmts[1..], rest[0], rest, x)
    ensures Passes(ar, stmts, m, [m] + rest, x)
  {
    hide Ends, Valid;
    var ms := [m] + rest;
    forall i | 0 <= i < |ms| - 1 ensures Ends(ar, stmts[i], ms[i], Executed(Done, ms[i + 1])) {
      if i > 0 { assert ms[i] == rest[i - 1] && ms[i + 1] == rest[i] && stmts[i] == stmts[1..][i - 1]; }
    }
    assert ms[|ms| - 1] == rest[|rest| - 1];
    if |ms| < |stmts| + 1 { assert stmts[|ms| - 1] == stmts[1..][|rest| - 1]; }
  }

  lemma {:induction false} PassesRun(ar: Arith, stmts: seq<Stmt>, m: Mem, ms: seq<Mem>, x: Executed)
      returns (enough: nat)
    requires Passes(ar, stmts, m, ms, x)
    ensures Valid(m) && !x.end.OutOfFuel? && forall fuel: nat | fuel >= enough :: ExecAll(ar, fuel, stmts, m) == x
    decreases |stmts|
  {
    hide Exec, ExecAll, Valid;
    enough := 0;
    if stmts != [] {
      if |ms| == 1 {
        enough := EndsFrom(ar, stmts[0], m, x);
      } else {
        var f := EndsFrom(ar, stmts[0], m, Executed(Done, ms[1]));
        RestPasses(ar, stmts, m, ms, x);
        var g := PassesRun(ar, stmts[1..], ms[1], ms[1..], x);
        enough := Max(f, g);
      }
    }
    forall fuel: nat | fuel >= enough ensures ExecAll(ar, fuel, stmts, m) == x {
      SequenceUnfolds(ar, fuel, stmts, m);
    }
  }

  lemma RestPasses(ar: Arith, stmts: seq<Stmt>, m: Mem, ms: seq<Mem>, x: Executed)
    requires Passes(ar, stmts, m, ms, x) && |ms| > 1
    ensures Passes(ar, stmts[1..], ms[1], ms[1..], x)
  {
    hide Ends, Valid;
    forall i | 0 <= i < |ms[1..]| - 1
      ensures Ends(ar, stmts[1..][i], ms[1..][i], Executed(Done, ms[1..][i + 1]))
    {
      assert stmts[1..][i] == stmts[i + 1] && ms[1..][i] == ms[i + 1] && ms[1..][i + 1] == ms[i + 2];
    }
  }

  // ----- Calls -----

  /** The first arguments in turn, each evaluated where the one before ended, to a primitive value. */
  ghost predicate Arguments(ar: Arith, args: seq<Expr>, m: Mem, ms: seq<Mem>, vs: seq<Value>) {
    && |ms| == |vs| + 1 && |vs| <= |args| && ms[0] == m
    && forall i | 0 <= i < |vs| :: Evaluates(ar, args[i], ms[i], Valued(Done, Basic(vs[i]), ms[i + 1]))
  }

  /** The argument after them breaks off, or is no primitive value, so that the call ends as `r`. */
  ghost predicate BadArgument(ar: Arith, arg: Expr, m: Mem, r: Valued) {
    exists a :: Evaluates(ar, arg, m, a) &&
                if !a.end.Done? then r == Valued(a.end, NoRef, a.mem)
                else !a.value.Basic? &&
                     r == Valued(Failed(if a.value.NoRef? then NullPointer else NotBasic), NoRef, a.mem)
  }

  /** The call of `f` with these arguments: the body is run in two scopes with the parameters. */
  ghost predicate Called(ar: Arith, f: Ref, vs: seq<Value>, m: Mem, r: Valued) {
    if !f.Func? then r == Valued(Failed(NotCallable), NoRef, m)
    else if |vs| < |f.params| then r == Valued(Failed(MissingArgument), NoRef, m)
    else
      var locals := Locals(f.params, vs);
      exists x :: Runs(ar, f.body, Entered(Entered(m, locals), locals), x) && CallLeft(x, r)
  }

  /**
   A normal end of the body removes both scopes and gives undefined.  A return removes one, leaves the
   other behind, and leaves its value on the stack.  Anything else leaves both scopes behind.
   */
  predicate CallLeft(x: Executed, r: Valued) {
    match x.end
    case Done => |x.mem.scopes| > 1 && r == Valued(Done, Basic(Undefined), Left(Left(x.mem)))
    case Returned(v) =>
      if v.Basic? then
        |x.mem.scopes| > 0 &&
        r == Valued(Done, v, Left(Leftover(x.mem)).(stack := x.mem.stack + [v], returned := x.mem.returned + 1))
      else r == Valued(Failed(if v.NoRef? then NullPointer else NotBasic), NoRef, Leftover(Leftover(x.mem)))
    case _ => r == Valued(x.end, NoRef, Leftover(Leftover(x.mem)))
  }

  lemma CallLeftOneWay(x: Executed, r: Valued, q: Valued)
    requires CallLeft(x, r) && CallLeft(x, q)
    ensures r == q && (r.end.OutOfFuel? <==> x.end.OutOfFuel?)
  {
  }

  lemma ApplyUnfolds(ar: Arith, fuel: nat, f: Ref, vs: seq<Value>, m: Mem)
    requires Valid(m) && f.Func? && |f.params| <= |vs|
    ensures var locals := Locals(f.params, vs);
            var inner := Entered(Entered(m, locals), locals);
            && Valid(inner)
            && var x, r := ExecAll(ar, fuel, f.body, inner), Apply(ar, fuel, f, vs, m);
               CallLeft(x, r) && (r.end.OutOfFuel? <==> x.end.OutOfFuel?)
  {
    hide ExecAll, ExecBlock, SameNames, Clean, NoNulls;
    var locals := Locals(f.params, vs);
    assert Entered(m, locals) == Enter(m, locals);
    BlockUnfolds(ar, fuel, f.body, locals, Enter(m, locals));
    var b := ExecBlock(ar, fuel, f.body, locals, Enter(m, locals));
    if b.end.Done? { assert PopScope(b.mem) == Left(b.mem); }
  }

  /** The callee, then the arguments from left to right, then the call. */
  ghost predicate Applied(ar: Arith, args: seq<Expr>, c: Valued, r: Valued) {
    exists ms, vs ::
      && Arguments(ar, args, c.mem, ms, vs)
      && if |vs| < |args| then BadArgument(ar, args[|vs|], ms[|vs|], r) else Called(ar, c.value, vs, ms[|vs|], r)
  }

  lemma CallRule(ar: Arith, callee: Expr, paren: Token, args: seq<Expr>, m: Mem, r: Valued)
    ensures Evaluates(ar, Call(callee, paren, args), m, r) <==>
            exists c :: Evaluates(ar, callee, m, c) &&
                        if !c.end.Done? then r == c
                        else if c.value.NoRef? then r == Valued(Failed(NullPointer), NoRef, c.mem)
                        else Applied(ar, args, c, r)
  {
    hide Valid, Eval, Applied;
    var e := Call(callee, paren, args);
    if Evaluates(ar, e, m, r) {
      var f: nat :| Eval(ar, f, e, m) == r;
      CallUnfolds(ar, f, e, m);
      var c := Eval(ar, f, callee, m);
      assert Evaluates(ar, callee, m, c);
      if Tested(c) { CallApplies(ar, f, args, c, r); }
    }
    if c :| Evaluates(ar, callee, m, c) &&
            if !c.end.Done? then r == c
            else if c.value.NoRef? then r == Valued(Failed(NullPointer), NoRef, c.mem)
            else Applied(ar, args, c, r)
    {
      var f := EvaluatesFrom(ar, callee, m, c);
      if Tested(c) {
        var g := AppliesCall(ar, args, c, r);
        f := Max(f, g);
      }
      CallUnfolds(ar, f, e, m);
    }
  }

  /** What a call does with fuel once the callee is known. */
  function Rest(ar: Arith, fuel: nat, args: seq<Expr>, c: Valued): Valued
    requires Valid(c.mem)
  {
    var a := EvalArgs(ar, fuel, args, c.mem);
    var ready := Ready(c.value, a);
    if !ready.Done? then Valued(ready, NoRef, a.mem)
    else if fuel == 0 then Valued(OutOfFuel, NoRef, a.mem)
    else Apply(ar, fuel - 1, c.value, a.args, a.mem)
  }

  lemma CallUnfolds(ar: Arith, fuel: nat, e: Expr, m: Mem)
    requires Valid(m) && e.Call?
    ensures var c := Eval(ar, fuel, e.callee, m);
            && Valid(c.mem)
            && Eval(ar, fuel, e, m) ==
               if !c.end.Done? then c
               else if c.value.NoRef? then Valued(Failed(NullPointer), NoRef, c.mem)
               else Rest(ar, fuel, e.args, c)
  {
    hide Valid, SameNames, Clean, Ready, EvalArgs, Apply;
  }

  lemma {:induction false} ArgsHaveStates(ar: Arith, fuel: nat, args: seq<Expr>, m: Mem)
      returns (ms: seq<Mem>, vs: seq<Value>)
    requires Valid(m) && !EvalArgs(ar, fuel, args, m).end.OutOfFuel?
    ensures Arguments(ar, args, m, ms, vs) && Valid(ms[|vs|])
    ensures var a := EvalArgs(ar, fuel, args, m);
            if a.end.Done? then vs == a.args && |vs| == |args| && ms[|vs|] == a.mem
            else |vs| < |args| && BadArgument(ar, args[|vs|], ms[|vs|], Valued(a.end, NoRef, a.mem))
    decreases |args|
  {
    hide Eval, Valid, Arguments;
    ArgsUnfold(ar, fuel, args, m);
    hide EvalArgs;
    ms, vs := [m], [];
    NoArguments(ar, args, m);
    if args != [] {
      var a := Eval(ar, fuel, args[0], m);
      assert Evaluates(ar, args[0], m, a);
      if a.end.Done? && a.value.Basic? {
        assert a == Valued(Done, Basic(a.value.v), a.mem);
        var rest, us := ArgsHaveStates(ar, fuel, args[1..], a.mem);
        ArgumentsSize(ar, args[1..], a.mem, rest, us);
        OneMoreArgument(ar, args, m, a.value.v, rest, us);
        ms, vs := [m] + rest, [a.value.v] + us;
        assert ms[|vs|] == rest[|us|];
        assert |us| < |args[1..]| ==> args[|vs|] == args[1..][|us|];
      }
    }
  }

  lemma NoArguments(ar: Arith, args: seq<Expr>, m: Mem)
    ensures Arguments(ar, args, m, [m], [])
  {
  }

  lemma ArgsUnfold(ar: Arith, fuel: nat, args: seq<Expr>, m: Mem)
    requires Valid(m)
    ensures if args == [] then EvalArgs(ar, fuel, args, m) == Valuing(Done, [], m)
            else
              var a := Eval(ar, fuel, args[0], m);
              && Valid(a.mem)
              && if !a.end.Done? then EvalArgs(ar, fuel, args, m) == Valuing(a.end, [], a.mem)
                 else if !a.value.Basic? then
                   EvalArgs(ar, fuel, args, m) ==
                   Valuing(Failed(if a.value.NoRef? then NullPointer else NotBasic), [], a.mem)
                 else
                   var rest := EvalArgs(ar, fuel, args[1..], a.mem);
                   EvalArgs(ar, fuel, args, m) ==
                   if rest.end.Done? then rest.(args := [a.value.v] + rest.args) else rest
  {
    hide Eval, Valid, SameNames, Clean;
  }

  lemma OneMoreArgument(ar: Arith, args: seq<Expr>, m: Mem, v: Value, rest: seq<Mem>, us: seq<Value>)
    requires args != [] && rest != [] && Evaluates(ar, args[0], m, Valued(Done, Basic(v), rest[0]))
    requires Arguments(ar, args[1..], rest[0], rest, us)
    ensures Arguments(ar, args, m, [m] + rest, [v] + us)
  {
    hide Evaluates;
    var ms, vs := [m] + rest, [v] + us;
    forall i | 0 <= i < |vs| ensures Evaluates(ar, args[i], ms[i], Valued(Done, Basic(vs[i]), ms[i + 1])) {
      if i > 0 {
        assert ms[i] == rest[i - 1] && ms[i + 1] == rest[i] && vs[i] == us[i - 1] && args[i] == args[1..][i - 1];
      }
    }
  }

  lemma CallApplies(ar: Arith, fuel: nat, args: seq<Expr>, c: Valued, r: Valued)
    requires Valid(c.mem) && r == Rest(ar, fuel, args, c) && !r.end.OutOfFuel?
    ensures Applied(ar, args, c, r)
  {
    hide Eval, EvalArgs, Valid, Arguments, BadArgument, Apply;
    var ms, vs := ArgsHaveStates(ar, fuel, args, c.mem);
    var a := EvalArgs(ar, fuel, args, c.mem);
    if a.end.Done? && c.value.Func? && |vs| >= |c.value.params| {
      ApplyCalls(ar, fuel - 1, c.value, vs, a.mem);
    }
  }

  lemma ApplyCalls(ar: Arith, fuel: nat, f: Ref, vs: seq<Value>, m: Mem)
    requires Valid(m) && f.Func? && |f.params| <= |vs| && !Apply(ar, fuel, f, vs, m).end.OutOfFuel?
    ensures Called(ar, f, vs, m, Apply(ar, fuel, f, vs, m))
  {
    hide ExecAll, Valid, CallLeft, Apply;
    ApplyUnfolds(ar, fuel, f, vs, m);
    var locals := Locals(f.params, vs);
    var inner := Entered(Entered(m, locals), locals);
    assert Runs(ar, f.body, inner, ExecAll(ar, fuel, f.body, inner));
  }

  lemma {:induction false} StatesMakeArgs(ar: Arith, args: seq<Expr>, m: Mem, ms: seq<Mem>, vs: seq<Value>, bad: Valued)
      returns (enough: nat)
    requires Valid(m) && Arguments(ar, args, m, ms, vs)
    requires |vs| < |args| ==> BadArgument(ar, args[|vs|], ms[|vs|], bad)
    ensures Valid(ms[|vs|]) && (|vs| < |args| ==> !bad.end.OutOfFuel? && !bad.end.Done? && bad.value == NoRef)
    ensures forall fuel: nat | fuel >= enough ::
              EvalArgs(ar, fuel, args, m) ==
              if |vs| == |args| then Valuing(Done, vs, ms[|vs|]) else Valuing(bad.end, [], bad.mem)
    decreases |args|
  {
    hide Eval, EvalArgs, Valid;
    enough := 0;
    if args != [] {
      if vs == [] {
        var a :| Evaluates(ar, args[0], m, a) &&
                 if !a.end.Done? then bad == Valued(a.end, NoRef, a.mem)
                 else !a.value.Basic? &&
                      bad == Valued(Failed(if a.value.NoRef? then NullPointer else NotBasic), NoRef, a.mem);
        enough := EvaluatesFrom(ar, args[0], m, a);
      } else {
        var f := EvaluatesFrom(ar, args[0], m, Valued(Done, Basic(vs[0]), ms[1]));
        ArgsUnfold(ar, f, args, m);
        RestOfArguments(ar, args, m, ms, vs);
        var g := StatesMakeArgs(ar, args[1..], ms[1], ms[1..], vs[1..], bad);
        enough := Max(f, g);
      }
    }
    forall fuel: nat | fuel >= enough
      ensures EvalArgs(ar, fuel, args, m) ==
              if |vs| == |args| then Valuing(Done, vs, ms[|vs|]) else Valuing(bad.end, [], bad.mem)
    {
      ArgsUnfold(ar, fuel, args, m);
    }
  }

  lemma RestOfArguments(ar: Arith, args: seq<Expr>, m: Mem, ms: seq<Mem>, vs: seq<Value>)
    requires Arguments(ar, args, m, ms, vs) && vs != []
    ensures Arguments(ar, args[1..], ms[1], ms[1..], vs[1..]) && ms[1..][|vs[1..]|] == ms[|vs|]
    ensures |vs| < |args| ==> args[1..][|vs[1..]|] == args[|vs|]
  {
    hide Evaluates;
    forall i | 0 <= i < |vs[1..]|
      ensures Evaluates(ar, args[1..][i], ms[1..][i], Valued(Done, Basic(vs[1..][i]), ms[1..][i + 1]))
    {
      assert args[1..][i] == args[i + 1] && ms[1..][i] == ms[i + 1] && ms[1..][i + 1] == ms[i + 2];
    }
  }

  lemma AppliesCall(ar: Arith, args: seq<Expr>, c: Valued, r: Valued) returns (enough: nat)
    requires Valid(c.mem) && Applied(ar, args, c, r)
    ensures !r.end.OutOfFuel? && forall fuel: nat | fuel >= enough :: Rest(ar, fuel, args, c) == r
  {
    hide Eval, EvalArgs, Evaluates, Valid, BadArgument, Apply, Called;
    var ms, vs :|
      && Arguments(ar, args, c.mem, ms, vs)
      && if |vs| < |args| then BadArgument(ar, args[|vs|], ms[|vs|], r) else Called(ar, c.value, vs, ms[|vs|], r);
    enough := StatesMakeArgs(ar, args, c.mem, ms, vs, r);
    if |vs| == |args| {
      var g := CalledApplies(ar, c.value, vs, ms[|vs|], r);
      enough := Max(enough, g + 1);
    }
  }

  lemma ArgumentsSize(ar: Arith, args: seq<Expr>, m: Mem, ms: seq<Mem>, vs: seq<Value>)
    requires Arguments(ar, args, m, ms, vs)
    ensures |ms| == |vs| + 1 && |vs| <= |args| && ms[0] == m
  {
  }

  lemma CalledApplies(ar: Arith, f: Ref, vs: seq<Value>, m: Mem, r: Valued) returns (enough: nat)
    requires Valid(m) && Called(ar, f, vs, m, r)
    ensures !r.end.OutOfFuel?
    ensures if !f.Func? then r == Valued(Failed(NotCallable), NoRef, m)
            else if |vs| < |f.params| then r == Valued(Failed(MissingArgument), NoRef, m)
            else forall fuel: nat | fuel >= enough :: Apply(ar, fuel, f, vs, m) == r
  {
    hide ExecAll, Valid, CallLeft, Apply;
    enough := 0;
    if f.Func? && |vs| >= |f.params| {
      var locals := Locals(f.params, vs);
      var inner := Entered(Entered(m, locals), locals);
      var x :| Runs(ar, f.body, inner, x) && CallLeft(x, r);
      CallLeftOneWay(x, r, r);
      enough := RunsFrom(ar, f.body, inner, x);
      forall fuel: nat | fuel >= enough ensures Apply(ar, fuel, f, vs, m) == r {
        ApplyUnfolds(ar, fuel, f, vs, m);
        CallLeftOneWay(x, r, Apply(ar, fuel, f, vs, m));
      }
    }
  }

  // ----- Programs -----

  function Sets(x: Token, e: Expr): Stmt {
    ExprStmt(Assign(x, e))
  }

  lemma SetsEnds(ar: Arith, x: Token, e: Expr, v: Value, m: Mem, n: Mem, k: nat)
    requires Evaluates(ar, e, m, Valued(Done, Basic(v), n)) && Innermost(n.scopes, x.lexeme, k)
    ensures Ends(ar, Sets(x, e), m, Executed(Done, Rebound(n, k, x.lexeme, Basic(v))))
  {
    hide Evaluates, Ends;
    var a, r := Valued(Done, Basic(v), n), Valued(Done, Basic(v), Rebound(n, k, x.lexeme, Basic(v)));
    assert !Unbound(n.scopes, x.lexeme) && Assigned(x.lexeme, a, r);
    hide Assigned, Rebound;
    AssignRule(ar, x, e, m, r);
    SimpleRule(ar, Assign(x, e), x, m, Executed(Done, r.mem));
  }

  /** An if whose branches set the same variable leaves it bound to what the branch of its condition sets. */
  lemma IfSets(ar: Arith, cond: Expr, x: Token, v: Value, w: Value, m: Mem, c: Valued, k: nat)
    requires Evaluates(ar, cond, m, c) && Tested(c) && Innermost(c.mem.scopes, x.lexeme, k) && Valid(c.mem)
    ensures var value := if IsTrue(ar, c.value) then v else w;
            Ends(ar, IfStmt(cond, Sets(x, Literal(v)), Sets(x, Literal(w))), m,
                 Executed(Done, Rebound(c.mem, k, x.lexeme, Basic(value))))
  {
    hide Evaluates, Ends, Valid, IsTrue;
    var value := if IsTrue(ar, c.value) then v else w;
    LeafRule(ar, value, NoExpr, c.mem, Valued(Done, Basic(value), c.mem));
    SetsEnds(ar, x, Literal(value), value, c.mem, c.mem, k);
    var thn, els, n := Sets(x, Literal(v)), Sets(x, Literal(w)), Rebound(c.mem, k, x.lexeme, Basic(value));
    hide Sets, Rebound;
    IfRule(ar, cond, thn, els, m, Executed(Done, n));
  }

  /** `var x = null; for (var i = true; i; i = false) x = i;` */
  function OneRound(): seq<Stmt> {
    [ VarDecl(Named("x"), Literal(Null)),
      ForStmt(VarDecl(Named("i"), Literal(Boolean(true))), Variable(Named("i")),
              Assign(Named("i"), Literal(Boolean(false))), Sets(Named("x"), Variable(Named("i")))) ]
  }

  function Globals(x: Value, i: Value): Mem {
    Mem([Scope(map["x" := Basic(x), "i" := Basic(i)], -1)], 0, [], 0, 0)
  }

  lemma GlobalSteps(x: Value, y: Value, i: Value, j: Value)
    ensures var m := Globals(x, i);
            Valid(m) && |m.scopes| == 1 && "i" in m.scopes[0].values && m.scopes[0].values["i"] == Basic(i)
    ensures Bound(Globals(x, i), 0, "x", Basic(y)) == Globals(y, i)
    ensures Bound(Globals(x, i), 0, "i", Basic(j)) == Globals(x, j)
    ensures Holder(Globals(x, i).scopes, "x") == Holder(Globals(x, i).scopes, "i") == 0
  {
    var g := Globals(x, i).scopes[0].values;
    assert g["x" := Basic(y)] == Globals(y, i).scopes[0].values && g["i" := Basic(j)] == Globals(x, j).scopes[0].values;
  }

  /** The loop variable is read, set and tested as global variables are. */
  lemma RoundSteps(ar: Arith, fuel: nat, x: Value, i: bool)
    ensures var m, v := Globals(x, Boolean(i)), Variable(Named("i"));
            && Valid(m)
            && Eval(ar, fuel, v, m) == Valued(Done, Basic(Boolean(i)), m)
            && Exec(ar, fuel, Sets(Named("x"), v), m) == Executed(Done, Globals(Boolean(i), Boolean(i)))
            && Eval(ar, fuel, Assign(Named("i"), Literal(Boolean(false))), m) ==
               Valued(Done, Basic(Boolean(false)), Globals(x, Boolean(false)))
  {
    GlobalSteps(x, Boolean(i), Boolean(i), Boolean(false));
    hide Globals, Valid;
    var m, v := Globals(x, Boolean(i)), Variable(Named("i"));
    assert Eval(ar, fuel, v, m) == Valued(Done, Basic(Boolean(i)), m);
    assert Eval(ar, fuel, Assign(Named("x"), v), m) == Valued(Done, Basic(Boolean(i)), Globals(Boolean(i), Boolean(i)));
  }

  lemma StartOfRound(ar: Arith, fuel: nat)
    ensures var m := Bound(START, 0, "x", Basic(Null));
            && Exec(ar, fuel, OneRound()[0], START) == Executed(Done, m)
            && Exec(ar, fuel, OneRound()[1].start, m) == Executed(Done, Globals(Null, Boolean(true)))
  {
    var m := Bound(START, 0, "x", Basic(Null));
    var n := Bound(m, 0, "i", Basic(Boolean(true)));
    assert n.scopes[0].values == Globals(Null, Boolean(true)).scopes[0].values;
    assert n.scopes == Globals(Null, Boolean(true)).scopes;
  }

  /** The body sees the loop variable before the step changes it. */
  lemma BodyBeforeStep(ar: Arith)
    ensures Runs(ar, OneRound(), START, Executed(Done, Globals(Boolean(true), Boolean(false))))
  {
    var p := OneRound();
    var s, m, n := p[1], Bound(START, 0, "x", Basic(Null)), Globals(Boolean(true), Boolean(false));
    assert p[1..] == [s] && p[1..][1..] == [];
    StartOfRound(ar, 1);
    RoundSteps(ar, 1, Null, true);
    RoundSteps(ar, 1, Boolean(true), true);
    RoundSteps(ar, 0, Boolean(true), false);
    hide Eval, Exec, ExecAll, Loop, Globals, Bound, Valid, Sets;
    LoopUnfolds(ar, 1, s, Globals(Null, Boolean(true)));
    LoopUnfolds(ar, 0, s, n);
    ForUnfolds(ar, 1, s, m);
    SequenceUnfolds(ar, 1, p, START);
    SequenceUnfolds(ar, 1, p[1..], m);
    SequenceUnfolds(ar, 1, p[1..][1..], n);
  }
}
