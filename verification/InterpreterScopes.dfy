/**
 What programs see of the scopes: lookups and assignments in the chain as operations on one flat
 map, scoping by caller, the bindings a block leaves alone, and what a return leaves behind.
 */
module InterpreterScopes {
  import opened Values
  import opened Syntax
  import opened Semantics

  /** The bindings in sight: those of inner scopes hide those of outer ones. */
  function Visible(scopes: seq<Scope>): Bindings {
    if scopes == [] then map[] else Visible(scopes[..|scopes| - 1]) + scopes[|scopes| - 1].values
  }

  // ----- The chain of scopes is one flat map -----

  lemma {:induction false} LookupIsFlat(scopes: seq<Scope>, name: string)
    ensures var i := Holder(scopes, name);
            && (i >= 0 <==> name in Visible(scopes))
            && (i >= 0 ==> scopes[i].values[name] == Visible(scopes)[name])
  {
    if scopes != [] { LookupIsFlat(scopes[..|scopes| - 1], name); }
  }

  /** Changing the innermost binding of a name changes the flat map at that name only. */
  lemma {:induction false} UpdateIsFlat(scopes: seq<Scope>, name: string, value: Ref)
    requires Holder(scopes, name) >= 0
    ensures var i := Holder(scopes, name);
            Visible(scopes[i := scopes[i].(values := scopes[i].values[name := value])]) ==
            Visible(scopes)[name := value]
  {
    var i, k := Holder(scopes, name), |scopes| - 1;
    var updated := scopes[i := scopes[i].(values := scopes[i].values[name := value])];
    OverlayUpdate(Visible(scopes[..k]), scopes[k].values, name, value);
    if i == k {
      assert updated[..k] == scopes[..k];
    } else {
      UpdateIsFlat(scopes[..k], name, value);
      assert updated[..k] == scopes[..k][i := updated[i]];
    }
  }

  lemma OverlayUpdate(outer: Bindings, inner: Bindings, name: string, value: Ref)
    ensures outer + inner[name := value] == (outer + inner)[name := value]
    ensures name !in inner ==> outer[name := value] + inner == (outer + inner)[name := value]
  {
  }

  /** Reading a variable: its value in the flat map, and an error exactly if it is not there. */
  lemma VariablesAreFlat(name: string, m: Mem)
    requires Valid(m)
    ensures var r := EvalVariable(name, m);
            && r.mem == m
            && if name in Visible(m.scopes) then r.end.Done? && r.value == Visible(m.scopes)[name]
               else r.end == Failed(Undeclared(name))
  {
    LookupIsFlat(m.scopes, name);
  }

  /**
   Assigning a value: an error exactly if the name is not in sight; otherwise the flat map and the
   one scope that holds the name innermost change at that name, and nothing else does.
   */
  lemma AssignmentIsFlat(name: string, v: Value, m: Mem)
    requires Valid(m)
    ensures var r := AssignRef(name, Basic(v), m);
            if name !in Visible(m.scopes) then r.end == Failed(Undeclared(name)) && r.mem == m
            else
              && r.end.Done? && r.value == Basic(v)
              && Visible(r.mem.scopes) == Visible(m.scopes)[name := Basic(v)]
              && |r.mem.scopes| == |m.scopes| && r.mem.stack == m.stack
              && (forall j | 0 <= j < |m.scopes| :: r.mem.scopes[j].values.Keys == m.scopes[j].values.Keys)
              && forall j, x | 0 <= j < |m.scopes| && x in m.scopes[j].values ::
                   && x in r.mem.scopes[j].values
                   && (r.mem.scopes[j].values[x] == m.scopes[j].values[x] || (j == Holder(m.scopes, name) && x == name))
  {
    LookupIsFlat(m.scopes, name);
    if name in Visible(m.scopes) { UpdateIsFlat(m.scopes, name, Basic(v)); }
  }

  /** Arguments are bound to parameters in order; of two parameters of one name the later counts. */
  lemma {:induction false} ParametersAreBound(params: seq<Token>, args: seq<Value>, x: string)
    requires |params| <= |args|
    ensures x in Locals(params, args) <==> exists k | 0 <= k < |params| :: params[k].lexeme == x
    ensures forall k | 0 <= k < |params| && params[k].lexeme == x ::
              (forall j | k < j < |params| :: params[j].lexeme != x) ==> Locals(params, args)[x] == Basic(args[k])
  {
    if params != [] {
      var n := |params| - 1;
      ParametersAreBound(params[..n], args, x);
      if x in Locals(params[..n], args) {
        var k :| 0 <= k < n && params[..n][k].lexeme == x;
        assert params[k].lexeme == x;
      }
      forall k | 0 <= k < n && params[k].lexeme == x ensures x in Locals(params[..n], args) {
        assert params[..n][k].lexeme == x;
      }
    }
  }

  /**
   A call runs the body in a state in which it sees the bindings of its caller, hidden only by its own
   parameters; the call gives what the body returns, undefined if it returns nothing, and fails if the
   body does.
   */
  lemma BodySeesCaller(ar: Arith, fuel: nat, f: Ref, args: seq<Value>, m: Mem) returns (inner: Mem)
    requires Valid(m) && f.Func? && |f.params| <= |args|
    ensures Valid(inner) && inner.stack == m.stack
    ensures Visible(inner.scopes) == Visible(m.scopes) + Locals(f.params, args)
    ensures var b := ExecAll(ar, fuel, f.body, inner);
            var r := Apply(ar, fuel, f, args, m);
            match b.end
            case Done => r.end.Done? && r.value == Basic(Undefined)
            case Returned(v) => if v.Basic? then r.end.Done? && r.value == v else r.end == Failed(Misuse(v))
            case _ => r.end == b.end
  {
    var locals := Locals(f.params, args);
    var outer := Enter(m, locals);
    inner := Enter(outer, locals);
    assert outer.scopes[..|m.scopes|] == m.scopes && inner.scopes[..|outer.scopes|] == outer.scopes;
  }

  // ----- Names in sight -----

  lemma {:induction false} NamesInSight(scopes: seq<Scope>, name: string)
    ensures name in Visible(scopes) <==> exists i | 0 <= i < |scopes| :: name in scopes[i].values
  {
    LookupIsFlat(scopes, name);
    assert Holder(scopes, name) >= 0 ==> name in scopes[Holder(scopes, name)].values;
  }

  /** Whatever happens, a name in sight stays in sight. */
  lemma NamesStayInSight(m: Mem, n: Mem)
    requires Kept(m, n)
    ensures Visible(m.scopes).Keys <= Visible(n.scopes).Keys
  {
    forall x | x in Visible(m.scopes) ensures x in Visible(n.scopes) {
      LookupIsFlat(m.scopes, x);
      var i := Holder(m.scopes, x);
      assert x in Names(m, i) && x in Names(n, i);
      NamesInSight(n.scopes, x);
    }
  }

  /** A block that ends normally, with no call in it ended by a return, brings no name into sight. */
  lemma BlocksDeclareNothingOutside(ar: Arith, fuel: nat, stmts: seq<Stmt>, m: Mem)
    requires Valid(m)
    ensures var r := ExecBlock(ar, fuel, stmts, map[], m);
            r.end.Done? && r.mem.returned == m.returned ==>
              Visible(r.mem.scopes).Keys == Visible(m.scopes).Keys && |r.mem.scopes| == |m.scopes|
  {
    var r := ExecBlock(ar, fuel, stmts, map[], m);
    if r.end.Done? && r.mem.returned == m.returned { SameNamesSameSight(m, r.mem); }
  }

  lemma SameNamesSameSight(m: Mem, n: Mem)
    requires Kept(m, n) && |n.scopes| == |m.scopes|
    requires forall i | 0 <= i < |m.scopes| :: Names(n, i) == Names(m, i)
    ensures Visible(n.scopes).Keys == Visible(m.scopes).Keys
  {
    NamesStayInSight(m, n);
    forall x | x in Visible(n.scopes) ensures x in Visible(m.scopes) {
      LookupIsFlat(n.scopes, x);
      var i := Holder(n.scopes, x);
      assert x in Names(n, i) && x in Names(m, i);
      NamesInSight(m.scopes, x);
    }
  }

  // ----- Programs without returns -----

  predicate ReturnFree(s: Stmt) {
    match s
    case FuncDecl(_, _, body) => AllReturnFree(body)
    case Block(stmts) => AllReturnFree(stmts)
    case IfStmt(_, thn, els) => ReturnFree(thn) && ReturnFree(els)
    case WhileStmt(_, loop) => ReturnFree(loop)
    case ForStmt(start, _, _, loop) => ReturnFree(start) && ReturnFree(loop)
    case ReturnStmt(_, _) => false
    case _ => true
  }

  predicate AllReturnFree(stmts: seq<Stmt>) {
    stmts == [] || (ReturnFree(stmts[0]) && AllReturnFree(stmts[1..]))
  }

  predicate QuietRef(r: Ref) {
    r.Func? ==> AllReturnFree(r.body)
  }

  predicate QuietScope(values: Bindings) {
    forall x | x in values :: QuietRef(values[x])
  }

  /** No bound function has a return in its body. */
  predicate Quiet(m: Mem) {
    forall i | 0 <= i < |m.scopes| :: QuietScope(m.scopes[i].values)
  }

  predicate QuietStep(m: Mem, n: Mem) {
    Quiet(n) && n.returned == m.returned
  }

  lemma {:induction false} QuietValue(ar: Arith, fuel: nat, e: Expr, m: Mem)
    requires Valid(m) && Quiet(m)
    ensures var r := Eval(ar, fuel, e, m); QuietStep(m, r.mem) && QuietRef(r.value)
    decreases fuel, e, 1
  {
    hide SameNames, Valid, Clean, BinaryOp, UnaryOp, Quiet;
    match e
    case Variable(name) => QuietVariable(name.lexeme, m);
    case Grouping(inner) => QuietValue(ar, fuel, inner, m);
    case Unary(_, right) => QuietValue(ar, fuel, right, m);
    case Binary(left, _, right) =>
      QuietValue(ar, fuel, left, m);
      QuietValue(ar, fuel, right, Eval(ar, fuel, left, m).mem);
    case Logical(left, _, right) =>
      QuietValue(ar, fuel, left, m);
      QuietValue(ar, fuel, right, Eval(ar, fuel, left, m).mem);
    case Assign(name, source) =>
      QuietValue(ar, fuel, source, m);
      var r := Eval(ar, fuel, source, m);
      QuietAssign(name.lexeme, r.value, r.mem);
    case Call(callee, _, args) =>
      QuietValue(ar, fuel, callee, m);
      var c := Eval(ar, fuel, callee, m);
      QuietArgs(ar, fuel, args, c.mem);
      var a := EvalArgs(ar, fuel, args, c.mem);
      if c.end.Done? && !c.value.NoRef? && Ready(c.value, a).Done? && fuel > 0 {
        QuietCall(ar, fuel - 1, c.value, a.args, a.mem);
      }
    case _ =>
  }

  lemma QuietVariable(name: string, m: Mem)
    requires Valid(m) && Quiet(m)
    ensures var r := EvalVariable(name, m); QuietStep(m, r.mem) && QuietRef(r.value)
  {
  }

  lemma QuietAssign(name: string, r: Ref, m: Mem)
    requires Valid(m) && Quiet(m) && QuietRef(r)
    ensures QuietStep(m, AssignRef(name, r, m).mem) && QuietRef(AssignRef(name, r, m).value)
  {
  }

  lemma {:induction false} QuietArgs(ar: Arith, fuel: nat, args: seq<Expr>, m: Mem)
    requires Valid(m) && Quiet(m)
    ensures QuietStep(m, EvalArgs(ar, fuel, args, m).mem)
    decreases fuel, args, 0
  {
    hide SameNames, Valid, Clean, Quiet;
    if args != [] {
      QuietValue(ar, fuel, args[0], m);
      QuietArgs(ar, fuel, args[1..], Eval(ar, fuel, args[0], m).mem);
    }
  }

  lemma QuietEnter(m: Mem, values: Bindings)
    requires Valid(m) && Quiet(m) && NoNulls(values) && QuietScope(values)
    ensures Quiet(Enter(m, values))
  {
  }

  lemma {:induction false} QuietLocals(params: seq<Token>, args: seq<Value>)
    requires |params| <= |args|
    ensures QuietScope(Locals(params, args))
  {
    if params != [] { QuietLocals(params[..|params| - 1], args); }
  }

  lemma {:induction false} QuietCall(ar: Arith, fuel: nat, f: Ref, args: seq<Value>, m: Mem)
    requires Valid(m) && Quiet(m) && f.Func? && |f.params| <= |args| && AllReturnFree(f.body)
    ensures var r := Apply(ar, fuel, f, args, m); QuietStep(m, r.mem) && QuietRef(r.value)
    decreases fuel, f.body, 3
  {
    var locals := Locals(f.params, args);
    QuietLocals(f.params, args);
    QuietEnter(m, locals);
    QuietBlock(ar, fuel, f.body, locals, Enter(m, locals));
  }

  /**
   A statement without returns, run where no bound function has one, ends no call by a return; so,
   if it ends normally, it restores the stack and the number of scopes.
   */
  lemma {:induction false} ReturnFreeRestores(ar: Arith, fuel: nat, s: Stmt, m: Mem)
    requires Valid(m) && Quiet(m) && ReturnFree(s)
    ensures var r := Exec(ar, fuel, s, m);
            && QuietStep(m, r.mem) && !r.end.Returned? && r.mem.stack == m.stack
            && (r.end.Done? ==> |r.mem.scopes| == |m.scopes|)
    decreases fuel, s, 2
  {
    hide SameNames, Quiet, Declare, Loop, Round;
    match s
    case ExprStmt(expr) => QuietValue(ar, fuel, expr, m);
    case VarDecl(name, init) =>
      QuietValue(ar, fuel, init, m);
      QuietDeclare(name.lexeme, Eval(ar, fuel, init, m));
    case FuncDecl(name, params, body) => QuietBound(m, name.lexeme, Func(name, params, body));
    case Block(stmts) => QuietBlock(ar, fuel, stmts, map[], m);
    case IfStmt(cond, thn, els) =>
      QuietValue(ar, fuel, cond, m);
      var c := Test(ar, Eval(ar, fuel, cond, m));
      if c.0.Done? { ReturnFreeRestores(ar, fuel, if c.1 then thn else els, c.2); }
    case WhileStmt(_, _) => QuietLoop(ar, fuel, s, m);
    case ForStmt(start, _, _, _) =>
      ReturnFreeRestores(ar, fuel, start, m);
      QuietLoop(ar, fuel, s, Exec(ar, fuel, start, m).mem);
    case _ =>
  }

  lemma QuietBound(m: Mem, name: string, r: Ref)
    requires Valid(m) && Quiet(m) && QuietRef(r) && r != NoRef
    ensures QuietStep(m, Bound(m, m.curr, name, r))
  {
  }

  lemma QuietDeclare(name: string, r: Valued)
    requires Valid(r.mem) && Quiet(r.mem) && Settled(r)
    ensures QuietStep(r.mem, Declare(name, r).mem) && !Declare(name, r).end.Returned?
  {
  }

  lemma {:induction false} QuietLoop(ar: Arith, fuel: nat, s: Stmt, m: Mem)
    requires Valid(m) && Quiet(m) && (s.WhileStmt? || s.ForStmt?) && ReturnFree(s)
    ensures var r := Loop(ar, fuel, s, m); QuietStep(m, r.mem) && !r.end.Returned?
    decreases fuel, s, 1
  {
    hide SameNames, Valid, Clean, Quiet;
    QuietValue(ar, fuel, s.cond, m);
    var c := Test(ar, Eval(ar, fuel, s.cond, m));
    if c.0.Done? && c.1 {
      ReturnFreeRestores(ar, fuel, s.loop, c.2);
      var b := Exec(ar, fuel, s.loop, c.2);
      if b.end.Done? && s.ForStmt? { QuietValue(ar, fuel, s.step, b.mem); }
      var t := Round(ar, fuel, s, c.2);
      if t.end.Done? && fuel > 0 { QuietLoop(ar, fuel - 1, s, t.mem); }
    }
  }

  lemma {:induction false} QuietBlock(ar: Arith, fuel: nat, stmts: seq<Stmt>, values: Bindings, m: Mem)
    requires Valid(m) && Quiet(m) && NoNulls(values) && QuietScope(values) && AllReturnFree(stmts)
    ensures var r := ExecBlock(ar, fuel, stmts, values, m); QuietStep(m, r.mem) && !r.end.Returned?
    decreases fuel, stmts, 1
  {
    hide SameNames, Clean;
    QuietEnter(m, values);
    ReturnFreeProgramRestores(ar, fuel, stmts, Enter(m, values));
  }

  lemma {:induction false} ReturnFreeProgramRestores(ar: Arith, fuel: nat, stmts: seq<Stmt>, m: Mem)
    requires Valid(m) && Quiet(m) && AllReturnFree(stmts)
    ensures var r := ExecAll(ar, fuel, stmts, m);
            && QuietStep(m, r.mem) && !r.end.Returned? && r.mem.stack == m.stack
            && (r.end.Done? ==> |r.mem.scopes| == |m.scopes|)
    decreases fuel, stmts, 0
  {
    hide SameNames, Valid, Quiet;
    if stmts != [] {
      ReturnFreeRestores(ar, fuel, stmts[0], m);
      var r := Exec(ar, fuel, stmts[0], m);
      if r.end.Done? { ReturnFreeProgramRestores(ar, fuel, stmts[1..], r.mem); }
    }
  }

  // ----- What a return leaves behind -----

  /**
   A call whose body ends by a return leaves the value on the stack and at least one scope behind, so
   that the caller sees the parameters of the callee; a call that ends otherwise, with no return in
   it, leaves neither, and the caller sees the names it saw before.
   */
  lemma ReturnLeaksParameters(ar: Arith, fuel: nat, f: Ref, args: seq<Value>, m: Mem)
    requires Valid(m) && f.Func? && |f.params| <= |args|
    ensures var locals := Locals(f.params, args);
            var b := ExecBlock(ar, fuel, f.body, locals, Enter(m, locals));
            var r := Apply(ar, fuel, f, args, m);
            && (b.end.Returned? && b.end.result.Basic? ==>
                  && r.value == b.end.result && r.mem.stack == b.mem.stack + [r.value]
                  && |r.mem.scopes| > |m.scopes| && locals.Keys <= Visible(r.mem.scopes).Keys)
            && (b.end.Done? && b.mem.returned == m.returned ==>
                  && r.value == Basic(Undefined) && r.mem.stack == m.stack
                  && |r.mem.scopes| == |m.scopes| && Visible(r.mem.scopes).Keys == Visible(m.scopes).Keys)
  {
    var locals := Locals(f.params, args);
    var entered := Enter(m, locals);
    var b := ExecBlock(ar, fuel, f.body, locals, entered);
    var r := Apply(ar, fuel, f, args, m);
    if b.end.Returned? && b.end.result.Basic? {
      forall x | x in locals ensures x in Visible(r.mem.scopes) {
        assert x in Names(entered, |m.scopes|) && x in Names(b.mem, |m.scopes|);
        assert x in r.mem.scopes[|m.scopes|].values;
        NamesInSight(r.mem.scopes, x);
      }
    }
    if b.end.Done? && b.mem.returned == m.returned { SameNamesSameSight(m, r.mem); }
  }

  /** What `function f(a) { return a; }` declares. */
  function Identity(): Ref {
    Func(Named("f"), [Named("a")], [ReturnStmt(Plain(Return), Variable(Named("a")))])
  }

  /** `function f(a) { return a; } f(true); var x = false;` */
  function LeakyProgram(): seq<Stmt> {
    [ FuncDecl(Identity().name, Identity().params, Identity().body),
      ExprStmt(Call(Variable(Named("f")), Plain(RParen), [Literal(Boolean(true))])),
      VarDecl(Named("x"), Literal(Boolean(false))) ]
  }

  lemma IdentityReturns(ar: Arith, fuel: nat, v: Value, m: Mem)
    requires Valid(m)
    ensures var r := Apply(ar, fuel, Identity(), [v], m);
            && r.end.Done? && r.value == Basic(v) && r.mem.stack == m.stack + [Basic(v)]
            && r.mem.scopes == m.scopes + [Scope(map["a" := Basic(v)], m.curr)]
  {
    var f, locals := Identity(), map["a" := Basic(v)];
    assert f.params[..0] == [] && Locals(f.params, [v]) == locals;
    var inner := Enter(Enter(m, locals), locals);
    assert Holder(inner.scopes, "a") == |inner.scopes| - 1;
    var e := Eval(ar, fuel, Variable(Named("a")), inner);
    assert e == Valued(Done, Basic(v), inner);
    assert Exec(ar, fuel, f.body[0], inner) == Executed(Returned(Basic(v)), inner);
    assert ExecAll(ar, fuel, f.body, inner) == Executed(Returned(Basic(v)), inner);
    assert inner.scopes[..|inner.scopes| - 1] == Enter(m, locals).scopes;
  }

  /** After a call has returned, a variable declared at top level does not become global. */
  lemma LaterGlobalsGoAstray(ar: Arith, fuel: nat)
    requires fuel > 0
    ensures var r := ExecAll(ar, fuel, LeakyProgram(), START);
            && r.end.Done? && |r.mem.scopes| == 2 && r.mem.stack == [Basic(Boolean(true))]
            && r.mem.scopes[0].values.Keys == {"f"} && r.mem.scopes[1].values.Keys == {"a", "x"}
  {
    hide Apply;
    var p, v := LeakyProgram(), Boolean(true);
    var m := Bound(START, 0, "f", Identity());
    assert Exec(ar, fuel, p[0], START) == Executed(Done, m);
    assert Holder(m.scopes, "f") == 0;
    var e := p[1].expr;
    assert Eval(ar, fuel, e.callee, m) == Valued(Done, Identity(), m);
    assert EvalArgs(ar, fuel, e.args, m) == Valuing(Done, [v], m) by {
      assert e.args[1..] == [] && Eval(ar, fuel, e.args[0], m) == Give(v, m);
    }
    var r := Apply(ar, fuel - 1, Identity(), [v], m);
    IdentityReturns(ar, fuel - 1, v, m);
    assert Eval(ar, fuel, e, m) == r;
    assert Exec(ar, fuel, p[1], m) == Executed(Done, r.mem);
    var n := Bound(r.mem, 1, "x", Basic(Boolean(false)));
    assert Exec(ar, fuel, p[2], r.mem) == Executed(Done, n);
    assert p[1..][1..] == [p[2]] && p[2..][1..] == [];
    assert ExecAll(ar, fuel, [p[2]], r.mem) == Executed(Done, n);
    assert ExecAll(ar, fuel, p[1..], m) == Executed(Done, n);
  }
}
