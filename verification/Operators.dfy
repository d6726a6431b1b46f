/**
 What values and operators mean, case by case: the order of texts, the truth of values, the text they
 are shown as, the operators of the interpreter and the instructions of the machine by their bytes.
 */
module Operators {
  import opened Values
  import opened Syntax
  import opened Compiler
  import opened Machine
  import S = Semantics

  // ----- The order of texts -----

  /** The texts are the same before `k`, and there the first one has the smaller character. */
  ghost predicate DifferAt(s: string, t: string, k: nat) {
    k < |s| && k < |t| && s[..k] == t[..k] && s[k] < t[k]
  }

  /** At the first difference the smaller character decides; a text comes before its continuations. */
  ghost predicate Precedes(s: string, t: string) {
    s <= t || exists k: nat :: DifferAt(s, t, k)
  }

  lemma {:induction false} TextsByFirstDifference(s: string, t: string)
    ensures TextAtMost(s, t) <==> Precedes(s, t)
    decreases |s|
  {
    if s != "" && t != "" {
      TextsByFirstDifference(s[1..], t[1..]);
      assert s == [s[0]] + s[1..] && t == [t[0]] + t[1..];
      FirstCharacters(s[0], s[1..], t[0], t[1..]);
    }
  }

  lemma FirstCharacters(c: char, s: string, d: char, t: string)
    ensures Precedes([c] + s, [d] + t) <==> c < d || (c == d && Precedes(s, t))
  {
    hide DifferAt;
    PrefixAfter(c, s, d, t);
    DifferAtStart(c, s, d, t);
    if k: nat :| DifferAt([c] + s, [d] + t, k) && k > 0 { DifferAfter(c, s, d, t, k - 1); }
    if k: nat :| DifferAt(s, t, k) && c == d { DifferAfter(c, s, d, t, k); }
  }

  lemma PrefixAfter(c: char, s: string, d: char, t: string)
    ensures [c] + s <= [d] + t <==> c == d && s <= t
  {
    if [c] + s <= [d] + t {
      assert ([c] + s)[0] == ([d] + t)[0];
      assert forall k | 0 <= k < |s| :: s[k] == ([c] + s)[k + 1];
      assert forall k | 0 <= k < |t| :: t[k] == ([d] + t)[k + 1];
    }
  }

  lemma DifferAtStart(c: char, s: string, d: char, t: string)
    ensures DifferAt([c] + s, [d] + t, 0) <==> c < d
  {
    assert ([c] + s)[..0] == ([d] + t)[..0] == [];
  }

  lemma DifferAfter(c: char, s: string, d: char, t: string, k: nat)
    ensures DifferAt([c] + s, [d] + t, k + 1) <==> c == d && DifferAt(s, t, k)
  {
    if k < |s| && k < |t| {
      assert ([c] + s)[..k + 1] == [c] + s[..k] && ([d] + t)[..k + 1] == [d] + t[..k];
      if [c] + s[..k] == [d] + t[..k] {
        assert ([c] + s[..k])[0] == ([d] + t[..k])[0] && ([c] + s[..k])[1..] == s[..k] && ([d] + t[..k])[1..] == t[..k];
      }
    }
  }

  /** It is a total order. */
  lemma {:induction false} TextsAreOrdered(s: string, t: string, u: string)
    ensures TextAtMost(s, s) && (TextAtMost(s, t) || TextAtMost(t, s))
    ensures TextAtMost(s, t) && TextAtMost(t, s) ==> s == t
    ensures TextAtMost(s, t) && TextAtMost(t, u) ==> TextAtMost(s, u)
    decreases |s|
  {
    if s != "" {
      TextsAreOrdered(s[1..], if t == "" then t else t[1..], if u == "" then u else u[1..]);
      if t != "" { assert s == [s[0]] + s[1..] && t == [t[0]] + t[1..]; }
    }
  }

  // ----- Values -----

  /** True are true itself and the numbers that do not equal zero: no text, and nothing else. */
  lemma TruthTable(ar: Arith, n: Number, s: string)
    ensures Truthy(ar, Boolean(true)) && !Truthy(ar, Boolean(false))
    ensures Truthy(ar, Numeric(n)) <==> !ar.eq(n, ar.zero)
    ensures !Truthy(ar, Text(s)) && !Truthy(ar, Null) && !Truthy(ar, Undefined)
  {
  }

  lemma ShownAs(ar: Arith, n: Number, s: string)
    ensures Show(ar, Text(s)) == s && Show(ar, Numeric(n)) == ar.show(n)
    ensures Show(ar, Boolean(true)) == "true" && Show(ar, Boolean(false)) == "false"
    ensures Show(ar, Null) == "null" && Show(ar, Undefined) == "undefined"
  {
  }

  /** A value as a number: zero for all that is none. */
  lemma NumberOf(ar: Arith, n: Number, b: bool, s: string)
    ensures AsNumber(ar, Numeric(n)) == n
    ensures AsNumber(ar, Text(s)) == AsNumber(ar, Boolean(b)) == ar.zero
    ensures AsNumber(ar, Null) == AsNumber(ar, Undefined) == ar.zero
  {
  }

  /** Joining with a text shows the other operand; adding is for numbers. */
  lemma AdditionTable(ar: Arith, m: Number, n: Number, s: string, t: string, b: bool)
    ensures S.Sum(ar, Numeric(m), Numeric(n)) == S.Answer(Numeric(ar.add(m, n)))
    ensures S.Sum(ar, Text(s), Text(t)) == S.Answer(Text(s + t))
    ensures S.Sum(ar, Text(s), Numeric(n)) == S.Answer(Text(s + ar.show(n)))
    ensures S.Sum(ar, Numeric(n), Text(s)) == S.Answer(Text(ar.show(n) + s))
    ensures S.Sum(ar, Text(s), Boolean(b)) == S.Answer(Text(s + if b then "true" else "false"))
    ensures S.Sum(ar, Boolean(b), Text(s)) == S.Answer(Text((if b then "true" else "false") + s))
    ensures S.Sum(ar, Text(s), Null) == S.Answer(Text(s + "null"))
    ensures S.Sum(ar, Null, Text(s)) == S.Answer(Text("null" + s))
    ensures S.Sum(ar, Text(s), Undefined) == S.Answer(Text(s + "undefined"))
    ensures S.Sum(ar, Undefined, Text(s)) == S.Answer(Text("undefined" + s))
    ensures S.Sum(ar, Boolean(b), Numeric(n)) == S.Sum(ar, Null, Undefined) == S.Refused(S.BadPlus)
  {
  }

  // ----- The operators of the interpreter -----

  /** A value as the number that arithmetic and comparisons of the interpreter see. */
  function Num(ar: Arith, v: Value): Number {
    match v
    case Numeric(n) => n
    case _ => ar.zero
  }

  lemma ArithmeticTable(ar: Arith, l: Value, r: Value)
    ensures S.BinaryOp(ar, Plus, S.Basic(l), S.Basic(r)) == S.Sum(ar, l, r)
    ensures S.BinaryOp(ar, Minus, S.Basic(l), S.Basic(r)) == S.Answer(Numeric(ar.sub(Num(ar, l), Num(ar, r))))
    ensures S.BinaryOp(ar, Star, S.Basic(l), S.Basic(r)) == S.Answer(Numeric(ar.mul(Num(ar, l), Num(ar, r))))
    ensures S.BinaryOp(ar, Slash, S.Basic(l), S.Basic(r)) == S.Answer(Numeric(ar.div(Num(ar, l), Num(ar, r))))
  {
    hide S.Sum, Num;
    NumIs(ar, l);
    NumIs(ar, r);
  }

  lemma OrderTable(ar: Arith, l: Value, r: Value)
    ensures S.BinaryOp(ar, Less, S.Basic(l), S.Basic(r)) == S.Answer(Boolean(ar.lt(Num(ar, l), Num(ar, r))))
    ensures S.BinaryOp(ar, LessEqual, S.Basic(l), S.Basic(r)) == S.Answer(Boolean(ar.le(Num(ar, l), Num(ar, r))))
    ensures S.BinaryOp(ar, Greater, S.Basic(l), S.Basic(r)) == S.Answer(Boolean(ar.gt(Num(ar, l), Num(ar, r))))
    ensures S.BinaryOp(ar, GreaterEqual, S.Basic(l), S.Basic(r)) == S.Answer(Boolean(ar.ge(Num(ar, l), Num(ar, r))))
  {
    hide S.Sum, Num;
    NumIs(ar, l);
    NumIs(ar, r);
  }

  lemma EqualityTable(ar: Arith, l: Value, r: Value)
    ensures S.BinaryOp(ar, EqualEqual, S.Basic(l), S.Basic(r)) == S.Answer(Boolean(ar.eq(Num(ar, l), Num(ar, r))))
    ensures S.BinaryOp(ar, BangEqual, S.Basic(l), S.Basic(r)) == S.Answer(Boolean(!ar.eq(Num(ar, l), Num(ar, r))))
  {
    hide S.Sum, Num;
    NumIs(ar, l);
    NumIs(ar, r);
  }

  lemma NumIs(ar: Arith, v: Value)
    ensures AsNumber(ar, v) == Num(ar, v)
  {
  }

  /** Null pointers and functions are no operands; the left one is looked at first. */
  lemma BinaryFaults(ar: Arith, k: Kind, l: S.Ref, r: S.Ref)
    requires k in {Plus, Minus, Star, Slash, Less, LessEqual, Greater, GreaterEqual, EqualEqual, BangEqual}
    ensures l.NoRef? ==> S.BinaryOp(ar, k, l, r) == S.Refused(S.NullPointer)
    ensures l.Func? ==> S.BinaryOp(ar, k, l, r) == S.Refused(S.NotBasic)
    ensures l.Basic? && r.NoRef? ==> S.BinaryOp(ar, k, l, r) == S.Refused(S.NullPointer)
    ensures l.Basic? && r.Func? ==> S.BinaryOp(ar, k, l, r) == S.Refused(S.NotBasic)
  {
  }

  lemma UnaryTable(ar: Arith, v: Value, f: S.Ref)
    requires f.Func?
    ensures S.UnaryOp(ar, Minus, S.Basic(v)) == S.Answer(Numeric(ar.neg(Num(ar, v))))
    ensures S.UnaryOp(ar, Bang, S.Basic(v)) == S.Answer(Boolean(!True(ar, v)))
    ensures S.UnaryOp(ar, Minus, f) == S.Refused(S.NotBasic) && S.UnaryOp(ar, Bang, f) == S.Answer(Boolean(false))
    ensures S.UnaryOp(ar, Minus, S.NoRef) == S.UnaryOp(ar, Bang, S.NoRef) == S.Refused(S.NullPointer)
  {
  }

  /** An operator that is no prefix gives null, on every operand. */
  lemma OtherPrefixes(ar: Arith, k: Kind, r: S.Ref)
    requires k != Minus && k != Bang
    ensures S.UnaryOp(ar, k, r) == S.Answer(Null)
  {
  }

  predicate True(ar: Arith, v: Value) {
    v == Boolean(true) || (v.Numeric? && !ar.eq(v.n, ar.zero))
  }

  // ----- The instructions of the machine -----

  /** The bytes that the compiler emits for operators. */
  lemma OperatorBytes()
    ensures BinaryCode(Plus) == [4] && BinaryCode(Minus) == [5] && BinaryCode(Star) == [6] && BinaryCode(Slash) == [7]
    ensures LogicalCode(And) == [9] && LogicalCode(Or) == [10]
    ensures UnaryCode(Minus) == [3] && UnaryCode(Bang) == [8]
  {
  }

  lemma ComparisonBytes()
    ensures BinaryCode(EqualEqual) == [11] && BinaryCode(BangEqual) == [12]
    ensures BinaryCode(Greater) == [13] && BinaryCode(Less) == [14]
    ensures BinaryCode(GreaterEqual) == [15] && BinaryCode(LessEqual) == [16]
  {
  }

  /** And for literals, variables, declarations and returns, with the index of the value after it. */
  lemma OperandBytes(v: Value, x: Token, base: nat)
    requires base < 255
    ensures Code(Literal(v), base) == [2, base] && Code(Variable(x), base) == [21, base]
    ensures StmtCode(VarDecl(x, Literal(v)), base) == [2, base, 22, base + 1]
    ensures StmtCode(VarDecl(x, NoExpr), base) == [2, base, 22, base + 1]
    ensures StmtCode(ReturnStmt(x, Literal(v)), base) == [1]
  {
  }

  /** What they put into the pool. */
  lemma PoolEntries(v: Value, x: Token)
    ensures Pool(Literal(v)) == [v] && Pool(Variable(x)) == [Text(x.lexeme)]
    ensures StmtPool(VarDecl(x, Literal(v))) == [v, Text(x.lexeme)]
    ensures StmtPool(VarDecl(x, NoExpr)) == [Undefined, Text(x.lexeme)]
    ensures StmtPool(ReturnStmt(x, Literal(v))) == []
  {
  }

  predicate SameKind(a: Value, b: Value) {
    (a.Numeric? && b.Numeric?) || (a.Text? && b.Text?) || (a.Boolean? && b.Boolean?)
  }

  predicate Same(ar: Arith, a: Value, b: Value) {
    SameKind(a, b) && if a.Numeric? then ar.eq(a.n, b.n) else a == b
  }

  /** Values of different kinds, null and undefined never compare; false is at most true. */
  ghost predicate AtMost(ar: Arith, a: Value, b: Value) {
    && SameKind(a, b)
    && if a.Numeric? then ar.le(a.n, b.n) else if a.Text? then Precedes(a.s, b.s) else a.b ==> b.b
  }

  ghost predicate AtLeast(ar: Arith, a: Value, b: Value) {
    && SameKind(a, b)
    && if a.Numeric? then ar.ge(a.n, b.n) else if a.Text? then Precedes(b.s, a.s) else b.b ==> a.b
  }

  /** What an instruction with two operands, the first below the second on the stack, leaves there. */
  ghost function Effect(ar: Arith, op: nat, a: Value, b: Value): Value
    requires 4 <= op <= 7 || 9 <= op <= 16
  {
    var x, y := Num(ar, a), Num(ar, b);
    if op == 4 then Numeric(ar.add(x, y))
    else if op == 5 then Numeric(ar.sub(x, y))
    else if op == 6 then Numeric(ar.mul(x, y))
    else if op == 7 then Numeric(ar.div(x, y))
    else if op == 9 then Boolean(True(ar, a) && True(ar, b))
    else if op == 10 then Boolean(True(ar, a) || True(ar, b))
    else if op == 11 then Boolean(Same(ar, a, b))
    else if op == 12 then Boolean(!Same(ar, a, b))
    else if op == 13 || op == 15 then Boolean(AtLeast(ar, a, b))
    else Boolean(AtMost(ar, a, b))
  }

  lemma ComparisonsOfValues(ar: Arith, a: Value, b: Value)
    ensures IsEqual(ar, a, b) <==> Same(ar, a, b)
    ensures LesserOrEqual(ar, a, b) <==> AtMost(ar, a, b)
    ensures GreaterOrEqual(ar, a, b) <==> AtLeast(ar, a, b)
  {
    hide TextAtMost, Precedes;
    if a.Text? && b.Text? {
      TextsByFirstDifference(a.s, b.s);
      TextsByFirstDifference(b.s, a.s);
    }
  }

  lemma EffectOf(ar: Arith, op: Byte, a: Value, b: Value)
    requires 4 <= op <= 7 || 9 <= op <= 16
    ensures IsBinary(op) && BinaryResult(ar, op, a, b) == Effect(ar, op, a, b)
  {
    hide IsEqual, LesserOrEqual, GreaterOrEqual, Same, AtMost, AtLeast;
    ComparisonsOfValues(ar, a, b);
  }

  /** Binary instructions take both operands off the stack and leave the value; they need two. */
  lemma BinaryInstruction(ar: Arith, code: seq<Byte>, pool: seq<Value>, s: State)
    requires s.ip < |code| && (4 <= code[s.ip] <= 7 || 9 <= code[s.ip] <= 16)
    ensures var r, n := Step(ar, code, pool, s), |s.stack|;
            if n < 2 then r == Crashed(StackUnderflow)
            else
              r == Running(State(s.ip + 1, s.stack[..n - 2] + [Effect(ar, code[s.ip], s.stack[n - 2], s.stack[n - 1])],
                                 s.globals))
  {
    hide BinaryResult, Effect;
    if |s.stack| >= 2 { EffectOf(ar, code[s.ip], s.stack[|s.stack| - 2], s.stack[|s.stack| - 1]); }
  }

  /** Negation and not take one operand. */
  lemma UnaryInstruction(ar: Arith, code: seq<Byte>, pool: seq<Value>, s: State)
    requires s.ip < |code| && (code[s.ip] == 3 || code[s.ip] == 8)
    ensures var r, n := Step(ar, code, pool, s), |s.stack|;
            if n < 1 then r == Crashed(StackUnderflow)
            else
              var v := s.stack[n - 1];
              var w := if code[s.ip] == 3 then Numeric(ar.neg(Num(ar, v))) else Boolean(!True(ar, v));
              r == Running(State(s.ip + 1, s.stack[..n - 1] + [w], s.globals))
  {
  }

  /**
   A constant is pushed; the global whose name a constant is, is pushed, or declared as undefined if
   there is none; or it is set to the value on top of the stack, which is taken off.
   */
  lemma OperandInstruction(ar: Arith, code: seq<Byte>, pool: seq<Value>, s: State)
    requires s.ip < |code| && (code[s.ip] == 2 || code[s.ip] == 21 || code[s.ip] == 22)
    ensures var r, n := Step(ar, code, pool, s), |s.stack|;
            if s.ip + 1 == |code| then r == Crashed(CodeOverrun)
            else if code[s.ip + 1] >= |pool| then r == Crashed(BadConstant)
            else
              var v := pool[code[s.ip + 1]];
              var x := if v.Text? then v.s else "";
              if code[s.ip] == 2 then r == Running(State(s.ip + 2, s.stack + [v], s.globals))
              else if code[s.ip] == 21 && x in s.globals then
                r == Running(State(s.ip + 2, s.stack + [s.globals[x]], s.globals))
              else if code[s.ip] == 21 then
                r == Running(State(s.ip + 2, s.stack + [Undefined], s.globals[x := Undefined]))
              else if n == 0 then r == Crashed(StackUnderflow)
              else r == Running(State(s.ip + 2, s.stack[..n - 1], s.globals[x := s.stack[n - 1]]))
  {
  }

  /** A return halts; a byte that is no instruction is passed over. */
  lemma OtherInstruction(ar: Arith, code: seq<Byte>, pool: seq<Value>, s: State)
    requires s.ip < |code| && code[s.ip] !in {2, 21, 22, 3, 8} && !(4 <= code[s.ip] <= 7 || 9 <= code[s.ip] <= 16)
    ensures Step(ar, code, pool, s) ==
            if code[s.ip] == 1 then Halted(s.(ip := s.ip + 1)) else Running(s.(ip := s.ip + 1))
  {
  }

  /** So the machine orders two texts by their first difference, strictly or not. */
  lemma MachineOrdersTexts(ar: Arith, code: seq<Byte>, pool: seq<Value>, s: State, t: string, u: string)
    requires s.ip < |code| && 13 <= code[s.ip] <= 16
    requires |s.stack| >= 2 && s.stack[|s.stack| - 2] == Text(t) && s.stack[|s.stack| - 1] == Text(u)
    ensures var least := code[s.ip] == 13 || code[s.ip] == 15;
            var v := Boolean(if least then Precedes(u, t) else Precedes(t, u));
            Step(ar, code, pool, s) == Running(State(s.ip + 1, s.stack[..|s.stack| - 2] + [v], s.globals))
  {
    hide Precedes, Step;
    BinaryInstruction(ar, code, pool, s);
  }
}
