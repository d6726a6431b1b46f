/**
 The stack machine of src/lib/VM.cpp: one step on a state, whole executions, and the machine object
 whose loop is proved to carry them out.
 */
module Machine {
  import opened Values
  import opened Compiler

  datatype State = State(ip: nat, stack: seq<Value>, globals: map<string, Value>)

  /**
   What can go wrong: fetching beyond the code throws; popping an empty stack and reading a constant
   that is not in the pool have no defined result.
   */
  datatype Fault = CodeOverrun | StackUnderflow | BadConstant

  datatype Outcome = Running(state: State) | Halted(state: State) | Crashed(why: Fault)

  function UnaryResult(ar: Arith, op: Byte, v: Value): Value {
    if op == NEGATE then Numeric(ar.neg(AsNumber(ar, v))) else Boolean(!Truthy(ar, v))
  }

  /**
   Arithmetic reads a value that is no number as zero.  `And` and `Or` always give a boolean, and
   the strict comparisons share the cases of the others.
   */
  function BinaryResult(ar: Arith, op: Byte, lhs: Value, rhs: Value): Value {
    if op == ADD then Numeric(ar.add(AsNumber(ar, lhs), AsNumber(ar, rhs)))
    else if op == SUB then Numeric(ar.sub(AsNumber(ar, lhs), AsNumber(ar, rhs)))
    else if op == MUL then Numeric(ar.mul(AsNumber(ar, lhs), AsNumber(ar, rhs)))
    else if op == DIV then Numeric(ar.div(AsNumber(ar, lhs), AsNumber(ar, rhs)))
    else if op == AND then Boolean(Truthy(ar, lhs) && Truthy(ar, rhs))
    else if op == OR then Boolean(Truthy(ar, lhs) || Truthy(ar, rhs))
    else if op == EQUAL then Boolean(IsEqual(ar, lhs, rhs))
    else if op == NOT_EQUAL then Boolean(!IsEqual(ar, lhs, rhs))
    else if op == GREATER || op == GREATER_EQUAL then Boolean(GreaterOrEqual(ar, lhs, rhs))
    else Boolean(LesserOrEqual(ar, lhs, rhs))
  }

  /** A global that was never set reads as undefined, and from then on it is there. */
  function Touch(globals: map<string, Value>, name: string): map<string, Value> {
    if name in globals then globals else globals[name := Undefined]
  }

  function Push(s: State, ip: nat, kept: nat, v: Value): State
    requires kept <= |s.stack|
  {
    s.(ip := ip, stack := s.stack[..kept] + [v])
  }

  function Step(ar: Arith, code: seq<Byte>, pool: seq<Value>, s: State): (r: Outcome)
    requires s.ip < |code|
    ensures r.Running? ==> s.ip < r.state.ip <= |code|
  {
    var op, n := code[s.ip], |s.stack|;
    if op == RETURN then Halted(s.(ip := s.ip + 1))
    else if op == CONSTANT || op == GET_GLOBAL || op == SET_GLOBAL then
      if s.ip + 1 >= |code| then Crashed(CodeOverrun)
      else
        var index := code[s.ip + 1];
        if index >= |pool| then Crashed(BadConstant)
        else if op == CONSTANT then Running(Push(s, s.ip + 2, n, pool[index]))
        else
          var name := AsText(pool[index]);
          if op == GET_GLOBAL then
            var globals := Touch(s.globals, name);
            Running(Push(s, s.ip + 2, n, globals[name]).(globals := globals))
          else if n == 0 then Crashed(StackUnderflow)
          else Running(State(s.ip + 2, s.stack[..n - 1], s.globals[name := s.stack[n - 1]]))
    else if IsUnary(op) then
      if n < 1 then Crashed(StackUnderflow)
      else Running(Push(s, s.ip + 1, n - 1, UnaryResult(ar, op, s.stack[n - 1])))
    else if IsBinary(op) then
      if n < 2 then Crashed(StackUnderflow)
      else Running(Push(s, s.ip + 1, n - 2, BinaryResult(ar, op, s.stack[n - 2], s.stack[n - 1])))
    else Running(s.(ip := s.ip + 1))
  }

  function Execute(ar: Arith, code: seq<Byte>, pool: seq<Value>, s: State): (r: Outcome)
    ensures !r.Running?
    decreases if s.ip < |code| then |code| - s.ip else 0
  {
    if s.ip >= |code| then Halted(s)
    else
      var r := Step(ar, code, pool, s);
      if r.Running? then Execute(ar, code, pool, r.state) else r
  }

  class VM {
    const ar: Arith
    const code: seq<Byte>
    const constants: seq<Value>
    var ip: nat
    var stack: seq<Value>
    var globals: map<string, Value>

    constructor (ar: Arith, code: seq<Byte>, constants: seq<Value>)
      ensures this.ar == ar && this.code == code && this.constants == constants
      ensures Now() == State(0, [], map[])
    {
      this.ar, this.code, this.constants := ar, code, constants;
      ip, stack, globals := 0, [], map[];
    }

    function Now(): State
      reads this
    {
      State(ip, stack, globals)
    }

    /** The next byte; the cursor moves even where the code has ended. */
    method Fetch() returns (ok: bool, b: Byte)
      modifies this`ip
      ensures ip == old(ip) + 1
      ensures ok == (old(ip) < |code|) && (ok ==> b == code[old(ip)])
    {
      ok := ip < |code|;
      b := if ok then code[ip] else 0;
      ip := ip + 1;
    }

    method Pop() returns (ok: bool, v: Value)
      modifies this`stack
      ensures ok == (|old(stack)| > 0)
      ensures if ok then old(stack) == stack + [v] else stack == old(stack)
    {
      ok, v := |stack| > 0, Undefined;
      if ok {
        v := stack[|stack| - 1];
        stack := stack[..|stack| - 1];
      }
    }

    /** The operand of an instruction, looked up in the pool. */
    method FetchConstant() returns (fault: seq<Fault>, v: Value)
      modifies this`ip
      ensures ip == old(ip) + 1
      ensures if old(ip) >= |code| then fault == [CodeOverrun]
              else if code[old(ip)] >= |constants| then fault == [BadConstant]
              else fault == [] && v == constants[code[old(ip)]]
    {
      var ok, index := Fetch();
      if !ok { return [CodeOverrun], Undefined; }
      if index >= |constants| { return [BadConstant], Undefined; }
      return [], constants[index];
    }

    /** One turn of the loop after the fetch of `op`; says whether to go on, and any fault. */
    method Dispatch(op: Byte) returns (more: bool, fault: seq<Fault>)
      requires 0 < ip <= |code| && op == code[ip - 1]
      modifies this
      ensures Step(ar, code, constants, old(Now()).(ip := old(ip) - 1)) ==
              if fault != [] then Crashed(fault[0]) else if more then Running(Now()) else Halted(Now())
    {
      ghost var s := Now().(ip := ip - 1);
      more, fault := true, [];
      if op == RETURN {
        more := false;
      } else if op == CONSTANT {
        var value;
        fault, value := FetchConstant();
        if fault != [] { return; }
        stack := stack + [value];
        assert stack == s.stack[..|s.stack|] + [value];
      } else if op == GET_GLOBAL {
        var name;
        fault, name := FetchConstant();
        if fault != [] { return; }
        globals := Touch(globals, AsText(name));
        stack := stack + [globals[AsText(name)]];
        assert stack == s.stack[..|s.stack|] + [globals[AsText(name)]];
      } else if op == SET_GLOBAL {
        var name;
        fault, name := FetchConstant();
        if fault != [] { return; }
        var ok, value := Pop();
        if !ok { fault := [StackUnderflow]; return; }
        globals := globals[AsText(name) := value];
      } else if IsUnary(op) {
        var ok, value := Pop();
        if !ok { fault := [StackUnderflow]; return; }
        stack := stack + [UnaryResult(ar, op, value)];
      } else if IsBinary(op) {
        var ok, rhs := Pop();
        if !ok { fault := [StackUnderflow]; return; }
        var lhs;
        ok, lhs := Pop();
        if !ok { fault := [StackUnderflow]; return; }
        assert s.stack == stack + [lhs] + [rhs];
        stack := stack + [BinaryResult(ar, op, lhs, rhs)];
      }
    }

    /** Runs from the current state to the end of the code, a return, or a fault. */
    method Run() returns (fault: seq<Fault>)
      modifies this
      ensures Execute(ar, code, constants, old(Now())) == if fault != [] then Crashed(fault[0]) else Halted(Now())
    {
      while ip < |code|
        invariant Execute(ar, code, constants, Now()) == Execute(ar, code, constants, old(Now()))
        decreases |code| - ip
      {
        ghost var s := Now();
        var ok, op := Fetch();
        var more;
        more, fault := Dispatch(op);
        assert Execute(ar, code, constants, s) ==
               var r := Step(ar, code, constants, s);
               if r.Running? then Execute(ar, code, constants, r.state) else r;
        if fault != [] || !more { return; }
      }
      fault := [];
    }
  }
}
