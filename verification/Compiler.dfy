/**
 The bytecode compiler of src/lib/BytecodeCompiler.cpp: each node appends instructions to a buffer
 and values to a pool.  An instruction with an operand names its value by the index of the value in
 the pool, cut to one byte.
 */
module Compiler {
  import opened Values
  import opened Syntax

  type Byte = b: nat | b < 256

  const RETURN: Byte := 1
  const CONSTANT: Byte := 2
  const NEGATE: Byte := 3
  const ADD: Byte := 4
  const SUB: Byte := 5
  const MUL: Byte := 6
  const DIV: Byte := 7
  const NOT: Byte := 8
  const AND: Byte := 9
  const OR: Byte := 10
  const EQUAL: Byte := 11
  const NOT_EQUAL: Byte := 12
  const GREATER: Byte := 13
  const LESSER: Byte := 14
  const GREATER_EQUAL: Byte := 15
  const LESSER_EQUAL: Byte := 16
  const GET_GLOBAL: Byte := 21
  const SET_GLOBAL: Byte := 22

  /** The operand byte for an index of the pool. */
  function Operand(index: nat): Byte {
    index % 256
  }

  predicate IsUnary(op: Byte) {
    op == NEGATE || op == NOT
  }

  predicate IsBinary(op: Byte) {
    AND <= op <= LESSER_EQUAL || ADD <= op <= DIV
  }

  /** The instruction of an operator; a token that is no operator of that arity has none. */
  function BinaryCode(k: Kind): (r: seq<Byte>)
    ensures |r| <= 1 && (r != [] ==> IsBinary(r[0]))
  {
    match k
    case Plus => [ADD]
    case Minus => [SUB]
    case Star => [MUL]
    case Slash => [DIV]
    case BangEqual => [NOT_EQUAL]
    case EqualEqual => [EQUAL]
    case Less => [LESSER]
    case Greater => [GREATER]
    case GreaterEqual => [GREATER_EQUAL]
    case LessEqual => [LESSER_EQUAL]
    case _ => []
  }

  function UnaryCode(k: Kind): (r: seq<Byte>)
    ensures |r| <= 1 && (r != [] ==> IsUnary(r[0]))
  {
    match k
    case Minus => [NEGATE]
    case Bang => [NOT]
    case _ => []
  }

  function LogicalCode(k: Kind): (r: seq<Byte>)
    ensures |r| <= 1 && (r != [] ==> IsBinary(r[0]))
  {
    match k
    case Or => [OR]
    case And => [AND]
    case _ => []
  }

  // ----- What is emitted for a tree whose first value gets the index `base` -----

  /** Assignments and calls are not implemented: nothing is emitted for them. */
  function Code(e: Expr, base: nat): seq<Byte>
    decreases e
  {
    match e
    case Literal(_) => [CONSTANT, Operand(base)]
    case Variable(_) => [GET_GLOBAL, Operand(base)]
    case Grouping(inner) => Code(inner, base)
    case Unary(op, right) => Code(right, base) + UnaryCode(op.kind)
    case Binary(left, op, right) => Code(left, base) + Code(right, base + |Pool(left)|) + BinaryCode(op.kind)
    case Logical(left, op, right) => Code(left, base) + Code(right, base + |Pool(left)|) + LogicalCode(op.kind)
    case _ => []
  }

  function Pool(e: Expr): seq<Value> {
    match e
    case Literal(value) => [value]
    case Variable(name) => [Text(name.lexeme)]
    case Grouping(inner) => Pool(inner)
    case Unary(_, right) => Pool(right)
    case Binary(left, _, right) => Pool(left) + Pool(right)
    case Logical(left, _, right) => Pool(left) + Pool(right)
    case _ => []
  }

  /** A missing initializer is the constant undefined. */
  function InitCode(init: Expr, base: nat): seq<Byte> {
    if init.NoExpr? then [CONSTANT, Operand(base)] else Code(init, base)
  }

  function InitPool(init: Expr): seq<Value> {
    if init.NoExpr? then [Undefined] else Pool(init)
  }

  /** Only variable declarations and returns emit anything; a return does not emit its value. */
  function StmtCode(s: Stmt, base: nat): seq<Byte> {
    match s
    case VarDecl(_, init) => InitCode(init, base) + [SET_GLOBAL, Operand(base + |InitPool(init)|)]
    case ReturnStmt(_, _) => [RETURN]
    case _ => []
  }

  function StmtPool(s: Stmt): seq<Value> {
    match s
    case VarDecl(name, init) => InitPool(init) + [Text(name.lexeme)]
    case _ => []
  }

  function ProgramCode(stmts: seq<Stmt>, base: nat): seq<Byte> {
    if stmts == [] then [] else StmtCode(stmts[0], base) + ProgramCode(stmts[1..], base + |StmtPool(stmts[0])|)
  }

  function ProgramPool(stmts: seq<Stmt>): seq<Value> {
    if stmts == [] then [] else StmtPool(stmts[0]) + ProgramPool(stmts[1..])
  }

  lemma AppendAssoc<T>(a: seq<T>, b: seq<T>, c: seq<T>)
    ensures a + b + c == a + (b + c)
  {
  }

  // ----- The compiler object -----

  class BytecodeCompiler {
    var bytecode: seq<Byte>
    var constants: seq<Value>

    constructor ()
      ensures bytecode == [] && constants == []
    {
      bytecode, constants := [], [];
    }

    method Emit(instruction: Byte)
      modifies this`bytecode
      ensures bytecode == old(bytecode) + [instruction]
    {
      bytecode := bytecode + [instruction];
    }

    method AddValue(value: Value) returns (index: nat)
      modifies this`constants
      ensures constants == old(constants) + [value]
      ensures index < |constants| && constants[index] == value
      ensures index == |old(constants)|
    {
      constants := constants + [value];
      index := |constants| - 1;
    }

    method EmitValue(instruction: Byte, value: Value)
      modifies this
      ensures bytecode == old(bytecode) + [instruction, Operand(|old(constants)|)]
      ensures constants == old(constants) + [value]
    {
      var index := AddValue(value);
      bytecode := bytecode + [instruction];
      bytecode := bytecode + [Operand(index)];
    }

    /** Earlier code and constants stay as they are; a missing operand emits nothing. */
    method CompileExpr(e: Expr)
      modifies this
      ensures bytecode == old(bytecode) + Code(e, |old(constants)|)
      ensures constants == old(constants) + Pool(e)
      decreases e, 1
    {
      match e
      case Literal(value) => EmitValue(CONSTANT, value);
      case Variable(name) => EmitValue(GET_GLOBAL, Text(name.lexeme));
      case Grouping(inner) => CompileExpr(inner);
      case Unary(op, right) =>
        CompileExpr(right);
        AppendAssoc(old(bytecode), Code(right, |old(constants)|), UnaryCode(op.kind));
        bytecode := bytecode + UnaryCode(op.kind);
      case Binary(left, op, right) =>
        CompileOperands(e, left, right);
        AppendAssoc(old(bytecode), Code(left, |old(constants)|) + Code(right, |old(constants)| + |Pool(left)|),
                    BinaryCode(op.kind));
        bytecode := bytecode + BinaryCode(op.kind);
      case Logical(left, op, right) =>
        CompileOperands(e, left, right);
        AppendAssoc(old(bytecode), Code(left, |old(constants)|) + Code(right, |old(constants)| + |Pool(left)|),
                    LogicalCode(op.kind));
        bytecode := bytecode + LogicalCode(op.kind);
      case _ =>
    }

    method CompileOperands(ghost parent: Expr, left: Expr, right: Expr)
      requires left < parent && right < parent
      modifies this
      ensures bytecode == old(bytecode) +
                          (Code(left, |old(constants)|) + Code(right, |old(constants)| + |Pool(left)|))
      ensures constants == old(constants) + (Pool(left) + Pool(right))
      decreases parent, 0
    {
      hide Code, Pool;
      CompileExpr(left);
      CompileExpr(right);
    }

    method CompileStmt(s: Stmt)
      modifies this
      ensures bytecode == old(bytecode) + StmtCode(s, |old(constants)|)
      ensures constants == old(constants) + StmtPool(s)
    {
      hide Code, Pool;
      match s
      case VarDecl(name, init) =>
        if !init.NoExpr? {
          CompileExpr(init);
        } else {
          EmitValue(CONSTANT, Undefined);
        }
        EmitValue(SET_GLOBAL, Text(name.lexeme));
      case ReturnStmt(_, _) => Emit(RETURN);
      case _ =>
    }

    method CompileProgram(stmts: seq<Stmt>)
      modifies this
      ensures bytecode == old(bytecode) + ProgramCode(stmts, |old(constants)|)
      ensures constants == old(constants) + ProgramPool(stmts)
    {
      hide StmtCode, StmtPool;
      for i := 0 to |stmts|
        invariant bytecode + ProgramCode(stmts[i..], |constants|) ==
                  old(bytecode) + ProgramCode(stmts, |old(constants)|)
        invariant constants + ProgramPool(stmts[i..]) == old(constants) + ProgramPool(stmts)
      {
        ghost var code, pool := bytecode, constants;
        assert stmts[i..][1..] == stmts[i + 1..];
        CompileStmt(stmts[i]);
        ProgramSplit(code, pool, stmts[i..]);
      }
    }
  }

  lemma ProgramSplit(code: seq<Byte>, pool: seq<Value>, stmts: seq<Stmt>)
    requires stmts != []
    ensures code + ProgramCode(stmts, |pool|) ==
            code + StmtCode(stmts[0], |pool|) + ProgramCode(stmts[1..], |pool + StmtPool(stmts[0])|)
    ensures pool + ProgramPool(stmts) == pool + StmtPool(stmts[0]) + ProgramPool(stmts[1..])
  {
    hide StmtCode, StmtPool;
    var p := StmtPool(stmts[0]);
    var next := |pool| + |p|;
    assert ProgramCode(stmts, |pool|) == StmtCode(stmts[0], |pool|) + ProgramCode(stmts[1..], next);
    assert ProgramPool(stmts) == p + ProgramPool(stmts[1..]);
    hide ProgramCode, ProgramPool;
    AppendAssoc(code, StmtCode(stmts[0], |pool|), ProgramCode(stmts[1..], next));
    AppendAssoc(pool, p, ProgramPool(stmts[1..]));
  }
}
