/**
 Which operator binds tighter: a chain of operands and binary operators is parsed as the tree whose
 root is the last of its loosest operators, and likewise to both sides of it.
 */
module Precedence {
  import opened Syntax
  import opened Grammar
  import opened Spelling
  import opened ParserSoundness

  /** The classes of binary operators, from the loosest to the tightest; -1 for every other token. */
  function Rank(k: Kind): int {
    match k
    case Or => 0
    case And => 1
    case BangEqual => 2
    case EqualEqual => 2
    case Greater => 3
    case GreaterEqual => 3
    case Less => 3
    case LessEqual => 3
    case Minus => 4
    case Plus => 4
    case Slash => 5
    case Star => 5
    case _ => -1
  }

  predicate Operators(ops: seq<Token>) {
    forall i | 0 <= i < |ops| :: Rank(ops[i].kind) >= 0
  }

  /** A prefix operator with its operand, a chain of calls, or a primary expression. */
  ghost predicate Operand(e: Expr) {
    Canonical(7, e) && Filled(e) && !e.NoExpr?
  }

  ghost predicate Operands(xs: seq<Expr>) {
    forall i | 0 <= i < |xs| :: Operand(xs[i])
  }

  /** The last of the loosest operators. */
  function Root(ops: seq<Token>): (k: nat)
    requires ops != []
    ensures k < |ops|
    ensures forall j | 0 <= j < k :: Rank(ops[k].kind) <= Rank(ops[j].kind)
    ensures forall j | k < j < |ops| :: Rank(ops[k].kind) < Rank(ops[j].kind)
  {
    var n := |ops| - 1;
    if n == 0 then 0
    else
      var k := Root(ops[..n]);
      if Rank(ops[n].kind) <= Rank(ops[k].kind) then n else k
  }

  function Tree(op: Token, left: Expr, right: Expr): Expr {
    if op.kind == Or || op.kind == And then Logical(left, op, right) else Binary(left, op, right)
  }

  /** The operands grouped by their operators, each between two of them. */
  function Grouped(xs: seq<Expr>, ops: seq<Token>): Expr
    requires |xs| == |ops| + 1
    decreases |ops|
  {
    if ops == [] then xs[0]
    else
      var k := Root(ops);
      Tree(ops[k], Grouped(xs[..k + 1], ops[..k]), Grouped(xs[k + 1..], ops[k + 1..]))
  }

  /** The tokens of the operands and operators in turn. */
  function Flat(xs: seq<Expr>, ops: seq<Token>): seq<Pattern>
    requires |xs| == |ops| + 1
    decreases |ops|
  {
    if ops == [] then Spell(xs[0]) else Spell(xs[0]) + ([Exactly(ops[0])] + Flat(xs[1..], ops[1..]))
  }

  lemma {:induction false} FlatSplits(xs: seq<Expr>, ops: seq<Token>, k: nat)
    requires |xs| == |ops| + 1 && k < |ops|
    ensures Flat(xs, ops) == Flat(xs[..k + 1], ops[..k]) + ([Exactly(ops[k])] + Flat(xs[k + 1..], ops[k + 1..]))
    decreases k
  {
    hide Spell;
    if k == 0 {
      assert ops[..0] == [] && Flat(xs[..1], ops[..0]) == Spell(xs[0]);
    } else {
      FlatSplits(xs[1..], ops[1..], k - 1);
      var head := Flat(xs[..k + 1][1..], ops[..k][1..]);
      assert xs[1..][..k] == xs[..k + 1][1..] && ops[1..][..k - 1] == ops[..k][1..];
      assert xs[1..][k..] == xs[k + 1..] && ops[1..][k..] == ops[k + 1..];
      assert Flat(xs[..k + 1], ops[..k]) == Spell(xs[0]) + ([Exactly(ops[0])] + head);
    }
  }

  lemma {:induction false} GroupedIsFlat(xs: seq<Expr>, ops: seq<Token>)
    requires |xs| == |ops| + 1
    ensures Spell(Grouped(xs, ops)) == Flat(xs, ops)
    decreases |ops|
  {
    hide Spell, Root, Tree;
    if ops != [] {
      var k := Root(ops);
      var left, right := Grouped(xs[..k + 1], ops[..k]), Grouped(xs[k + 1..], ops[k + 1..]);
      GroupedIsFlat(xs[..k + 1], ops[..k]);
      GroupedIsFlat(xs[k + 1..], ops[k + 1..]);
      FlatSplits(xs, ops, k);
      TreeSpells(ops[k], left, right);
    }
  }

  lemma TreeSpells(op: Token, left: Expr, right: Expr)
    ensures Spell(Tree(op, left, right)) == Spell(left) + ([Exactly(op)] + Spell(right))
  {
  }

  // ----- Grouping is what the parser does -----

  lemma LevelOf(k: Kind)
    ensures OpLevel(k) == Rank(k) + 1
  {
  }

  lemma {:induction false} OperandAnywhere(level: nat, e: Expr)
    requires level <= 7 && Operand(e)
    ensures Canonical(level, e) && Filled(e) && !EndsMissing(e)
    decreases e
  {
    if e.Unary? { OperandAnywhere(7, e.right); }
  }

  ghost predicate NoLooser(ops: seq<Token>, level: nat) {
    forall i | 0 <= i < |ops| :: level <= Rank(ops[i].kind) + 1
  }

  lemma {:induction false} GroupedIsCanonical(level: nat, xs: seq<Expr>, ops: seq<Token>)
    requires level <= 7 && |xs| == |ops| + 1 && Operands(xs) && Operators(ops) && NoLooser(ops, level)
    ensures var e := Grouped(xs, ops); Canonical(level, e) && Filled(e) && !EndsMissing(e)
    decreases |ops|
  {
    hide Canonical, Filled, EndsMissing, Root, Rank, Tree, Operand, Operands, Operators, NoLooser;
    if ops == [] {
      FirstOperand(xs);
      OperandAnywhere(level, xs[0]);
    } else {
      var k := Root(ops);
      var l := SidesOfRoot(level, xs, ops, k);
      GroupedIsCanonical(l, xs[..k + 1], ops[..k]);
      GroupedIsCanonical(l + 1, xs[k + 1..], ops[k + 1..]);
      TreeIsCanonical(level, ops[k], Grouped(xs[..k + 1], ops[..k]), Grouped(xs[k + 1..], ops[k + 1..]));
    }
  }

  lemma FirstOperand(xs: seq<Expr>)
    requires xs != [] && Operands(xs)
    ensures Operand(xs[0])
  {
    hide Operand;
  }

  /** No operator before the root is looser, and those after it are all tighter. */
  lemma SidesOfRoot(level: nat, xs: seq<Expr>, ops: seq<Token>, k: nat) returns (l: nat)
    requires ops != [] && k == Root(ops) && |xs| == |ops| + 1
    requires Operands(xs) && Operators(ops) && NoLooser(ops, level)
    ensures l == Rank(ops[k].kind) + 1 && level <= l <= 6 && Rank(ops[k].kind) >= 0
    ensures Operands(xs[..k + 1]) && Operators(ops[..k]) && NoLooser(ops[..k], l)
    ensures Operands(xs[k + 1..]) && Operators(ops[k + 1..]) && NoLooser(ops[k + 1..], l + 1)
  {
    hide Operand, Rank;
    RankAtMost(ops[k].kind);
    l := Rank(ops[k].kind) + 1;
    var later := ops[k + 1..];
    assert forall j | 0 <= j < |later| :: later[j] == ops[k + 1 + j];
  }

  lemma RankAtMost(k: Kind)
    ensures Rank(k) <= 5
  {
  }

  lemma TreeIsCanonical(level: nat, op: Token, left: Expr, right: Expr)
    requires 0 <= Rank(op.kind) && level <= Rank(op.kind) + 1
    requires Canonical(Rank(op.kind) + 1, left) && Filled(left) && !EndsMissing(left)
    requires Canonical(Rank(op.kind) + 2, right) && Filled(right) && !EndsMissing(right)
    ensures var e := Tree(op, left, right); Canonical(level, e) && Filled(e) && !EndsMissing(e)
  {
    LevelOf(op.kind);
    hide OpLevel;
  }

  /** A token that ends a chain: no operator, no parenthesis of a call, and no equals sign. */
  predicate EndsChain(k: Kind) {
    Rank(k) < 0 && k != LParen && k != Equal
  }

  /** Any chain of operands and operators is parsed as it is grouped. */
  lemma ChainsAreGrouped(toks: seq<Token>, cur: nat, xs: seq<Expr>, ops: seq<Token>)
    requires At(toks, cur) && |xs| == |ops| + 1 && Operands(xs) && Operators(ops)
    requires FitsAt(toks, cur, Flat(xs, ops)) && cur + |Flat(xs, ops)| < |toks|
    requires EndsChain(toks[cur + |Flat(xs, ops)|].kind)
    ensures ParseExpr(toks, cur) == Ok(Grouped(xs, ops), cur + |Flat(xs, ops)|)
  {
    hide ParseExpr, Canonical, Filled, EndsMissing, FitsAt, Flat, Grouped, Operands;
    var e, n := Grouped(xs, ops), cur + |Flat(xs, ops)|;
    GroupedIsFlat(xs, ops);
    GroupedIsCanonical(0, xs, ops);
    LevelOf(toks[n].kind);
    ParsesExactlyTheSpelled(toks, cur, e, n);
  }

  /** So of two operators the second goes below the first exactly if it binds tighter. */
  lemma TwoOperators(toks: seq<Token>, cur: nat, x: Expr, p: Token, y: Expr, q: Token, z: Expr)
    requires At(toks, cur) && Operand(x) && Operand(y) && Operand(z) && Rank(p.kind) >= 0 && Rank(q.kind) >= 0
    requires var ps := Spell(x) + ([Exactly(p)] + (Spell(y) + ([Exactly(q)] + Spell(z))));
             FitsAt(toks, cur, ps) && cur + |ps| < |toks| && EndsChain(toks[cur + |ps|].kind)
    ensures var n := cur + |Spell(x)| + |Spell(y)| + |Spell(z)| + 2;
            ParseExpr(toks, cur) ==
            Ok(if Rank(p.kind) < Rank(q.kind) then Tree(p, x, Tree(q, y, z)) else Tree(q, Tree(p, x, y), z), n)
  {
    var xs, ops := [x, y, z], [p, q];
    TwoOperatorsFlat(x, p, y, q, z);
    TwoOperatorsGrouped(x, p, y, q, z);
    hide ParseExpr, FitsAt, Spell, Flat, Grouped, Operand, Rank, Tree;
    ChainsAreGrouped(toks, cur, xs, ops);
  }

  lemma TwoOperatorsFlat(x: Expr, p: Token, y: Expr, q: Token, z: Expr)
    ensures Flat([x, y, z], [p, q]) == Spell(x) + ([Exactly(p)] + (Spell(y) + ([Exactly(q)] + Spell(z))))
  {
    hide Spell;
    assert [x, y, z][1..] == [y, z] && [p, q][1..] == [q] && [y, z][1..] == [z] && [q][1..] == [];
    assert Flat([z], []) == Spell(z);
    assert Flat([y, z], [q]) == Spell(y) + ([Exactly(q)] + Spell(z));
  }

  lemma TwoOperatorsGrouped(x: Expr, p: Token, y: Expr, q: Token, z: Expr)
    ensures Grouped([x, y, z], [p, q]) ==
            if Rank(p.kind) < Rank(q.kind) then Tree(p, x, Tree(q, y, z)) else Tree(q, Tree(p, x, y), z)
  {
    hide Rank, Tree;
    var xs, ops := [x, y, z], [p, q];
    assert ops[..1] == [p] && ops[1..] == [q] && ops[..0] == [] && ops[2..] == [];
    assert xs[..1] == [x] && xs[1..] == [y, z] && xs[..2] == [x, y] && xs[2..] == [z];
    OneOperatorGrouped(x, p, y);
    OneOperatorGrouped(y, q, z);
  }

  lemma OneOperatorGrouped(x: Expr, p: Token, y: Expr)
    ensures Grouped([x, y], [p]) == Tree(p, x, y)
  {
    hide Rank, Tree;
    assert [p][..0] == [] && [p][1..] == [] && [x, y][..1] == [x] && [x, y][1..] == [y];
  }
}
