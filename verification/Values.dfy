/**
 JavaScript primitive values.

 Numbers are an abstract type, and what the machine does with them is a parameter: every theorem
 holds for every choice of the operations in `Arith`, IEEE doubles included.
 */
module Values {

  type Number(==, 0, !new)

  datatype Arith = Arith(
    zero: Number,
    neg: Number -> Number,
    add: (Number, Number) -> Number,
    sub: (Number, Number) -> Number,
    mul: (Number, Number) -> Number,
    div: (Number, Number) -> Number,
    eq: (Number, Number) -> bool,
    lt: (Number, Number) -> bool,
    le: (Number, Number) -> bool,
    gt: (Number, Number) -> bool,
    ge: (Number, Number) -> bool,
    show: Number -> string,
    read: string -> Number
  )

  datatype Value = Undefined | Null | Boolean(b: bool) | Numeric(n: Number) | Text(s: string)

  /** Reading a value as a number, a string or a boolean gives zero, "" or false if it is not one. */
  function AsNumber(ar: Arith, v: Value): Number {
    if v.Numeric? then v.n else ar.zero
  }

  function AsText(v: Value): string {
    if v.Text? then v.s else ""
  }

  /** Strings are never truthy: a nonempty one falls through to the case of null. */
  predicate Truthy(ar: Arith, v: Value) {
    match v
    case Boolean(b) => b
    case Numeric(n) => !ar.eq(n, ar.zero)
    case _ => false
  }

  function Show(ar: Arith, v: Value): string {
    match v
    case Undefined => "undefined"
    case Null => "null"
    case Boolean(b) => if b then "true" else "false"
    case Numeric(n) => ar.show(n)
    case Text(s) => s
  }

  /** Lexicographic order of strings. */
  predicate TextAtMost(s: string, t: string) {
    if s == "" then true
    else if t == "" then false
    else s[0] < t[0] || (s[0] == t[0] && TextAtMost(s[1..], t[1..]))
  }

  // ----- Comparisons of values of one kind; values of two kinds never compare -----

  predicate IsEqual(ar: Arith, v: Value, w: Value) {
    match (v, w)
    case (Numeric(m), Numeric(n)) => ar.eq(m, n)
    case (Text(s), Text(t)) => s == t
    case (Boolean(b), Boolean(c)) => b == c
    case _ => false
  }

  predicate LesserOrEqual(ar: Arith, v: Value, w: Value) {
    match (v, w)
    case (Numeric(m), Numeric(n)) => ar.le(m, n)
    case (Text(s), Text(t)) => TextAtMost(s, t)
    case (Boolean(b), Boolean(c)) => !b || c
    case _ => false
  }

  predicate GreaterOrEqual(ar: Arith, v: Value, w: Value) {
    match (v, w)
    case (Numeric(m), Numeric(n)) => ar.ge(m, n)
    case (Text(s), Text(t)) => TextAtMost(t, s)
    case (Boolean(b), Boolean(c)) => b || !c
    case _ => false
  }
}
