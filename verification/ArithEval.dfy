/** What an arithmetic expression means: 64-bit operators and the value and side effects of a tree. */
module ArithEval {
  import opened ArithSyntax

  const TWO_63: int := 0x8000_0000_0000_0000
  const TWO_64: int := 0x1_0000_0000_0000_0000

  type Env = map<string, intmax>

  /** An unset variable counts as zero. */
  function Lookup(env: Env, name: string): intmax {
    if name in env then env[name] else 0
  }

  function Wrap(x: int): intmax {
    (x + TWO_63) % TWO_64 - TWO_63
  }

  function Pow2(n: nat): (p: nat)
    ensures p > 0
  {
    if n == 0 then 1 else 2 * Pow2(n - 1)
  }

  /** One bit of &, ^ and |. */
  function BitOp(op: int, x: int, y: int): int {
    if op == ARITH_BAND then x * y
    else if op == ARITH_BXOR then (x + y) % 2
    else x + y - x * y
  }

  /** The bits 0 to n of the two's complement, of which the last one is the sign. */
  function Bitwise(op: int, a: int, b: int, n: nat): int
    decreases n
  {
    var low := BitOp(op, a % 2, b % 2);
    if n == 0 then -low else low + 2 * Bitwise(op, a / 2, b / 2, n - 1)
  }

  function Magnitude(a: int): nat {
    if a < 0 then -a else a
  }

  /** Division truncates toward zero, and the remainder takes the sign of the dividend. */
  function Quotient(a: int, b: int): int
    requires b != 0
  {
    var q := Magnitude(a) / Magnitude(b);
    if (a < 0) == (b < 0) then q else -q
  }

  function Remainder(a: int, b: int): int
    requires b != 0
  {
    a - b * Quotient(a, b)
  }

  function Truth(b: bool): intmax {
    if b then 1 else 0
  }

  predicate Divides(op: int) {
    op == ARITH_DIV || op == ARITH_REM
  }

  /** do_binop() on operands for which it returns; shift counts are taken modulo 64. */
  function DoBinop(op: int, a: intmax, b: intmax): intmax
    requires IsBinop(op) && (Divides(op) ==> b != 0)
  {
    if op == ARITH_REM then Wrap(Remainder(a, b))
    else if op == ARITH_DIV then Wrap(Quotient(a, b))
    else if op == ARITH_MUL then Wrap(a * b)
    else if op == ARITH_ADD then Wrap(a + b)
    else if op == ARITH_SUB then Wrap(a - b)
    else if op == ARITH_LSHIFT then Wrap(a * Pow2(b % 64))
    else if op == ARITH_RSHIFT then Wrap(a / Pow2(b % 64))
    else if op == ARITH_LT then Truth(a < b)
    else if op == ARITH_LE then Truth(a <= b)
    else if op == ARITH_GT then Truth(a > b)
    else if op == ARITH_GE then Truth(a >= b)
    else if op == ARITH_EQ then Truth(a == b)
    else if op == ARITH_NE then Truth(a != b)
    else Wrap(Bitwise(op, a, b, 63))
  }

  function DoUnary(op: int, a: intmax): intmax {
    var x: int := a;
    if op == ARITH_SUB then Wrap(-x)
    else if op == ARITH_NOT then Truth(a == 0)
    else if op == ARITH_BNOT then Wrap(-x - 1)
    else a
  }

  /** The result of evaluating a tree: a value, or a division by zero that stops evaluation and
      leaves the assignments made so far. */
  datatype Outcome = Value(v: intmax, env: Env) | DivideByZero(env: Env)

  function Apply(op: int, a: intmax, b: intmax, env: Env): Outcome
    requires IsBinop(op)
  {
    if Divides(op) && b == 0 then DivideByZero(env) else Value(DoBinop(op, a, b), env)
  }

  /** Operands from left to right; &&, || and ?: evaluate only the operands they need. */
  function Eval(t: Tree, env: Env): Outcome {
    match t
    case Num(v) => Value(v, env)
    case Var(name) => Value(Lookup(env, name), env)
    case Paren(u) => Eval(u, env)
    case Unary(op, u) => (
      match Eval(u, env)
      case Value(a, e) => Value(DoUnary(op, a), e)
      case DivideByZero(e) => DivideByZero(e))
    case Bin(op, l, r) => (
      match Eval(l, env)
      case DivideByZero(e) => DivideByZero(e)
      case Value(a, e) =>
        match Eval(r, e)
        case DivideByZero(e') => DivideByZero(e')
        case Value(b, e') => Apply(op, a, b, e'))
    case And(l, r) => (
      match Eval(l, env)
      case DivideByZero(e) => DivideByZero(e)
      case Value(a, e) =>
        if a == 0 then Value(0, e)
        else
          match Eval(r, e)
          case DivideByZero(e') => DivideByZero(e')
          case Value(b, e') => Value(Truth(b != 0), e'))
    case Or(l, r) => (
      match Eval(l, env)
      case DivideByZero(e) => DivideByZero(e)
      case Value(a, e) =>
        if a != 0 then Value(1, e)
        else
          match Eval(r, e)
          case DivideByZero(e') => DivideByZero(e')
          case Value(b, e') => Value(Truth(b != 0), e'))
    case Cond(c, a, b) => (
      match Eval(c, env)
      case DivideByZero(e) => DivideByZero(e)
      case Value(v, e) => if v != 0 then Eval(a, e) else Eval(b, e))
    case Assign(name, op, u) =>
      match Eval(u, env)
      case DivideByZero(e) => DivideByZero(e)
      case Value(v, e) => Store(name, op, v, e)
  }

  /** `op - 11` is the binary operator of a compound assignment. */
  function Store(name: string, op: int, v: intmax, env: Env): Outcome
    requires IsAssign(op)
  {
    if op == ARITH_ASS then Value(v, env[name := v])
    else
      match Apply(op - 11, Lookup(env, name), v, env)
      case DivideByZero(e) => DivideByZero(e)
      case Value(w, e) => Value(w, e[name := w])
  }
}
