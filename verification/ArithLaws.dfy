/** What expressions mean, in terms of the operators of C by name: how two operators group, and the laws of 64-bit
  arithmetic that each of them obeys. */
module ArithLaws {
  import opened ArithSyntax
  import opened ArithEval

  // ----- grouping

  /** The levels of the binary operators of C, from the tightest to the loosest. */
  predicate OfLevel(op: int, k: nat) {
    match k
    case 0 => op == ARITH_MUL || op == ARITH_DIV || op == ARITH_REM
    case 1 => op == ARITH_ADD || op == ARITH_SUB
    case 2 => op == ARITH_LSHIFT || op == ARITH_RSHIFT
    case 3 => op == ARITH_LT || op == ARITH_LE || op == ARITH_GT || op == ARITH_GE
    case 4 => op == ARITH_EQ || op == ARITH_NE
    case 5 => op == ARITH_BAND
    case 6 => op == ARITH_BXOR
    case 7 => op == ARITH_BOR
    case _ => false
  }

  lemma LevelPrec(op: int, k: nat)
    requires OfLevel(op, k)
    ensures IsBinop(op) && Prec(op) == k
  {
  }

  /** An operand: a number, a variable, something in parentheses, or one of these behind unary operators. */
  predicate Operand(t: Tree) {
    Shaped(t) && (t.Num? || t.Var? || t.Paren? || t.Unary?)
  }

  /** Of `a p b m c`, the operator of the tighter level takes its operands first, and of two of one level the left one
      does. */
  lemma Grouping(s: Source, p: BinCode, j: nat, m: BinCode, k: nat, a: Tree, b: Tree, c: Tree)
    requires OfLevel(p, j) && OfLevel(m, k) && Operand(a) && Operand(b) && Operand(c)
    requires Spelled(s, Bin(m, Bin(p, a, b), c))
    ensures Parse(s) == Done(if k < j then Bin(p, a, Bin(m, b, c)) else Bin(m, Bin(p, a, b), c), |s.toks|)
  {
    LevelPrec(p, j);
    LevelPrec(m, k);
    hide OfLevel, Prec, Parse;
    var t := if k < j then Bin(p, a, Bin(m, b, c)) else Bin(m, Bin(p, a, b), c);
    assert Shaped(t);
    RegroupedSame(s, p, m, a, b, c);
    ParseIff(s, t);
  }

  lemma RegroupedSame(s: Source, p: BinCode, m: BinCode, a: Tree, b: Tree, c: Tree)
    requires Spelled(s, Bin(m, Bin(p, a, b), c))
    ensures Spelled(s, Bin(p, a, Bin(m, b, c)))
  {
    assert IsBinop(p) && IsBinop(m);
    var i := Size(a) + 1;
    assert Written2(s.toks, 0, Bin(p, a, b), m, c);
    assert Written(s.toks, 0, Bin(p, a, b));
    assert Written2(s.toks, 0, a, p, b);
    assert Written2(s.toks, i, b, m, c);
  }

  /** The tokens of this tree are read as this tree. */
  predicate ReadAs(s: Source, t: Tree) {
    Spelled(s, t) ==> Parse(s) == Done(t, |s.toks|)
  }

  /** Binary operators bind tighter than &&, that tighter than ||, and that tighter than ?:. */
  lemma LogicGrouping(s: Source, a: Tree, b: Tree, c: Tree, d: Tree, p: BinCode)
    requires Operand(a) && Operand(b) && Operand(c) && Operand(d)
    ensures ReadAs(s, And(Bin(p, a, b), c)) && ReadAs(s, And(a, Bin(p, b, c)))
    ensures ReadAs(s, Or(And(a, b), c)) && ReadAs(s, Or(a, And(b, c)))
    ensures ReadAs(s, Cond(Or(a, b), c, d)) && ReadAs(s, Cond(a, b, Or(c, d)))
  {
    hide Parse, Written;
    ParseIff(s, And(Bin(p, a, b), c));
    ParseIff(s, And(a, Bin(p, b, c)));
    ParseIff(s, Or(And(a, b), c));
    ParseIff(s, Or(a, And(b, c)));
    ParseIff(s, Cond(Or(a, b), c, d));
    ParseIff(s, Cond(a, b, Or(c, d)));
  }

  /** && and || group to the right, and so do ?: and assignment, which binds more loosely than all others. */
  lemma RightGrouping(s: Source, a: Tree, b: Tree, c: Tree, d: Tree, x: string, y: string, m: AssignCode, q: AssignCode)
    requires Operand(a) && Operand(b) && Operand(c) && Operand(d)
    ensures ReadAs(s, And(a, And(b, c))) && ReadAs(s, Or(a, Or(b, c)))
    ensures ReadAs(s, Cond(a, b, Cond(c, d, a))) && ReadAs(s, Cond(a, Cond(b, c, d), a))
    ensures ReadAs(s, Assign(x, m, Cond(a, b, c))) && ReadAs(s, Assign(x, m, Assign(y, q, a)))
  {
    hide Parse, Written;
    ParseIff(s, And(a, And(b, c)));
    ParseIff(s, Or(a, Or(b, c)));
    ParseIff(s, Cond(a, b, Cond(c, d, a)));
    ParseIff(s, Cond(a, Cond(b, c, d), a));
    ParseIff(s, Assign(x, m, Cond(a, b, c)));
    ParseIff(s, Assign(x, m, Assign(y, q, a)));
  }

  // ----- arithmetic

  /** The same number in 64 bits. */
  predicate Same(x: int, y: int) {
    (x - y) % TWO_64 == 0
  }

  lemma SameWrap(x: int)
    ensures Same(Wrap(x), x) && (-TWO_63 <= x < TWO_63 ==> Wrap(x) == x)
  {
  }

  /** Two 64-bit numbers that are the same in 64 bits are equal, so these laws say what the operators give. */
  lemma SameEqual(x: intmax, y: intmax)
    requires Same(x, y)
    ensures x == y
  {
  }

  lemma SameChain(x: int, y: int, z: int)
    requires Same(x, y) && Same(y, z)
    ensures Same(x, z)
  {
  }

  lemma SameShift(x: int, y: int, d: int)
    requires Same(x, y)
    ensures Same(x + d, y + d)
  {
    assert (x + d) - (y + d) == x - y;
  }

  /** +, -, * and the signs are those of the integers in 64 bits. */
  lemma RingLaws(a: intmax, b: intmax)
    ensures Same(DoBinop(ARITH_ADD, a, b), a + b)
    ensures Same(DoBinop(ARITH_SUB, a, b), a - b)
    ensures Same(DoBinop(ARITH_MUL, a, b), a * b)
    ensures Same(DoUnary(ARITH_SUB, a), 0 - a) && DoUnary(ARITH_ADD, a) == a
  {
    SameWrap(a + b);
    SameWrap(a - b);
    SameWrap(a * b);
    SameWrap(0 - a);
    hide Wrap, Same;
  }

  /** - undoes +, and a number and its negative cancel. */
  lemma CancelLaws(a: intmax, b: intmax)
    ensures DoBinop(ARITH_SUB, DoBinop(ARITH_ADD, a, b), b) == a
    ensures DoBinop(ARITH_ADD, a, DoUnary(ARITH_SUB, a)) == 0
  {
    hide DoBinop, DoUnary, Same;
    var sum, neg := DoBinop(ARITH_ADD, a, b), DoUnary(ARITH_SUB, a);
    RingLaws(a, b);
    RingLaws(sum, b);
    SameShift(sum, a + b, 0 - b);
    SameChain(DoBinop(ARITH_SUB, sum, b), sum - b, a);
    SameEqual(DoBinop(ARITH_SUB, sum, b), a);
    RingLaws(a, neg);
    SameShift(neg, 0 - a, a);
    SameChain(DoBinop(ARITH_ADD, a, neg), a + neg, 0);
    SameEqual(DoBinop(ARITH_ADD, a, neg), 0);
  }

  /** Quotient and remainder make up the dividend; the remainder is smaller than the divisor and has the sign of the
      dividend. Only the least number divided by -1 is out of range. */
  lemma DivisionLaws(a: intmax, b: intmax)
    requires b != 0
    ensures var q, r := DoBinop(ARITH_DIV, a, b), DoBinop(ARITH_REM, a, b);
            && Same(a, q * b + r) && Magnitude(r) < Magnitude(b) && (r != 0 ==> (r < 0 <==> a < 0))
            && (a != -TWO_63 || b != -1 ==> a == q * b + r)
            && (a == -TWO_63 && b == -1 ==> q == a && r == 0)
  {
    var quot, rem := Quotient(a, b), Remainder(a, b);
    assert DoBinop(ARITH_DIV, a, b) == Wrap(quot) && DoBinop(ARITH_REM, a, b) == Wrap(rem);
    hide DoBinop;
    QuotientFits(a, b);
    SameWrap(rem);
    SameWrap(quot);
    assert quot * b + rem == a;
    if a == -TWO_63 && b == -1 {
      assert quot == TWO_63 && rem == 0;
    } else {
      assert Wrap(quot) == quot;
    }
  }

  lemma QuotientFits(a: intmax, b: intmax)
    requires b != 0
    ensures var q, r := Quotient(a, b), Remainder(a, b);
            && -TWO_63 <= q <= TWO_63 && (q == TWO_63 <==> a == -TWO_63 && b == -1)
            && Magnitude(r) < Magnitude(b) && (r != 0 ==> (r < 0 <==> a < 0)) && -TWO_63 < r < TWO_63
            && (b == -1 ==> r == 0)
  {
    var m: int, n: int := Magnitude(a), Magnitude(b);
    DivBounds(m, n);
    var k := m / n;
    QuotientIs(a, b, m, n, k);
    QuotientSize(m, n, k);
    Sizes(a, b, m, n, k, n * k, Quotient(a, b), Remainder(a, b));
  }

  lemma QuotientSize(m: int, n: int, k: int)
    requires m >= 0 && n > 0 && 0 <= m - n * k < n
    ensures k >= 0 && (n == 1 ==> k == m) && (n >= 2 ==> 2 * k <= m)
  {
    Multiple(k, n);
    if n >= 2 && k >= 1 { assert 2 * k <= n * k; }
  }

  lemma Sizes(a: intmax, b: intmax, m: int, n: int, k: int, nk: int, q: int, r: int)
    requires b != 0 && m == Magnitude(a) && n == Magnitude(b) && 0 <= m - nk < n
    requires k >= 0 && (n == 1 ==> k == m) && (n >= 2 ==> 2 * k <= m)
    requires q == if (a < 0) == (b < 0) then k else 0 - k
    requires r == if a < 0 then nk - m else m - nk
    ensures -TWO_63 <= q <= TWO_63 && (q == TWO_63 <==> a == -TWO_63 && b == -1)
    ensures Magnitude(r) < n && (r != 0 ==> (r < 0 <==> a < 0)) && -TWO_63 < r < TWO_63
    ensures b == -1 ==> r == 0
  {
  }

  lemma QuotientIs(a: int, b: int, m: int, n: int, k: int)
    requires b != 0 && m == Magnitude(a) && n == Magnitude(b) && k == m / n && 0 <= m - n * k < n
    ensures Quotient(a, b) == (if (a < 0) == (b < 0) then k else 0 - k)
    ensures Remainder(a, b) == if a < 0 then n * k - m else m - n * k
  {
    assert b * k == if b < 0 then 0 - n * k else n * k;
    assert b * (0 - k) == 0 - b * k;
  }

  lemma DivBounds(m: int, n: int)
    requires m >= 0 && n > 0
    ensures 0 <= m / n <= m && 0 <= m - n * (m / n) < n
  {
    var k := m / n;
    assert m == n * k + m % n;
    if k > 0 { assert n * k >= k; }
  }

  /** Each comparison gives 1 or 0, and of less, equal and greater exactly one gives 1. */
  lemma OrderLaws(a: intmax, b: intmax)
    ensures DoBinop(ARITH_LT, a, b) + DoBinop(ARITH_EQ, a, b) + DoBinop(ARITH_GT, a, b) == 1
    ensures DoBinop(ARITH_LT, a, b) == 1 <==> a < b
    ensures DoBinop(ARITH_EQ, a, b) == 1 <==> a == b
    ensures DoBinop(ARITH_GT, a, b) == DoBinop(ARITH_LT, b, a)
    ensures DoBinop(ARITH_LE, a, b) == 1 - DoBinop(ARITH_GT, a, b)
    ensures DoBinop(ARITH_GE, a, b) == 1 - DoBinop(ARITH_LT, a, b)
    ensures DoBinop(ARITH_NE, a, b) == 1 - DoBinop(ARITH_EQ, a, b)
    ensures DoUnary(ARITH_NOT, a) == DoBinop(ARITH_EQ, a, 0)
  {
  }

  // ----- bits

  /** Bit i of the two's complement of a number. */
  function Bit(a: int, i: nat): int {
    a / Pow2(i) % 2
  }

  lemma DivUnique(x: int, d: int, k: int)
    requires d > 0 && k * d <= x < k * d + d
    ensures x / d == k
  {
    var q := x / d;
    DivBy(x, d);
    Multiple(q - k, d);
    assert (q - k) * d == q * d - k * d;
  }

  lemma Multiple(e: int, d: int)
    requires d > 0
    ensures (e >= 1 ==> e * d >= d) && (e <= -1 ==> e * d <= -d)
  {
  }

  lemma {:induction false} PowSum(i: nat, j: nat)
    ensures Pow2(i + j) == Pow2(i) * Pow2(j)
    decreases i
  {
    if i > 0 {
      PowSum(i - 1, j);
      assert Pow2(i - 1 + j) == Pow2(i - 1) * Pow2(j);
    }
  }

  lemma Pow2Of64()
    ensures Pow2(63) == TWO_63 && Pow2(64) == TWO_64
  {
    assert Pow2(8) == 256;
    PowSum(8, 8);
    PowSum(16, 16);
    PowSum(32, 32);
    assert Pow2(64) == 2 * Pow2(63);
  }

  /** A bit of a number is a bit of its half. */
  lemma BitOfHalf(a: int, i: nat)
    ensures Bit(a, 0) == a % 2 && Bit(a, i + 1) == Bit(a / 2, i)
  {
    var p, k := Pow2(i), a / 2 / Pow2(i);
    DivBy(a / 2, p);
    assert a - 2 * (a / 2) < 2;
    DivUnique(a, 2 * p, k);
  }

  lemma DivBy(x: int, d: int)
    requires d > 0
    ensures x / d * d <= x <= x / d * d + d - 1
  {
  }

  lemma {:induction false} BitwiseBit(op: int, a: int, b: int, n: nat, i: nat)
    requires i <= n
    ensures Bit(Bitwise(op, a, b, n), i) == BitOp(op, Bit(a, i), Bit(b, i))
    decreases n
  {
    BitOfHalf(a, i);
    BitOfHalf(b, i);
    var low, r := BitOp(op, a % 2, b % 2), Bitwise(op, a, b, n);
    BitOpIs(op, a % 2, b % 2);
    BitOfHalf(r, 0);
    if i > 0 {
      assert r / 2 == Bitwise(op, a / 2, b / 2, n - 1);
      BitOfHalf(r, i - 1);
      BitOfHalf(a, i - 1);
      BitOfHalf(b, i - 1);
      BitwiseBit(op, a / 2, b / 2, n - 1, i - 1);
    }
  }

  lemma BitOpIs(op: int, x: int, y: int)
    requires 0 <= x <= 1 && 0 <= y <= 1
    ensures 0 <= BitOp(op, x, y) <= 1
    ensures BitOp(ARITH_BAND, x, y) == 1 <==> x == 1 && y == 1
    ensures BitOp(ARITH_BOR, x, y) == 1 <==> x == 1 || y == 1
    ensures BitOp(ARITH_BXOR, x, y) == 1 <==> x != y
  {
    assert x == 0 || x == 1;
  }

  lemma {:induction false} BitwiseRange(op: int, a: int, b: int, n: nat)
    ensures 0 <= Pow2(n) + Bitwise(op, a, b, n) && Bitwise(op, a, b, n) < Pow2(n)
    decreases n
  {
    BitOpIs(op, a % 2, b % 2);
    if n > 0 {
      BitwiseRange(op, a / 2, b / 2, n - 1);
    }
  }

  lemma BitwiseIs(op: int, a: intmax, b: intmax, i: nat)
    requires (op == ARITH_BAND || op == ARITH_BXOR || op == ARITH_BOR) && i < 64
    ensures Bit(DoBinop(op, a, b), i) == BitOp(op, Bit(a, i), Bit(b, i))
  {
    Pow2Of64();
    BitwiseRange(op, a, b, 63);
    SameWrap(Bitwise(op, a, b, 63));
    BitwiseBit(op, a, b, 63, i);
    hide Bitwise, BitOp, Bit, Wrap, Same;
    assert DoBinop(op, a, b) == Wrap(Bitwise(op, a, b, 63));
  }

  /** &, | and ^ work on each of the 64 bits, and ~ turns each around. */
  lemma BitLaws(a: intmax, b: intmax, i: nat)
    requires i < 64
    ensures Bit(DoBinop(ARITH_BAND, a, b), i) == 1 <==> Bit(a, i) == 1 && Bit(b, i) == 1
    ensures Bit(DoBinop(ARITH_BOR, a, b), i) == 1 <==> Bit(a, i) == 1 || Bit(b, i) == 1
    ensures Bit(DoBinop(ARITH_BXOR, a, b), i) == 1 <==> Bit(a, i) != Bit(b, i)
    ensures Bit(DoUnary(ARITH_BNOT, a), i) == 1 <==> Bit(a, i) != 1
  {
    BitIs(a, i);
    BitIs(b, i);
    BitwiseIs(ARITH_BAND, a, b, i);
    BitwiseIs(ARITH_BOR, a, b, i);
    BitwiseIs(ARITH_BXOR, a, b, i);
    BitOfNot(a, i);
    BitOpIs(ARITH_BAND, Bit(a, i), Bit(b, i));
    hide DoBinop, DoUnary, Bit, BitOp;
  }

  lemma BitIs(a: int, i: nat)
    ensures 0 <= Bit(a, i) <= 1
  {
  }

  lemma BitOfNot(a: intmax, i: nat)
    ensures Bit(DoUnary(ARITH_BNOT, a), i) == 1 - Bit(a, i)
  {
    var p := Pow2(i);
    var k := a / p;
    SameWrap(0 - a - 1);
    DivBy(a, p);
    assert (0 - k - 1) * p == 0 - k * p - p;
    DivUnique(0 - a - 1, p, 0 - k - 1);
  }

  lemma HalfOf(a: int, n: nat)
    ensures a / Pow2(n + 1) == a / 2 / Pow2(n)
  {
    DivBy(a / 2, Pow2(n));
    DivUnique(a, 2 * Pow2(n), a / 2 / Pow2(n));
  }

  lemma {:induction false} BitOfProduct(a: int, n: nat, i: nat)
    ensures Bit(a * Pow2(n), i) == if i < n then 0 else Bit(a, i - n)
    decreases n
  {
    if n == 0 { return; }
    var x := a * Pow2(n - 1);
    assert a * Pow2(n) == 2 * x;
    BitOfHalf(2 * x, if i > 0 then i - 1 else 0);
    if i > 0 {
      BitOfProduct(a, n - 1, i - 1);
    }
  }

  lemma {:induction false} BitOfQuotient(a: int, n: nat, i: nat)
    ensures Bit(a / Pow2(n), i) == Bit(a, i + n)
    decreases n
  {
    if n == 0 { return; }
    HalfOf(a, n - 1);
    BitOfHalf(a, i + n - 1);
    BitOfQuotient(a / 2, n - 1, i);
  }

  lemma {:induction false} BitPeriod(x: int, m: int, n: nat, i: nat)
    requires i < n
    ensures Bit(x + m * Pow2(n), i) == Bit(x, i)
    decreases i
  {
    var h := m * Pow2(n - 1);
    var y := x + 2 * h;
    assert m * Pow2(n) == 2 * h;
    BitOfHalf(x, if i > 0 then i - 1 else 0);
    BitOfHalf(y, if i > 0 then i - 1 else 0);
    assert y / 2 == x / 2 + h && y % 2 == x % 2;
    hide Bit;
    if i > 0 {
      BitPeriod(x / 2, m, n - 1, i - 1);
    }
  }

  lemma WrapBit(x: int, i: nat)
    requires i < 64
    ensures Bit(Wrap(x), i) == Bit(x, i)
  {
    var m := (Wrap(x) - x) / TWO_64;
    SameWrap(x);
    assert Wrap(x) == x + m * TWO_64;
    Pow2Of64();
    BitPeriod(x, m, 64, i);
  }

  /** Shifts move the bits by the count modulo 64: to the left zeros come in, to the right copies of the sign. */
  lemma ShiftLaws(a: intmax, b: intmax, i: nat)
    requires i < 64
    ensures var n := b % 64; Bit(DoBinop(ARITH_LSHIFT, a, b), i) == if i < n then 0 else Bit(a, i - n)
    ensures var n := b % 64; Bit(DoBinop(ARITH_RSHIFT, a, b), i) == if i + n < 64 then Bit(a, i + n) else Bit(a, 63)
  {
    var n := b % 64;
    WrapBit(a * Pow2(n), i);
    BitOfProduct(a, n, i);
    WrapBit(a / Pow2(n), i);
    BitOfQuotient(a, n, i);
    SignBit(a, 63);
    if i + n >= 64 {
      SignBit(a, i + n);
    }
  }

  /** Above the number all bits are the sign. */
  lemma SignBit(a: intmax, i: nat)
    requires i >= 63
    ensures Bit(a, i) == if a < 0 then 1 else 0
  {
    Pow2Of64();
    PowSum(63, i - 63);
    assert Pow2(i) >= TWO_63;
    DivUnique(a, Pow2(i), if a < 0 then -1 else 0);
  }

  // ----- evaluation

  function Not(t: Tree): Tree {
    Unary(ARITH_NOT, t)
  }

  lemma NotMeans(t: Tree, env: Env)
    ensures Eval(Not(t), env) ==
            match Eval(t, env) case Value(v, e) => Value(Truth(v == 0), e) case DivideByZero(e) => DivideByZero(e)
  {
  }

  /** &&, || and ?: are one operator: they evaluate the same operands, with the same effects and the same end. */
  lemma LogicLaws(a: Tree, b: Tree, env: Env)
    ensures Eval(And(a, b), env) == Eval(Cond(a, Not(Not(b)), Num(0)), env)
    ensures Eval(Or(a, b), env) == Eval(Cond(a, Num(1), Not(Not(b))), env)
  {
    var e := Eval(a, env).env;
    NotMeans(b, e);
    NotMeans(Not(b), e);
    hide Not, DoUnary;
    assert Eval(Num(0), e) == Value(0, e) && Eval(Num(1), e) == Value(1, e);
  }

  lemma DeMorgan(a: Tree, b: Tree, env: Env)
    ensures Eval(Not(And(a, b)), env) == Eval(Or(Not(a), Not(b)), env)
  {
    NotMeans(a, env);
    NotMeans(b, Eval(a, env).env);
    NotMeans(And(a, b), env);
    hide Not, DoUnary;
  }

  lemma CondLaws(c: Tree, a: Tree, b: Tree, env: Env)
    ensures Eval(Cond(Not(c), a, b), env) == Eval(Cond(c, b, a), env)
    ensures Eval(Cond(Num(0), a, b), env) == Eval(b, env) && Eval(Cond(Num(1), a, b), env) == Eval(a, env)
    ensures Eval(Paren(a), env) == Eval(a, env)
  {
    NotMeans(c, env);
    hide Not, DoUnary;
    assert Eval(Num(0), env) == Value(0, env) && Eval(Num(1), env) == Value(1, env);
  }

  /** The left operand comes first, so the right one sees what it assigned; a division by zero stops everything. */
  lemma OrderOfEvaluation(op: BinCode, x: string, v: intmax, t: Tree, env: Env)
    ensures Eval(Bin(op, Assign(x, ARITH_ASS, Num(v)), Var(x)), env) ==
            if Divides(op) && v == 0 then DivideByZero(env[x := v]) else Value(DoBinop(op, v, v), env[x := v])
    ensures op == ARITH_DIV || op == ARITH_REM ==> Eval(Bin(op, t, Num(0)), env) == DivideByZero(Eval(t, env).env)
  {
    hide DoBinop;
    var e := env[x := v];
    assert Eval(Num(v), env) == Value(v, env);
    assert Eval(Assign(x, ARITH_ASS, Num(v)), env) == Value(v, e) && Eval(Var(x), e) == Value(v, e);
    assert Eval(Num(0), Eval(t, env).env) == Value(0, Eval(t, env).env);
  }

  /** The assignment operators of C and the operators they are made of. */
  predicate Compound(m: int, op: int) {
    || (m == ARITH_MULASS && op == ARITH_MUL) || (m == ARITH_DIVASS && op == ARITH_DIV)
    || (m == ARITH_REMASS && op == ARITH_REM) || (m == ARITH_ADDASS && op == ARITH_ADD)
    || (m == ARITH_SUBASS && op == ARITH_SUB) || (m == ARITH_LSHIFTASS && op == ARITH_LSHIFT)
    || (m == ARITH_RSHIFTASS && op == ARITH_RSHIFT) || (m == ARITH_BANDASS && op == ARITH_BAND)
    || (m == ARITH_BXORASS && op == ARITH_BXOR) || (m == ARITH_BORASS && op == ARITH_BOR)
  }

  /** These, `=`, the operators of the levels and the unary ones are all that the codes are taken for. */
  lemma OperatorCodes(c: int)
    ensures IsAssign(c) <==> c == ARITH_ASS || exists op :: Compound(c, op)
    ensures IsBinop(c) <==> exists k: nat :: OfLevel(c, k)
    ensures IsUnary(c) <==> c == ARITH_ADD || c == ARITH_SUB || c == ARITH_NOT || c == ARITH_BNOT
  {
    assert IsBinop(c) ==> OfLevel(c, Prec(c));
    assert IsAssign(c) && c != ARITH_ASS ==> Compound(c, c - 11);
  }

  /** A variable has the value that was assigned last, and 0 if it has none. */
  lemma VariableLaws(x: string, y: string, v: intmax, env: Env)
    ensures Eval(Var(x), env[x := v]) == Value(v, env[x := v])
    ensures x != y ==> Lookup(env[x := v], y) == Lookup(env, y)
    ensures x !in env ==> Eval(Var(x), env) == Value(0, env)
  {
  }

  /** The tree has an assignment to x. */
  predicate Assigns(t: Tree, x: string) {
    match t
    case Num(_) => false
    case Var(_) => false
    case Paren(u) => Assigns(u, x)
    case Unary(_, u) => Assigns(u, x)
    case Bin(_, l, r) => Assigns(l, x) || Assigns(r, x)
    case And(l, r) => Assigns(l, x) || Assigns(r, x)
    case Or(l, r) => Assigns(l, x) || Assigns(r, x)
    case Cond(c, a, b) => Assigns(c, x) || Assigns(a, x) || Assigns(b, x)
    case Assign(name, _, u) => name == x || Assigns(u, x)
  }

  /** Only assignments change variables. */
  lemma {:induction false} Unassigned(t: Tree, x: string, env: Env)
    requires !Assigns(t, x)
    ensures Lookup(Eval(t, env).env, x) == Lookup(env, x)
  {
    hide DoBinop, DoUnary;
    match t
    case Num(_) =>
    case Var(_) =>
    case Paren(u) => Unassigned(u, x, env);
    case Unary(_, u) => Unassigned(u, x, env);
    case Bin(_, l, r) => Unassigned(l, x, env); Unassigned(r, x, Eval(l, env).env);
    case And(l, r) => Unassigned(l, x, env); Unassigned(r, x, Eval(l, env).env);
    case Or(l, r) => Unassigned(l, x, env); Unassigned(r, x, Eval(l, env).env);
    case Cond(c, a, b) =>
      Unassigned(c, x, env);
      Unassigned(a, x, Eval(c, env).env);
      Unassigned(b, x, Eval(c, env).env);
    case Assign(_, _, u) => Unassigned(u, x, env);
  }

  /** `x = u` gives x the value of u, and `x op= u` is `x = x op u` if u does not assign x itself. */
  lemma AssignmentLaws(x: string, m: AssignCode, op: BinCode, u: Tree, env: Env)
    ensures Eval(u, env).Value? ==>
      var v := Eval(u, env).v; Eval(Assign(x, ARITH_ASS, u), env) == Value(v, Eval(u, env).env[x := v])
    ensures Compound(m, op) && !Assigns(u, x) ==>
      Eval(Assign(x, m, u), env) == Eval(Assign(x, ARITH_ASS, Bin(op, Var(x), u)), env)
  {
    hide DoBinop;
    if Compound(m, op) && !Assigns(u, x) {
      assert m - 11 == op;
      Unassigned(u, x, env);
      assert Eval(Var(x), env) == Value(Lookup(env, x), env);
      var r := Eval(Bin(op, Var(x), u), env);
      assert Eval(u, env).Value? ==> r == Apply(op, Lookup(env, x), Eval(u, env).v, Eval(u, env).env);
    }
  }

  lemma BinMeans(op: BinCode, l: Tree, r: Tree, a: intmax, b: intmax, env: Env)
    requires !Divides(op) && Eval(l, env) == Value(a, env) && Eval(r, env) == Value(b, env)
    ensures Eval(Bin(op, l, r), env) == Value(DoBinop(op, a, b), env)
  {
    hide DoBinop;
  }

  /** 2 + 3 * 4 is 14. */
  lemma ProductFirst(s: Source, env: Env)
    requires s == Source([Number(2), Op(ARITH_ADD), Number(3), Op(ARITH_MUL), Number(4)], false)
    ensures Parse(s).Done? && Eval(Parse(s).tree, env) == Value(14, env)
  {
    hide Parse;
    var product := Bin(ARITH_MUL, Num(3), Num(4));
    ParseIff(s, Bin(ARITH_ADD, Num(2), product));
    hide Written, Shaped;
    BinMeans(ARITH_MUL, Num(3), Num(4), 3, 4, env);
    BinMeans(ARITH_ADD, Num(2), product, 2, 12, env);
    hide Eval;
  }

  /** 10 - 4 - 3 is 3. */
  lemma LeftFirst(s: Source, env: Env)
    requires s == Source([Number(10), Op(ARITH_SUB), Number(4), Op(ARITH_SUB), Number(3)], false)
    ensures Parse(s).Done? && Eval(Parse(s).tree, env) == Value(3, env)
  {
    hide Parse;
    var left := Bin(ARITH_SUB, Num(10), Num(4));
    ParseIff(s, Bin(ARITH_SUB, left, Num(3)));
    hide Written, Shaped;
    BinMeans(ARITH_SUB, Num(10), Num(4), 10, 4, env);
    BinMeans(ARITH_SUB, left, Num(3), 6, 3, env);
    hide Eval;
  }
}
