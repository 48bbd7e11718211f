/** 64-bit decimal output and input in 32- and 16-bit pieces (libc/sprintf.c, libc/strtol.c): the
  arithmetic of one step, and the numerals the two sides agree on. */
module Decimal {

  const T16: int := 0x1_0000
  const T32: int := 0x1_0000_0000
  const T64: int := 0x1_0000_0000_0000_0000

  type u32 = x: int | 0 <= x < 0x1_0000_0000
  type u64 = x: int | 0 <= x < 0x1_0000_0000_0000_0000
  type i64 = x: int | -0x8000_0000_0000_0000 <= x < 0x8000_0000_0000_0000

  function Pair(hi: int, lo: int): int {
    hi * T32 + lo
  }

  // ----- dividing hi:lo by ten

  /** One turn of the conversion loop of vsnprintf(): the quotient of hi:lo by ten and the digit. */
  function DivTen(hi: u32, lo: u32): (r: (u32, u32, int))
    ensures Pair(r.0, r.1) == Pair(hi, lo) / 10 && r.2 == Pair(hi, lo) % 10
  {
    var r := hi % 10;
    var loHi := r * T16 + lo / T16;
    var r2 := loHi % 10;
    var loLo := r2 * T16 + lo % T16;
    assert Pair(hi, lo) == 10 * ((hi / 10) * T32 + (loHi / 10) * T16 + loLo / 10) + loLo % 10;
    (hi / 10, (loHi / 10) * T16 + loLo / 10, loLo % 10)
  }

  // ----- multiplying hi:lo by a base and adding a digit

  /** lo * base in two 16-bit steps: the new low word, and what is left for the high word. */
  function LowTimes(lo: u32, base: int): (r: (int, int))
  {
    var loLo := lo % T16 * base % T32;
    var loHi := lo / T16 * base % T32;
    var mid := (loHi + loLo / T16) % T32;
    (loLo % T16 + mid % T16 * T16, mid / T16)
  }

  /** The digit is added to the low word, and the carry to the high word, both modulo 2^32. */
  function AddCarry(p: int, q: int, l: int, d: int): (u32, u32) {
    var hi := (p % T32 + q) % T32;
    var lo := (l + d) % T32;
    (if lo < d then (hi + 1) % T32 else hi, lo)
  }

  /** One turn of the digit loop of strtoull(), with every operation on 32-bit words. */
  function MulAdd(hi: u32, lo: u32, base: int, d: int): (u32, u32)
  {
    var (l, q) := LowTimes(lo, base);
    AddCarry(hi * base, q, l, d)
  }

  lemma MulBounds(x: int, base: int)
    requires 0 <= x < T16 && 0 <= base <= T16
    ensures 0 <= x * base <= (T16 - 1) * T16
  {
    NotLess(x, T16 - base);
    Distribute(T16 - base, base, 1, x);
  }

  lemma NotLess(x: int, y: int)
    requires 0 <= x && 0 <= y
    ensures 0 <= x * y
  {
  }

  /** The two partial products, put together. */
  lemma Recombined(x: int, y: int)
    requires 0 <= x <= (T16 - 1) * T16 && 0 <= y <= (T16 - 1) * T16
    ensures var mid := (y + x / T16) % T32;
            var l, q := x % T16 + mid % T16 * T16, mid / T16;
            0 <= l < T32 && 0 <= q && l + q * T32 == x + y * T16
  {
    var mid := y + x / T16;
    assert mid % T32 == mid;
    assert mid == mid / T16 * T16 + mid % T16 && x == x / T16 * T16 + x % T16;
  }

  lemma Distribute(a: int, b: int, k: int, base: int)
    ensures (a + b * k) * base == a * base + b * base * k
  {
  }

  lemma ModHigh(h: int, l: int)
    requires 0 <= l < T32
    ensures (h * T32 + l) % T64 == h % T32 * T32 + l
  {
    assert h == T32 * (h / T32) + h % T32;
    assert h * T32 + l == T64 * (h / T32) + (h % T32 * T32 + l);
  }

  lemma HighPart(x: int, y: int, carry: int)
    ensures (x + y + carry) % T32 == ((x % T32 + y) % T32 + carry) % T32
  {
  }

  lemma SmallMod(x: int)
    requires 0 <= x < T32
    ensures x % T32 == x
  {
  }

  lemma LowProduct(lo: u32, base: int)
    requires 0 <= base <= T16
    ensures var (l, q) := LowTimes(lo, base);
            0 <= l < T32 && 0 <= q && lo * base == l + q * T32
  {
    var a, b := lo % T16, lo / T16;
    MulBounds(a, base);
    MulBounds(b, base);
    Distribute(a, b, T16, base);
    Recombined(a * base, b * base);
    SmallMod(a * base);
    SmallMod(b * base);
  }

  lemma AddDigit(p: int, q: int, l: int, d: int)
    requires 0 <= l < T32 && 0 <= d <= 36
    ensures var (hi, lo) := AddCarry(p, q, l, d); Pair(hi, lo) == ((p + q) * T32 + l + d) % T64
  {
    var h, w := (p % T32 + q) % T32, (l + d) % T32;
    if l + d >= T32 {
      assert w == l + d - T32;
      ModHigh(p + q + 1, w);
      HighPart(p, q, 1);
    } else {
      ModHigh(p + q, w);
      HighPart(p, q, 0);
    }
  }

  /** The step computes (value * base + digit) mod 2^64, for every base up to 2^16. */
  lemma MulAddIs(hi: u32, lo: u32, base: int, d: int)
    requires 0 <= base <= T16 && 0 <= d <= 36
    ensures var (hi', lo') := MulAdd(hi, lo, base, d);
            Pair(hi', lo') == (Pair(hi, lo) * base + d) % T64
  {
    var (l, q) := LowTimes(lo, base);
    LowProduct(lo, base);
    var p := hi * base;
    AddDigit(p, q, l, d);
    Distribute(lo, hi, T32, base);
    assert Pair(hi, lo) * base == (p + q) * T32 + l;
  }

  ghost predicate Exact(hi: u32, lo: u32, base: int, d: int) {
    var (hi', lo') := MulAdd(hi, lo, base, d);
    Pair(hi', lo') == (Pair(hi, lo) * base + d) % T64
  }

  /** These are all the bases for which it does. */
  lemma ExactBases(base: u32)
    ensures (forall hi: u32, lo: u32, d: int :: 0 <= d <= 36 ==> Exact(hi, lo, base, d)) <==> base <= T16
  {
    if base <= T16 {
      forall hi: u32, lo: u32, d: int | 0 <= d <= 36
        ensures Exact(hi, lo, base, d)
      {
        MulAddIs(hi, lo, base, d);
      }
    } else if base == T16 + 1 {
      assert LowTimes(0xFFFF_FFFF, base) == (0xFFFF + 0xFFFE * T16, 0);
      assert !Exact(0, 0xFFFF_FFFF, base, 0);
    } else {
      LostCarry(base);
      assert !Exact(0, 0xFFFF, base, 0);
    }
  }

  /** The product 0xFFFF * base does not fit in 32 bits, and its upper half is lost. */
  lemma LostCarry(base: u32)
    requires base > T16 + 1
    ensures !Exact(0, 0xFFFF, base, 0)
  {
    var x := 0xFFFF * base;
    assert T32 <= x < T64;
    var y := x % T32;
    assert LowTimes(0xFFFF, base) == (y, 0);
  }

  // ----- numerals

  function DigitChar(d: int): char
    requires 0 <= d < 10
  {
    ('0' as int + d) as char
  }

  /** The decimal numeral of a number, most significant digit first. */
  function Numeral(n: nat): (s: string)
    ensures s != []
  {
    if n < 10 then [DigitChar(n)] else Numeral(n / 10) + [DigitChar(n % 10)]
  }

  predicate IsDigits(s: string) {
    forall i :: 0 <= i < |s| ==> '0' <= s[i] <= '9'
  }

  /** The number a string of digits stands for, starting from `acc`. */
  function Value(s: string, acc: nat): nat
    requires IsDigits(s)
  {
    if s == [] then acc else Value(s[1..], acc * 10 + (s[0] as int - '0' as int))
  }

  lemma {:induction false} ValueSnoc(s: string, c: char, acc: nat)
    requires IsDigits(s) && '0' <= c <= '9'
    ensures IsDigits(s + [c]) && Value(s + [c], acc) == Value(s, acc) * 10 + (c as int - '0' as int)
  {
    if s == [] {
      assert [] + [c] == [c] && Value([], acc * 10 + (c as int - '0' as int)) == acc * 10 + (c as int - '0' as int);
      assert [c][1..] == [];
    } else {
      ValueSnoc(s[1..], c, acc * 10 + (s[0] as int - '0' as int));
      assert (s + [c])[1..] == s[1..] + [c];
    }
  }

  /** A numeral stands for its number, and has no leading zero unless it is "0". */
  lemma {:induction false} NumeralValue(n: nat)
    ensures IsDigits(Numeral(n)) && Value(Numeral(n), 0) == n
    ensures Numeral(n)[0] == '0' <==> n == 0
    ensures n < 10 ==> |Numeral(n)| == 1
  {
    if n < 10 {
      assert Value([], n) == n && [DigitChar(n)][1..] == [];
    } else {
      NumeralValue(n / 10);
      ValueSnoc(Numeral(n / 10), DigitChar(n % 10), 0);
    }
  }

  function Pow10(k: nat): nat {
    if k == 0 then 1 else 10 * Pow10(k - 1)
  }

  /** A number below 10^k has at most k digits; 64-bit numbers have at most 20. */
  lemma {:induction false} NumeralLength(n: nat, k: nat)
    requires k > 0 && n < Pow10(k)
    ensures |Numeral(n)| <= k
    decreases k
  {
    if n >= 10 {
      NumeralLength(n / 10, k - 1);
    }
  }

  lemma Pow10Of20()
    ensures Pow10(20) > T64
  {
    assert Pow10(5) == 100000;
    assert Pow10(10) == 10000000000;
    assert Pow10(15) == 1000000000000000;
  }
}
