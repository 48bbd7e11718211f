/** What strtoull() and strtoll() of libc/strtol.c read from numerals of every base, and the shape of the fields that
  vsnprintf() prints. */
module Numerals {
  import opened Decimal
  import opened Strtol

  // ----- numerals of any base

  /** The digits: 0 to 9, then the letters in either case. */
  function DigitIn(d: int, upper: bool): char
    requires 0 <= d < 36
  {
    if d < 10 then ('0' as int + d) as char
    else if upper then ('A' as int + (d - 10)) as char
    else ('a' as int + (d - 10)) as char
  }

  /** The numeral of a number, most significant digit first. */
  function NumeralIn(n: nat, base: nat, upper: bool): (s: string)
    requires 2 <= base <= 36
    ensures s != []
    decreases n
  {
    if n < base then [DigitIn(n, upper)] else NumeralIn(n / base, base, upper) + [DigitIn(n % base, upper)]
  }

  predicate Blank(c: char) {
    c == ' ' || 9 <= c as int <= 13
  }

  /** The character is no digit of the base, in neither case. */
  predicate NoDigit(c: char, base: nat)
    requires base <= 36
  {
    forall d, upper: bool :: 0 <= d < base ==> c != DigitIn(d, upper)
  }

  lemma DigitBack(d: int, upper: bool)
    requires 0 <= d < 36
    ensures var c := DigitIn(d, upper);
            DigitVal(c) == d && !IsSpace(c) && c != '+' && c != '-' && c != '\0' && (c == '0' <==> d == 0)
            && (d < 16 ==> !IsX(c))
  {
  }

  lemma DigitOf(c: char)
    ensures DigitVal(c) >= 0 ==> c == DigitIn(DigitVal(c), false) || c == DigitIn(DigitVal(c), true)
  {
  }

  lemma NoDigitIs(c: char, base: nat)
    requires base <= 36 && NoDigit(c, base)
    ensures !IsDigitOf(c, base)
  {
    DigitOf(c);
  }

  lemma BlankIs(c: char)
    ensures IsSpace(c) <==> Blank(c)
  {
  }

  lemma {:induction false} SkipBlanks(s: string, i: nat, a: nat)
    requires i <= a <= |s| && (forall k :: i <= k < a ==> Blank(s[k])) && !Blank(CharAt(s, a))
    ensures SkipSpaces(s, i) == a
    decreases a - i
  {
    BlankIs(CharAt(s, i));
    if i < a {
      SkipBlanks(s, i + 1, a);
    }
  }

  lemma {:induction false} FirstDigit(n: nat, base: nat, upper: bool)
    requires 2 <= base <= 36
    ensures var c := NumeralIn(n, base, upper)[0];
            !Blank(c) && c != '+' && c != '-' && (c == '0' <==> n == 0) && (base <= 16 ==> !IsX(c))
    decreases n
  {
    if n < base {
      DigitBack(n, upper);
      BlankIs(DigitIn(n, upper));
    } else {
      FirstDigit(n / base, base, upper);
    }
  }

  lemma StandsFront(s: string, i: nat, front: string, c: char)
    requires Stands(s, i, front + [c])
    ensures Stands(s, i, front) && i + |front| < |s| && s[i + |front|] == c
  {
    assert forall k :: 0 <= k < |front| ==> (front + [c])[k] == front[k];
    assert (front + [c])[|front|] == c;
  }

  /** The last digit of a numeral, and the numeral before it. */
  lemma NumeralSplit(n: nat, base: nat, upper: bool) returns (q: nat, d: nat)
    requires 2 <= base <= 36 && n >= base
    ensures q * base + d == n && q < n && d < base
    ensures NumeralIn(n, base, upper) == NumeralIn(q, base, upper) + [DigitIn(d, upper)]
  {
    q, d := n / base, n % base;
    DivideBy(n, base, q, d);
  }

  lemma DivideBy(n: nat, base: nat, q: nat, d: nat)
    requires base >= 2 && q == n / base && d == n % base
    ensures q * base + d == n && d < base && (n > 0 ==> q < n)
  {
    NotLess(q, base - 2);
    assert q * (base - 2) == q * base - 2 * q;
  }

  lemma OneDigitNumeral(n: nat, base: nat, upper: bool)
    requires 2 <= base <= 36 && n < base
    ensures NumeralIn(n, base, upper) == "" + [DigitIn(n, upper)]
  {
  }

  /** The digits of a numeral are read as its number. */
  lemma {:induction false} NumeralRead(s: string, i: nat, n: u64, base: nat, upper: bool)
    requires 2 <= base <= 36 && Stands(s, i, NumeralIn(n, base, upper))
    ensures var e := i + |NumeralIn(n, base, upper)|; Digits(s, i, base, 0) == Digits(s, e, base, n)
    decreases n
  {
    hide Digits, Stands, DigitIn, NumeralIn;
    if n < base {
      OneDigitNumeral(n, base, upper);
      StandsFront(s, i, "", DigitIn(n, upper));
      OneDigit(s, i, base, 0, n, upper);
      return;
    }
    var q, d := NumeralSplit(n, base, upper);
    var front := NumeralIn(q, base, upper);
    StandsFront(s, i, front, DigitIn(d, upper));
    NumeralRead(s, i, q, base, upper);
    OneDigit(s, i + |front|, base, q, d, upper);
  }

  lemma OneDigit(s: string, i: nat, base: nat, acc: u64, d: nat, upper: bool)
    requires d < base <= 36 && i < |s| && s[i] == DigitIn(d, upper) && acc * base + d < T64
    ensures Digits(s, i, base, acc) == Digits(s, i + 1, base, acc * base + d)
  {
    DigitBack(d, upper);
    hide DigitIn, DigitVal;
    NotLess(acc, base);
    OneTurn(s, i, base, acc, acc * base + d);
  }

  lemma OneTurn(s: string, i: nat, base: nat, acc: u64, x: u64)
    requires i < |s| && IsDigitOf(s[i], base) && x == acc * base + DigitVal(s[i])
    ensures Digits(s, i, base, acc) == Digits(s, i + 1, base, x)
  {
    hide IsDigitOf, DigitVal;
    assert x % T64 == x;
  }

  lemma DigitsEnd(s: string, i: nat, n: u64, base: nat, upper: bool)
    requires 2 <= base <= 36 && Stands(s, i, NumeralIn(n, base, upper))
      && NoDigit(CharAt(s, i + |NumeralIn(n, base, upper)|), base)
    ensures Digits(s, i, base, 0) == (n, i + |NumeralIn(n, base, upper)|)
  {
    NumeralRead(s, i, n, base, upper);
    NoDigitIs(CharAt(s, i + |NumeralIn(n, base, upper)|), base);
  }

  /** From `start` to `a` there are blanks, and a plus sign behind them if `plus`. */
  predicate Leads(s: string, start: nat, a: nat, plus: bool) {
    start <= a < |s| && (forall i :: start <= i < a ==> Blank(s[i])) && (plus ==> s[a] == '+')
  }

  function Behind(a: nat, sign: bool): nat {
    if sign then a + 1 else a
  }

  /** The numeral stands in s from `i` on, and there is no further digit behind it. */
  ghost predicate Ends(s: string, i: nat, n: nat, base: nat, upper: bool)
    requires 2 <= base <= 36
  {
    Stands(s, i, NumeralIn(n, base, upper)) && NoDigit(CharAt(s, i + |NumeralIn(n, base, upper)|), base)
  }

  lemma EndsFirst(s: string, i: nat, n: nat, base: nat, upper: bool)
    requires 2 <= base <= 36 && Ends(s, i, n, base, upper)
    ensures i < |s| && !Blank(s[i]) && s[i] != '+' && s[i] != '-' && (s[i] == '0' <==> n == 0)
      && (base <= 16 ==> !IsX(s[i]))
  {
    FirstDigit(n, base, upper);
    assert s[i + 0] == NumeralIn(n, base, upper)[0];
  }

  /** strtoull() reads the numerals of every base, in either case, behind blanks and a plus sign. (In base 16 a zero in
      front of an x is taken for a prefix.) */
  lemma ReadInBase(s: string, start: nat, a: nat, plus: bool, n: u64, base: nat, upper: bool)
    requires 2 <= base <= 36 && Leads(s, start, a, plus) && Ends(s, Behind(a, plus), n, base, upper)
    requires base == 16 && n == 0 ==> !IsX(CharAt(s, Behind(a, plus) + 1))
    ensures ParseUnsigned(s, start, base) == (n, Behind(a, plus) + |NumeralIn(n, base, upper)|)
  {
    var b := Behind(a, plus);
    EndsFirst(s, b, n, base, upper);
    SkipBlanks(s, start, a);
    DigitsEnd(s, b, n, base, upper);
  }

  /** Behind 0x the numeral is read in base 16, if the base is 16 or left to the text. */
  lemma ReadHex(s: string, start: nat, a: nat, plus: bool, n: u64, upper: bool)
    requires Leads(s, start, a, plus) && Behind(a, plus) + 1 < |s|
    requires var b := Behind(a, plus); s[b] == '0' && (s[b + 1] == 'x' || s[b + 1] == 'X')
    requires Ends(s, Behind(a, plus) + 2, n, 16, upper)
    ensures var e := Behind(a, plus) + 2 + |NumeralIn(n, 16, upper)|;
            ParseUnsigned(s, start, 0) == ParseUnsigned(s, start, 16) == (n, e)
  {
    var b := Behind(a, plus);
    SkipBlanks(s, start, a);
    DigitsEnd(s, b + 2, n, 16, upper);
    hide NumeralIn, Digits, NoDigit, Stands;
  }

  /** In base 0, a zero says that the numeral behind it is in base 8. */
  lemma ReadOctal(s: string, start: nat, a: nat, plus: bool, n: u64, upper: bool)
    requires Leads(s, start, a, plus) && Behind(a, plus) < |s|
    requires s[Behind(a, plus)] == '0' && Ends(s, Behind(a, plus) + 1, n, 8, upper)
    ensures ParseUnsigned(s, start, 0) == (n, Behind(a, plus) + 1 + |NumeralIn(n, 8, upper)|)
  {
    var b := Behind(a, plus);
    SkipBlanks(s, start, a);
    EndsFirst(s, b + 1, n, 8, upper);
    DigitsEnd(s, b + 1, n, 8, upper);
    hide NumeralIn, Digits, NoDigit, Stands;
  }

  /** In base 0, a numeral without a leading zero is decimal. */
  lemma ReadDecimal(s: string, start: nat, a: nat, plus: bool, n: u64, upper: bool)
    requires Leads(s, start, a, plus) && n != 0 && Ends(s, Behind(a, plus), n, 10, upper)
    ensures ParseUnsigned(s, start, 0) == (n, Behind(a, plus) + |NumeralIn(n, 10, upper)|)
  {
    var b := Behind(a, plus);
    EndsFirst(s, b, n, 10, upper);
    SkipBlanks(s, start, a);
    DigitsEnd(s, b, n, 10, upper);
    hide NumeralIn, Digits, NoDigit, Stands;
  }

  /** Where there is no digit nothing is read: the value is 0 and the end pointer stays at the start of the text. */
  lemma NothingRead(s: string, start: nat, a: nat, plus: bool, base: nat)
    requires 2 <= base <= 36 && Leads(s, start, a, plus)
    requires var c := CharAt(s, Behind(a, plus)); !Blank(c) && NoDigit(c, base) && (c == '+' ==> plus)
    ensures ParseUnsigned(s, start, base) == (0, start)
  {
    var b := Behind(a, plus);
    assert DigitIn(0, false) == '0';
    NoDigitIs(CharAt(s, b), base);
    SkipBlanks(s, start, a);
  }

  /** And so with strtoll(), whatever sign there is. */
  lemma NothingReadSigned(s: string, a: nat, sign: string, base: nat)
    requires 2 <= base <= 36 && Leads(s, 0, a, sign == "+") && (sign == "" || sign == "+" || sign == "-")
    requires (sign == "-" ==> s[a] == '-') && (sign == "" ==> s[a] != '-')
    requires var c := CharAt(s, a + |sign|); !Blank(c) && NoDigit(c, base) && c != '+'
    ensures ParseSigned(s, base) == (0, 0)
  {
    hide NoDigit;
    var j := a + |sign|;
    if sign != "" {
      BlankIs(s[a]);
    }
    SkipBlanks(s, 0, a);
    BlankIs(CharAt(s, j));
    NoDigitIs(CharAt(s, j), base);
    ZeroIsDigit(base, CharAt(s, j));
  }

  lemma ZeroIsDigit(base: nat, c: char)
    requires 2 <= base <= 36 && NoDigit(c, base)
    ensures c != '0'
  {
    assert DigitIn(0, false) == '0';
  }

  /** strtoll() reads a numeral behind blanks and a sign, minus or plus or none, as the number with that sign. */
  lemma ReadSigned(s: string, a: nat, sign: string, v: i64, base: nat, upper: bool)
    requires 2 <= base <= 36 && Leads(s, 0, a, sign == "+") && (sign == "" || sign == "+" || sign == "-")
    requires (sign == "-" ==> s[a] == '-' && v <= 0) && (sign != "-" ==> v >= 0)
    requires Ends(s, a + |sign|, if v < 0 then 0 - v else v, base, upper)
    requires base == 16 && v == 0 ==> !IsX(CharAt(s, a + |sign| + 1))
    ensures ParseSigned(s, base) == (v, a + |sign| + |NumeralIn(if v < 0 then 0 - v else v, base, upper)|)
  {
    hide NumeralIn, NoDigit, Stands;
    var n := if v < 0 then 0 - v else v;
    var j := a + |sign|;
    EndsFirst(s, j, n, base, upper);
    SkipBlanks(s, 0, a);
    ReadInBase(s, j, j, false, n, base, upper);
  }

  // ----- fields

  /** A field is as long as its width, or as its sign and numeral if these are longer. The rest of it is blank, on the
      right or on the left, or zeros between the sign and the numeral. */
  lemma FieldShape(neg: bool, n: u64, width: nat, zero: bool, left: bool)
    ensures var s, sign, num := Field(neg, n, width, zero, left), if neg then "-" else "", Numeral(n);
            && |s| == (if width > |sign| + |num| then width else |sign| + |num|)
            && var pad := |s| - |sign| - |num|;
               if left then s[..|sign| + |num|] == sign + num && forall k :: |sign| + |num| <= k < |s| ==> s[k] == ' '
               else if zero then
                 && s[..|sign|] == sign && s[|sign| + pad..] == num
                 && forall k :: |sign| <= k < |sign| + pad ==> s[k] == '0'
               else s[pad..] == sign + num && forall k :: 0 <= k < pad ==> s[k] == ' '
  {
    var sign, num := Sign(neg), Numeral(n);
    var pad := Pad(width, |sign| + |num|);
    FieldIs(neg, n, width, zero, left, pad);
    RepeatIs(' ', pad);
    RepeatIs('0', pad);
    hide Field, Repeat, Numeral;
    if left {
      PadBehind(sign + num, Repeat(' ', pad), ' ');
    } else if zero {
      PadBetween(sign, Repeat('0', pad), num, '0');
    } else {
      PadBefore(Repeat(' ', pad), sign + num, ' ');
    }
  }

  lemma FieldIs(neg: bool, n: u64, width: nat, zero: bool, left: bool, pad: nat)
    requires pad == Pad(width, |Sign(neg)| + |Numeral(n)|)
    ensures Field(neg, n, width, zero, left) ==
            if left then Sign(neg) + Numeral(n) + Repeat(' ', pad)
            else if zero then Sign(neg) + Repeat('0', pad) + Numeral(n)
            else Repeat(' ', pad) + Sign(neg) + Numeral(n)
  {
    hide Numeral;
    assert Repeat(' ', 0) == [] && Repeat('0', 0) == [];
  }

  lemma PadBehind(t: string, pad: string, c: char)
    requires forall k :: 0 <= k < |pad| ==> pad[k] == c
    ensures var s := t + pad; s[..|t|] == t && forall k :: |t| <= k < |s| ==> s[k] == c
  {
  }

  lemma PadBefore(pad: string, t: string, c: char)
    requires forall k :: 0 <= k < |pad| ==> pad[k] == c
    ensures var s := pad + t; s[|pad|..] == t && forall k :: 0 <= k < |pad| ==> s[k] == c
  {
  }

  lemma PadBetween(sign: string, pad: string, num: string, c: char)
    requires forall k :: 0 <= k < |pad| ==> pad[k] == c
    ensures var s := sign + pad + num;
            && s[..|sign|] == sign && s[|sign| + |pad|..] == num
            && forall k :: |sign| <= k < |sign| + |pad| ==> s[k] == c
  {
  }
}
