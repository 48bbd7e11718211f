/** strtoull() and strtoll() of libc/strtol.c, and the round trip through the numerals of vsnprintf(). */
module Strtol {
  import opened Decimal

  function CharAt(s: string, i: nat): char {
    if i < |s| then s[i] else '\0'
  }

  predicate IsSpace(c: char) {
    c == ' ' || c == '\t' || c == '\n' || c == '\r' || c == 12 as char || c == 11 as char
  }

  /** digit_val() */
  function DigitVal(c: char): (d: int)
    ensures -1 <= d < 36
  {
    if '0' <= c <= '9' then c as int - '0' as int
    else if 'a' <= c <= 'z' then c as int - 'a' as int + 10
    else if 'A' <= c <= 'Z' then c as int - 'A' as int + 10
    else -1
  }

  function SkipSpaces(s: string, i: nat): (k: nat)
    requires i <= |s|
    ensures i <= k <= |s| && !IsSpace(CharAt(s, k))
    decreases |s| - i
  {
    if i < |s| && IsSpace(s[i]) then SkipSpaces(s, i + 1) else i
  }

  predicate IsX(c: char) {
    c == 'x' || c == 'X'
  }

  /** Where the digits start and in which base, once spaces and a plus sign are passed. */
  function Prefix(s: string, i: nat, base: int): (r: (nat, int))
    requires i <= |s|
    ensures i <= r.0 <= |s|
  {
    if base == 0 then
      if CharAt(s, i) == '0' then
        if IsX(CharAt(s, i + 1)) then (i + 2, 16) else (i + 1, 8)
      else (i, 10)
    else if base == 16 && CharAt(s, i) == '0' && IsX(CharAt(s, i + 1)) then (i + 2, 16)
    else (i, base)
  }

  predicate IsDigitOf(c: char, base: int) {
    c != '\0' && 0 <= DigitVal(c) < base
  }

  /** The digits from `i` on, accumulated modulo 2^64, and where they end. */
  function Digits(s: string, i: nat, base: int, acc: u64): (r: (u64, nat))
    requires i <= |s|
    ensures i <= r.1 <= |s|
    decreases |s| - i
  {
    if i < |s| && IsDigitOf(s[i], base) then Digits(s, i + 1, base, (acc * base + DigitVal(s[i])) % T64)
    else (acc, i)
  }

  /** The value strtoull() returns and its end pointer, for a string that starts at `start`. */
  function ParseUnsigned(s: string, start: nat, base: int): (r: (u64, nat))
    requires start <= |s|
    ensures start <= r.1 <= |s|
  {
    var i := SkipSpaces(s, start);
    var j := if CharAt(s, i) == '+' then i + 1 else i;
    var (k, b) := Prefix(s, j, base);
    var (v, e) := Digits(s, k, b, 0);
    (v, if e > k then e else start)
  }

  /** The body of the digit loop: hi:lo times the base plus the digit, in 32-bit words. */
  method TimesPlus(hi0: u32, lo0: u32, base: nat, d: nat) returns (hi: u32, lo: u32)
    requires d < base
    ensures (hi, lo) == MulAdd(hi0, lo0, base, d)
  {
    hi := hi0 * base % T32;
    var loLo := lo0 % T16 * base % T32;
    var loHi := lo0 / T16 * base % T32;
    var mid := (loHi + loLo / T16) % T32;
    lo := loLo % T16 + mid % T16 * T16;
    hi := (hi + mid / T16) % T32;
    lo := (lo + d) % T32;
    if lo < d {
      hi := (hi + 1) % T32;
    }
  }

  method ScanSpaces(s: string, start: nat) returns (i: nat)
    requires start <= |s|
    ensures i == SkipSpaces(s, start)
  {
    i := start;
    while i < |s| && IsSpace(s[i])
      invariant start <= i <= |s| && SkipSpaces(s, start) == SkipSpaces(s, i)
      decreases |s| - i
    {
      i := i + 1;
    }
  }

  method ScanPrefix(s: string, start: nat, base0: int) returns (i: nat, base: int)
    requires start <= |s|
    ensures (i, base) == Prefix(s, start, base0)
  {
    i, base := start, base0;
    if base == 0 {
      if CharAt(s, i) == '0' {
        i := i + 1;
        if IsX(CharAt(s, i)) {
          base := 16;
          i := i + 1;
        } else {
          base := 8;
        }
      } else {
        base := 10;
      }
    } else if base == 16 {
      if CharAt(s, i) == '0' && IsX(CharAt(s, i + 1)) {
        i := i + 2;
      }
    }
  }

  /** Where the digits end does not depend on their value. */
  lemma {:induction false} EndSame(s: string, i: nat, base: int, acc: u64, acc': u64)
    requires i <= |s|
    ensures Digits(s, i, base, acc).1 == Digits(s, i, base, acc').1
    decreases |s| - i
  {
    if i < |s| && IsDigitOf(s[i], base) {
      var d := DigitVal(s[i]);
      EndSame(s, i + 1, base, (acc * base + d) % T64, (acc' * base + d) % T64);
    }
  }

  lemma PairFits(p: (u32, u32))
    ensures 0 <= Pair(p.0, p.1) < T64
  {
  }

  /** The value is right for bases up to 2^16, the end for all. */
  method ScanDigits(s: string, start: nat, base: int) returns (hi: u32, lo: u32, i: nat, any: bool)
    requires start <= |s| && forall k :: 0 <= k < |s| ==> s[k] != '\0'
    ensures base <= T16 ==> Pair(hi, lo) == Digits(s, start, base, 0).0
    ensures i == Digits(s, start, base, 0).1 && any == (i > start)
  {
    hide MulAdd;
    hi, lo, i, any := 0, 0, start, false;
    while i < |s|
      invariant start <= i <= |s| && any == (i > start)
      invariant base <= T16 ==> 0 <= Pair(hi, lo) < T64 && Digits(s, start, base, 0) == Digits(s, i, base, Pair(hi, lo))
      invariant Digits(s, start, base, 0).1 == Digits(s, i, base, 0).1
      decreases |s| - i
    {
      var d := DigitVal(s[i]);
      if d < 0 || d >= base {
        return;
      }
      if base <= T16 {
        MulAddIs(hi, lo, base, d);
        PairFits(MulAdd(hi, lo, base, d));
      }
      EndSame(s, i + 1, base, (0 * base + d) % T64, 0);
      hi, lo := TimesPlus(hi, lo, base, d);
      any := true;
      i := i + 1;
    }
  }

  /** The value is the pair hi:lo; `end` is what *endptr is set to. */
  method Strtoull(s: string, start: nat, base0: int) returns (hi: u32, lo: u32, end: nat)
    requires start <= |s| && forall k :: 0 <= k < |s| ==> s[k] != '\0'
    ensures base0 <= T16 ==> Pair(hi, lo) == ParseUnsigned(s, start, base0).0
    ensures end == ParseUnsigned(s, start, base0).1
  {
    var i := ScanSpaces(s, start);
    if CharAt(s, i) == '+' {
      i := i + 1;
    }
    var k, base := ScanPrefix(s, i, base0);
    var e, any;
    hi, lo, e, any := ScanDigits(s, k, base);
    end := if any then e else start;
  }

  // ----- signed numbers

  /** Two's complement reading of 64 bits, and negation in it. */
  function Signed(u: u64): i64 {
    if u >= T64 / 2 then u - T64 else u
  }

  function Negate(v: i64): i64 {
    var x: int := v;
    if x == -(T64 / 2) then v else -x
  }

  function ParseSigned(s: string, base: int): (r: (i64, nat))
    ensures r.1 <= |s|
  {
    var i := SkipSpaces(s, 0);
    var j := if CharAt(s, i) == '-' || CharAt(s, i) == '+' then i + 1 else i;
    var (u, e) := ParseUnsigned(s, j, base);
    (if CharAt(s, i) == '-' then Negate(Signed(u)) else Signed(u), if e == j then 0 else e)
  }

  method Strtoll(s: string, base: int) returns (r: i64, end: nat)
    requires forall k :: 0 <= k < |s| ==> s[k] != '\0'
    ensures base <= T16 ==> r == ParseSigned(s, base).0
    ensures end == ParseSigned(s, base).1
  {
    var neg := false;
    var i := ScanSpaces(s, 0);
    if CharAt(s, i) == '-' {
      neg := true;
      i := i + 1;
    } else if CharAt(s, i) == '+' {
      i := i + 1;
    }
    var hi, lo, e := Strtoull(s, i, base);
    r := Signed(Pair(hi, lo));
    if neg {
      r := Negate(r);
    }
    end := if e == i then 0 else e;
  }

  // ----- what vsnprintf() prints

  function Repeat(c: char, k: nat): string {
    if k == 0 then [] else [c] + Repeat(c, k - 1)
  }

  function Pad(width: nat, len: nat): nat {
    if width > len then width - len else 0
  }

  function Sign(neg: bool): string {
    if neg then "-" else ""
  }

  /** The digits of a field: the numeral, after zeros when the field is padded with zeros. */
  function FieldDigits(n: u64, zeros: nat): string {
    Repeat('0', zeros) + Numeral(n)
  }

  /** Spaces, a sign, digits, spaces. */
  function Spaced(before: nat, sign: string, ds: string, after: nat): string {
    Repeat(' ', before) + sign + ds + Repeat(' ', after)
  }

  /** The text of %llu and %lld with a width: padded with spaces on the left or the right, or with zeros
      after the sign. */
  function Field(neg: bool, n: u64, width: nat, zero: bool, left: bool): string {
    var pad := Pad(width, |Sign(neg)| + |Numeral(n)|);
    Spaced(if left || zero then 0 else pad, Sign(neg), FieldDigits(n, if zero && !left then pad else 0),
           if left then pad else 0)
  }

  function Magnitude(v: i64): u64 {
    if v < 0 then -(v as int) else v
  }

  lemma {:induction false} RepeatIs(c: char, k: nat)
    ensures |Repeat(c, k)| == k && forall i :: 0 <= i < k ==> Repeat(c, k)[i] == c
  {
    if k > 0 {
      RepeatIs(c, k - 1);
    }
  }

  lemma {:induction false} LeadingZeros(k: nat, s: string)
    requires IsDigits(s)
    ensures IsDigits(Repeat('0', k) + s) && Value(Repeat('0', k) + s, 0) == Value(s, 0)
  {
    if k == 0 {
      assert [] + s == s;
    } else {
      LeadingZeros(k - 1, s);
      var t := Repeat('0', k - 1) + s;
      assert Repeat('0', k) + s == ['0'] + t;
      assert (['0'] + t)[1..] == t;
    }
  }

  /** The digits of a field stand for its number. */
  lemma FieldDigitsValue(n: u64, zeros: nat)
    ensures var ds := FieldDigits(n, zeros);
            ds != [] && IsDigits(ds) && Value(ds, 0) == n && |ds| == zeros + |Numeral(n)|
  {
    NumeralValue(n);
    RepeatIs('0', zeros);
    LeadingZeros(zeros, Numeral(n));
  }

  lemma {:induction false} ValueGrows(s: string, acc: nat)
    requires IsDigits(s)
    ensures Value(s, acc) >= acc
    decreases |s|
  {
    if s != [] {
      ValueGrows(s[1..], acc * 10 + (s[0] as int - '0' as int));
    }
  }

  /** The characters of `ds` stand in `s` from `i` on. */
  ghost predicate Stands(s: string, i: nat, ds: string) {
    i + |ds| <= |s| && forall k :: 0 <= k < |ds| ==> s[i + k] == ds[k]
  }

  /** Reading decimal digits gives the number they stand for, as long as it fits in 64 bits. */
  lemma {:induction false} DigitsRead(s: string, i: nat, ds: string, acc: u64)
    requires Stands(s, i, ds) && IsDigits(ds) && Value(ds, acc) < T64
    requires !IsDigitOf(CharAt(s, i + |ds|), 10)
    ensures Digits(s, i, 10, acc) == (Value(ds, acc), i + |ds|)
    decreases |ds|
  {
    if ds == [] { return; }
    assert s[i + 0] == ds[0];
    forall k | 0 <= k < |ds[1..]|
      ensures s[i + 1 + k] == ds[1..][k]
    {
      assert s[i + (k + 1)] == ds[k + 1];
    }
    ValueGrows(ds[1..], acc * 10 + DigitVal(s[i]));
    DigitsRead(s, i + 1, ds[1..], acc * 10 + DigitVal(s[i]));
  }

  lemma {:induction false} SpacesSkipped(s: string, i: nat, a: nat)
    requires i <= a <= |s| && (forall k :: i <= k < a ==> s[k] == ' ') && !IsSpace(CharAt(s, a))
    ensures SkipSpaces(s, i) == a
    decreases a - i
  {
    if i < a {
      SpacesSkipped(s, i + 1, a);
    }
  }

  /** Spaces, then digits that fit in 64 bits, then nothing that is a digit. */
  lemma UnsignedRead(s: string, start: nat, a: nat, ds: string)
    requires start <= a && ds != [] && Stands(s, a, ds) && IsDigits(ds) && Value(ds, 0) < T64
    requires (forall i :: start <= i < a ==> s[i] == ' ') && !IsDigitOf(CharAt(s, a + |ds|), 10)
    ensures ParseUnsigned(s, start, 10) == (Value(ds, 0), a + |ds|)
  {
    assert s[a + 0] == ds[0];
    SpacesSkipped(s, start, a);
    DigitsRead(s, a, ds, 0);
  }

  /** `s` is `a` spaces, a minus sign if `neg`, and digits, with no digit after them. */
  ghost predicate LaidOut(s: string, a: nat, neg: bool, ds: string) {
    var b := if neg then a + 1 else a;
    && (forall i :: 0 <= i < a ==> i < |s| && s[i] == ' ')
    && (neg ==> a < |s| && s[a] == '-')
    && Stands(s, b, ds) && ds != [] && !IsDigitOf(CharAt(s, b + |ds|), 10)
  }

  /** The characters of four strings put together. */
  lemma Joined(a: string, b: string, c: string, d: string)
    ensures var s := a + b + c + d;
            && |s| == |a| + |b| + |c| + |d| && (forall i :: 0 <= i < |a| ==> s[i] == a[i])
            && (b != [] ==> s[|a|] == b[0]) && Stands(s, |a| + |b|, c)
            && (d != [] ==> s[|a| + |b| + |c|] == d[0])
  {
    var s := a + b + c + d;
    assert forall k :: 0 <= k < |c| ==> s[|a| + |b| + k] == c[k];
  }

  lemma SpacedParts(before: nat, neg: bool, ds: string, after: nat)
    requires ds != []
    ensures var s := Spaced(before, Sign(neg), ds, after);
            LaidOut(s, before, neg, ds) && |s| == before + |Sign(neg)| + |ds| + after
  {
    hide Stands, Repeat;
    RepeatIs(' ', before);
    RepeatIs(' ', after);
    Joined(Repeat(' ', before), Sign(neg), ds, Repeat(' ', after));
  }

  /** Every field is laid out as spaces, sign and digits that stand for the number. */
  lemma FieldParts(neg: bool, n: u64, width: nat, zero: bool, left: bool) returns (a: nat, ds: string)
    ensures var s := Field(neg, n, width, zero, left);
            && LaidOut(s, a, neg, ds) && IsDigits(ds) && Value(ds, 0) == n
            && a + |Sign(neg)| + |ds| == if left then |Sign(neg)| + |Numeral(n)| else |s|
  {
    var pad := Pad(width, |Sign(neg)| + |Numeral(n)|);
    var zeros := if zero && !left then pad else 0;
    a, ds := if left || zero then 0 else pad, FieldDigits(n, zeros);
    FieldDigitsValue(n, zeros);
    SpacedParts(a, neg, ds, if left then pad else 0);
  }

  lemma LaidOutUnsigned(s: string, a: nat, ds: string)
    requires LaidOut(s, a, false, ds) && IsDigits(ds) && Value(ds, 0) < T64
    ensures ParseUnsigned(s, 0, 10) == (Value(ds, 0), a + |ds|)
  {
    UnsignedRead(s, 0, a, ds);
  }

  lemma LaidOutNegative(s: string, a: nat, ds: string)
    requires LaidOut(s, a, true, ds) && IsDigits(ds) && Value(ds, 0) < T64
    ensures ParseSigned(s, 10) == (Negate(Signed(Value(ds, 0))), a + 1 + |ds|)
  {
    SpacesSkipped(s, 0, a);
    UnsignedRead(s, a + 1, a + 1, ds);
  }

  lemma LaidOutPositive(s: string, a: nat, ds: string)
    requires LaidOut(s, a, false, ds) && IsDigits(ds) && Value(ds, 0) < T64
    ensures ParseSigned(s, 10) == (Signed(Value(ds, 0)), a + |ds|)
  {
    assert Stands(s, a, ds);
    assert s[a + 0] == ds[0];
    SpacesSkipped(s, 0, a);
    UnsignedRead(s, a, a, ds);
  }

  /** Round trip: strtoull() in base 10 undoes %llu with any width and padding, for every 64-bit
      number, and stops after its digits. */
  lemma UnsignedRoundTrip(n: u64, width: nat, zero: bool, left: bool)
    ensures var s := Field(false, n, width, zero, left);
            ParseUnsigned(s, 0, 10) == (n, if left then |Numeral(n)| else |s|)
  {
    var a, ds := FieldParts(false, n, width, zero, left);
    LaidOutUnsigned(Field(false, n, width, zero, left), a, ds);
  }

  /** Reading a laid out number back, in terms of what the text is made of. */
  lemma SignedRead(s: string, v: i64, a: nat, ds: string)
    requires LaidOut(s, a, v < 0, ds) && IsDigits(ds) && Value(ds, 0) == Magnitude(v)
    ensures ParseSigned(s, 10) == (v, a + |Sign(v < 0)| + |ds|)
  {
    if v < 0 {
      LaidOutNegative(s, a, ds);
    } else {
      LaidOutPositive(s, a, ds);
    }
  }

  /** Round trip: strtoll() in base 10 undoes %lld, for every 64-bit signed number. */
  lemma SignedRoundTrip(v: i64, width: nat, zero: bool, left: bool)
    ensures var s := Field(v < 0, Magnitude(v), width, zero, left);
            ParseSigned(s, 10) == (v, if left then |Sign(v < 0)| + |Numeral(Magnitude(v))| else |s|)
  {
    var a, ds := FieldParts(v < 0, Magnitude(v), width, zero, left);
    SignedRead(Field(v < 0, Magnitude(v), width, zero, left), v, a, ds);
  }

  /** With base 0 the value is still right, but the end pointer is not moved over "0": the digit is
      taken for the mark of an octal number without digits. */
  lemma BaseZeroRoundTrip(n: u64)
    ensures ParseUnsigned(Numeral(n), 0, 0).0 == n
    ensures ParseUnsigned(Numeral(n), 0, 0).1 == |Numeral(n)| <==> n != 0
  {
    var s := Numeral(n);
    NumeralValue(n);
    SpacesSkipped(s, 0, 0);
    if n != 0 {
      DigitsRead(s, 0, s, 0);
    }
  }
}
