/** The %llu and %lld conversions of vsnprintf() (libc/sprintf.c). */
module Sprintf {
  import opened Decimal
  import opened Strtol

  // ----- the output buffer

  /** `text` is what has been emitted; the buffer holds the part of it that fits before the last byte. */
  ghost predicate Holds(buf: seq<char>, limit: int, text: string) {
    limit <= |buf| && forall k :: 0 <= k < |text| && k < limit - 1 ==> buf[k] == text[k]
  }

  /** The bytes from the limit on are not touched. */
  twostate predicate Spared(buf: array<char>, limit: int)
    reads buf
  {
    forall k :: 0 <= k < buf.Length && limit - 1 <= k ==> buf[k] == old(buf[k])
  }

  method EmitChar(buf: array<char>, pos: nat, limit: int, c: char, ghost text: string) returns (pos': nat)
    requires Holds(buf[..], limit, text) && pos == |text|
    modifies buf
    ensures Holds(buf[..], limit, text + [c]) && pos' == |text| + 1 && Spared(buf, limit)
  {
    if pos < limit - 1 {
      buf[pos] := c;
    }
    pos' := pos + 1;
  }

  lemma {:induction false} RepeatSnoc(c: char, k: nat)
    ensures Repeat(c, k) + [c] == Repeat(c, k + 1)
  {
    if k > 0 {
      RepeatSnoc(c, k - 1);
    }
  }

  /** while (pad-- > 0) pos = emit_char(..., c) */
  method EmitPad(buf: array<char>, pos: nat, limit: int, c: char, pad: nat, ghost text: string)
    returns (pos': nat)
    requires Holds(buf[..], limit, text) && pos == |text|
    modifies buf
    ensures Holds(buf[..], limit, text + Repeat(c, pad)) && pos' == |text| + pad && Spared(buf, limit)
  {
    pos' := pos;
    ghost var t := text;
    assert text + Repeat(c, 0) == text;
    for i := 0 to pad
      invariant Holds(buf[..], limit, t) && pos' == |t| == |text| + i && Spared(buf, limit)
      invariant t == text + Repeat(c, i)
    {
      pos' := EmitChar(buf, pos', limit, c, t);
      RepeatSnoc(c, i);
      assert t + [c] == text + (Repeat(c, i) + [c]);
      t := t + [c];
    }
  }

  /** The digits of `tmp` are emitted from the last to the first. */
  method EmitDigits(buf: array<char>, pos: nat, limit: int, tmp: array<char>, len: nat, ghost text: string,
                    ghost ds: string)
    returns (pos': nat)
    requires buf != tmp && Holds(buf[..], limit, text) && pos == |text| && len <= tmp.Length
    requires |ds| == len && forall k :: 0 <= k < len ==> tmp[k] == ds[len - 1 - k]
    modifies buf
    ensures Holds(buf[..], limit, text + ds) && pos' == |text| + len && Spared(buf, limit)
  {
    pos' := pos;
    ghost var t := text;
    var i := len;
    assert text + ds[..0] == text;
    while i > 0
      invariant 0 <= i <= len && Holds(buf[..], limit, t) && pos' == |t| && Spared(buf, limit)
      invariant t == text + ds[..len - i]
    {
      i := i - 1;
      pos' := EmitChar(buf, pos', limit, tmp[i], t);
      assert tmp[i] == ds[len - 1 - i] && ds[..len - i] == ds[..len - i - 1] + [ds[len - i - 1]];
      t := t + [tmp[i]];
    }
    assert ds[..len] == ds;
  }

  // ----- the digits

  function Rest(n: nat): string {
    if n == 0 then [] else Numeral(n)
  }

  /** `tmp` holds the digits of `ds` from the last on, and the numeral of `n` is what is missing. */
  ghost predicate Converted(ds: string, n: nat, tmp: seq<char>, len: nat) {
    && len <= |tmp| && len + |Rest(n)| == |ds|
    && (forall k :: 0 <= k < len ==> tmp[k] == ds[|ds| - 1 - k])
    && (forall k :: 0 <= k < |Rest(n)| ==> ds[k] == Rest(n)[k])
  }

  lemma ConvertedStep(ds: string, n: nat, tmp: seq<char>, tmp': seq<char>, len: nat)
    requires Converted(ds, n, tmp, len) && n > 0 && len + 1 <= |tmp'|
    requires (forall k :: 0 <= k < len ==> tmp'[k] == tmp[k]) && tmp'[len] == DigitChar(n % 10)
    ensures Converted(ds, n / 10, tmp', len + 1)
  {
    assert Numeral(n) == Rest(n / 10) + [DigitChar(n % 10)];
    assert ds[|Rest(n)| - 1] == Rest(n)[|Rest(n)| - 1];
  }

  /** At most 20 of the 22 bytes of `tmp` are used. */
  lemma Fits(n: u64)
    ensures 1 <= |Numeral(n)| <= 20
  {
    Pow10Of20();
    NumeralLength(n, 20);
  }

  /** tmp[0..len) holds the numeral of hi:lo backwards. */
  method Convert(hi0: u32, lo0: u32) returns (tmp: array<char>, len: nat)
    ensures fresh(tmp) && tmp.Length == 22 && len == |Numeral(Pair(hi0, lo0))| <= 20
    ensures forall k :: 0 <= k < len ==> tmp[k] == Numeral(Pair(hi0, lo0))[len - 1 - k]
  {
    var hi, lo := hi0, lo0;
    tmp, len := new char[22], 0;
    ghost var n: u64 := Pair(hi0, lo0);
    ghost var ds := Numeral(n);
    Fits(n);
    if hi == 0 {
      if lo == 0 {
        assert Numeral(0) == [DigitChar(0)];
        tmp[0] := '0';
        len := 1;
        return;
      }
      while lo > 0
        invariant 0 <= lo && Converted(ds, lo, tmp[..], len)
      {
        ghost var before := tmp[..];
        tmp[len] := DigitChar(lo % 10);
        ConvertedStep(ds, lo, before, tmp[..], len);
        lo, len := lo / 10, len + 1;
      }
    } else {
      hi, lo, len := ConvertLong(hi, lo, tmp, ds);
    }
  }

  /** The loop for a non-zero high word. */
  method ConvertLong(hi0: u32, lo0: u32, tmp: array<char>, ghost ds: string) returns (hi: u32, lo: u32, len: nat)
    requires tmp.Length == 22 && |ds| <= 20 && ds == Numeral(Pair(hi0, lo0)) && hi0 > 0
    modifies tmp
    ensures Converted(ds, 0, tmp[..], len)
  {
    hi, lo, len := hi0, lo0, 0;
    while hi > 0 || lo > 0
      invariant Converted(ds, Pair(hi, lo), tmp[..], len)
      decreases Pair(hi, lo)
    {
      var q := DivTen(hi, lo);
      ghost var before := tmp[..];
      tmp[len] := DigitChar(q.2);
      ConvertedStep(ds, Pair(hi, lo), before, tmp[..], len);
      hi, lo, len := q.0, q.1, len + 1;
    }
  }

  // ----- the conversions

  /** The part of a field before its digits. */
  function Lead(neg: bool, spaces: nat, zeros: nat): string {
    Repeat(' ', spaces) + Sign(neg) + Repeat('0', zeros)
  }

  lemma FieldIs(neg: bool, n: u64, width: nat, zero: bool, left: bool, text: string)
    ensures var pad := Pad(width, |Numeral(n)| + |Sign(neg)|);
            text + Field(neg, n, width, zero, left) ==
            text + Lead(neg, if left || zero then 0 else pad, if zero && !left then pad else 0) + Numeral(n)
            + Repeat(' ', if left then pad else 0)
  {
  }

  method EmitLead(buf: array<char>, pos0: nat, limit: int, neg: bool, spaces: nat, zeros: nat, ghost text: string)
    returns (pos: nat)
    requires Holds(buf[..], limit, text) && pos0 == |text|
    modifies buf
    ensures Holds(buf[..], limit, text + Lead(neg, spaces, zeros)) && Spared(buf, limit)
    ensures pos == |text + Lead(neg, spaces, zeros)|
  {
    pos := EmitPad(buf, pos0, limit, ' ', spaces, text);
    ghost var t := text + Repeat(' ', spaces);
    RepeatIs(' ', spaces);
    assert t + "" == t;
    if neg {
      pos := EmitChar(buf, pos, limit, '-', t);
    }
    t := t + Sign(neg);
    pos := EmitPad(buf, pos, limit, '0', zeros, t);
    RepeatIs('0', zeros);
    assert t + Repeat('0', zeros) == text + Lead(neg, spaces, zeros);
  }

  /** What follows the conversion to digits, shared by 'd' and 'u' (where `neg` is false). */
  method EmitField(buf: array<char>, pos0: nat, limit: int, tmp: array<char>, len: nat, neg: bool, width: nat,
                   padZero: bool, leftAlign: bool, ghost n: u64, ghost text: string)
    returns (pos: nat)
    requires buf != tmp && Holds(buf[..], limit, text) && pos0 == |text| && len == |Numeral(n)| <= tmp.Length
    requires forall k :: 0 <= k < len ==> tmp[k] == Numeral(n)[len - 1 - k]
    modifies buf
    ensures Holds(buf[..], limit, text + Field(neg, n, width, padZero, leftAlign)) && Spared(buf, limit)
    ensures pos == |text + Field(neg, n, width, padZero, leftAlign)|
  {
    hide Numeral, Field, Repeat;
    var total := if neg then len + 1 else len;
    var pad := Pad(width, total);
    var spaces := if leftAlign || padZero then 0 else pad;
    var zeros := if padZero && !leftAlign then pad else 0;
    var after := if leftAlign then pad else 0;
    pos := EmitLead(buf, pos0, limit, neg, spaces, zeros, text);
    ghost var t := text + Lead(neg, spaces, zeros);
    pos := EmitDigits(buf, pos, limit, tmp, len, t, Numeral(n));
    t := t + Numeral(n);
    pos := EmitPad(buf, pos, limit, ' ', after, t);
    RepeatIs(' ', after);
    FieldIs(neg, n, width, padZero, leftAlign, text);
  }

  /** %llu */
  method PrintUnsigned(buf: array<char>, pos0: nat, limit: int, n: u64, width: nat, padZero: bool, leftAlign: bool,
                       ghost text: string) returns (pos: nat)
    requires Holds(buf[..], limit, text) && pos0 == |text|
    modifies buf
    ensures Holds(buf[..], limit, text + Field(false, n, width, padZero, leftAlign)) && Spared(buf, limit)
    ensures pos == |text + Field(false, n, width, padZero, leftAlign)|
  {
    var tmp, len := Convert(n / T32, n % T32);
    pos := EmitField(buf, pos0, limit, tmp, len, false, width, padZero, leftAlign, n, text);
  }

  /** %lld: a negative value is negated in 64 bits, which leaves the least value as it is, and then read
      as an unsigned pair of words. */
  method PrintSigned(buf: array<char>, pos0: nat, limit: int, v: i64, width: nat, padZero: bool, leftAlign: bool,
                     ghost text: string) returns (pos: nat)
    requires Holds(buf[..], limit, text) && pos0 == |text|
    modifies buf
    ensures Holds(buf[..], limit, text + Field(v < 0, Magnitude(v), width, padZero, leftAlign)) && Spared(buf, limit)
    ensures pos == |text + Field(v < 0, Magnitude(v), width, padZero, leftAlign)|
  {
    var ll: int := if v < 0 then Negate(v) else v;
    var n: u64 := ll % T64;
    assert n == Magnitude(v);
    var tmp, len := Convert(n / T32, n % T32);
    pos := EmitField(buf, pos0, limit, tmp, len, v < 0, width, padZero, leftAlign, n, text);
  }

  // ----- one call

  /** The buffer after the call: as much of the text as fits, and a zero byte after it. */
  ghost predicate Printed(buf: seq<char>, limit: int, text: string) {
    limit <= |buf| && (limit > 0 ==>
      var shown := if |text| < limit then |text| else limit - 1;
      buf[..shown] == text[..shown] && buf[shown] == '\0')
  }

  method Terminate(buf: array<char>, pos: nat, limit: int, ghost text: string)
    requires Holds(buf[..], limit, text) && pos == |text|
    modifies buf
    ensures Printed(buf[..], limit, text)
    ensures forall k :: 0 <= k < buf.Length && limit <= k ==> buf[k] == old(buf[k])
  {
    if limit > 0 {
      buf[if pos < limit then pos else limit - 1] := '\0';
    }
  }

  /** vsnprintf() with one %lld and nothing else. */
  method SnprintfSigned(buf: array<char>, limit: int, v: i64, width: nat, padZero: bool, leftAlign: bool)
    returns (pos: nat)
    requires limit <= buf.Length
    modifies buf
    ensures Printed(buf[..], limit, Field(v < 0, Magnitude(v), width, padZero, leftAlign))
    ensures pos == |Field(v < 0, Magnitude(v), width, padZero, leftAlign)|
    ensures forall k :: 0 <= k < buf.Length && limit <= k ==> buf[k] == old(buf[k])
  {
    pos := PrintSigned(buf, 0, limit, v, width, padZero, leftAlign, []);
    ghost var text := Field(v < 0, Magnitude(v), width, padZero, leftAlign);
    assert [] + text == text;
    Terminate(buf, pos, limit, text);
  }

  /** vsnprintf() with one %llu and nothing else. */
  method SnprintfUnsigned(buf: array<char>, limit: int, n: u64, width: nat, padZero: bool, leftAlign: bool)
    returns (pos: nat)
    requires limit <= buf.Length
    modifies buf
    ensures Printed(buf[..], limit, Field(false, n, width, padZero, leftAlign))
    ensures pos == |Field(false, n, width, padZero, leftAlign)|
    ensures forall k :: 0 <= k < buf.Length && limit <= k ==> buf[k] == old(buf[k])
  {
    pos := PrintUnsigned(buf, 0, limit, n, width, padZero, leftAlign, []);
    ghost var text := Field(false, n, width, padZero, leftAlign);
    assert [] + text == text;
    Terminate(buf, pos, limit, text);
  }

  /** The bytes up to the first zero byte. */
  function CString(b: seq<char>): string {
    if b == [] || b[0] == '\0' then [] else [b[0]] + CString(b[1..])
  }

  lemma {:induction false} CStringIs(b: seq<char>, k: nat)
    requires k < |b| && b[k] == '\0' && forall i :: 0 <= i < k ==> b[i] != '\0'
    ensures CString(b) == b[..k]
  {
    if k > 0 {
      CStringIs(b[1..], k - 1);
      assert b[..k] == [b[0]] + b[1..][..k - 1];
    }
  }

  lemma NoZeroByte(s: string, a: nat, neg: bool, ds: string, after: nat)
    requires s == Spaced(a, Sign(neg), ds, after) && IsDigits(ds)
    ensures forall k :: 0 <= k < |s| ==> s[k] != '\0'
  {
    RepeatIs(' ', a);
    RepeatIs(' ', after);
  }

  /** Out to a buffer and back: when the buffer has room for the text and its zero byte, strtoll() of what is
      in it gives the number printed. */
  lemma BufferRoundTrip(buf: seq<char>, limit: int, v: i64, width: nat, zero: bool, left: bool)
    requires Printed(buf, limit, Field(v < 0, Magnitude(v), width, zero, left))
    requires |Field(v < 0, Magnitude(v), width, zero, left)| < limit
    ensures CString(buf) == Field(v < 0, Magnitude(v), width, zero, left)
    ensures ParseSigned(CString(buf), 10).0 == v
  {
    var neg, n := v < 0, Magnitude(v);
    var s := Field(neg, n, width, zero, left);
    var pad := Pad(width, |Sign(neg)| + |Numeral(n)|);
    var zeros := if zero && !left then pad else 0;
    FieldDigitsValue(n, zeros);
    NoZeroByte(s, if left || zero then 0 else pad, neg, FieldDigits(n, zeros), if left then pad else 0);
    assert buf[..|s|] == s[..|s|] == s;
    forall i | 0 <= i < |s|
      ensures buf[i] != '\0'
    {
      assert buf[i] == buf[..|s|][i];
    }
    CStringIs(buf, |s|);
    SignedRoundTrip(v, width, zero, left);
  }
}
