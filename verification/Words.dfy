/** Big-endian 32-bit words in memory. */
module Words {

  const T32: int := 0x1_0000_0000

  type byte = x: int | 0 <= x < 256
  type u32 = x: int | 0 <= x < 0x1_0000_0000

  /** A 32-bit word as its four bytes, most significant first. */
  datatype Quad = Quad(a: byte, b: byte, c: byte, d: byte)

  function Val(w: Quad): u32 {
    w.a * 0x100_0000 + w.b * 0x1_0000 + w.c * 0x100 + w.d
  }

  /** The bytes of a number, by shifting and masking. */
  function Split(v: u32): Quad {
    Quad(v / 0x100_0000, v / 0x1_0000 % 0x100, v / 0x100 % 0x100, v % 0x100)
  }

  lemma SplitVal(v: u32)
    ensures Val(Split(v)) == v
  {
    var q1, q2 := v / 0x100, v / 0x1_0000;
    assert q2 == q1 / 0x100 && v / 0x100_0000 == q2 / 0x100;
  }

  lemma ValInjective(x: Quad, y: Quad)
    requires Val(x) == Val(y)
    ensures x == y
  {
    Digits(x.a, x.b, x.c, x.d, y.a, y.b, y.c, y.d);
  }

  lemma Digits(a: int, b: int, c: int, d: int, e: int, f: int, g: int, h: int)
    requires 0 <= a < 256 && 0 <= b < 256 && 0 <= c < 256 && 0 <= d < 256
    requires 0 <= e < 256 && 0 <= f < 256 && 0 <= g < 256 && 0 <= h < 256
    requires a * 0x100_0000 + b * 0x1_0000 + c * 0x100 + d == e * 0x100_0000 + f * 0x1_0000 + g * 0x100 + h
    ensures a == e && b == f && c == g && d == h
  {
    assert a == e;
    assert b == f;
  }

  /** The word that stands for a number. */
  ghost function Bytes(v: u32): (w: Quad)
    ensures Val(w) == v
  {
    SplitVal(v);
    var w: Quad :| Val(w) == v;
    w
  }

  function Get(mem: seq<byte>, a: int): Quad
    requires 0 <= a && a + 4 <= |mem|
  {
    Quad(mem[a], mem[a + 1], mem[a + 2], mem[a + 3])
  }

  function ByteOf(w: Quad, i: int): byte
    requires 0 <= i < 4
  {
    if i == 0 then w.a else if i == 1 then w.b else if i == 2 then w.c else w.d
  }

  function Put(mem: seq<byte>, a: int, w: Quad): (r: seq<byte>)
    requires 0 <= a && a + 4 <= |mem|
    ensures |r| == |mem| && Get(r, a) == w
    ensures forall x :: 0 <= x < |mem| ==> r[x] == if a <= x < a + 4 then ByteOf(w, x - a) else mem[x]
  {
    mem[a := w.a][a + 1 := w.b][a + 2 := w.c][a + 3 := w.d]
  }

  /** Addition in 32 bits. */
  function Sum(a: u32, b: u32): (r: u32)
  {
    if a + b < T32 then a + b else a + b - T32
  }
}
