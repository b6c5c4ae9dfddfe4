/** Fixed-width integers and big-endian words as the C sources use them. */
module Words {

  const TWO32 := 0x1_0000_0000
  const TWO31 := 0x8000_0000

  type byte = x: int | 0 <= x < 256

  type u32 = x: int | 0 <= x < TWO32

  /** `v4_be32(p + at)`. */
  function Be32(p: seq<byte>, at: nat): u32
    requires at + 4 <= |p|
  {
    Join32(p[at], p[at + 1], p[at + 2], p[at + 3])
  }

  function Join32(a: int, b: int, c: int, d: int): int {
    a * 0x100_0000 + b * 0x1_0000 + c * 0x100 + d
  }

  /** `v4_be16(p + at)`. */
  function Be16(p: seq<byte>, at: nat): (r: nat)
    requires at + 2 <= |p|
  {
    Join32(0, 0, p[at], p[at + 1])
  }

  /** The four bytes `put_be32` stores. */
  function Put32(v: u32): (r: seq<byte>)
    ensures |r| == 4
  {
    [v / 0x100_0000, v / 0x1_0000 % 256, v / 0x100 % 256, v % 256]
  }

  lemma Be32At(p: seq<byte>, at: nat, v: u32)
    requires at + 4 <= |p| && p[at..at + 4] == Put32(v)
    ensures Be32(p, at) == v
  {
    var w := p[at..at + 4];
    assert w[0] == p[at] && w[1] == p[at + 1] && w[2] == p[at + 2] && w[3] == p[at + 3];
    Rejoin(v);
  }

  lemma Rejoin(v: u32)
    ensures Join32(v / 0x100_0000, v / 0x1_0000 % 256, v / 0x100 % 256, v % 256) == v
  {
    var x := v / 0x100;
    assert v == 0x100 * x + v % 256;
    var y := x / 0x100;
    assert x == 0x100 * y + x % 256;
    assert y == v / 0x1_0000 && y / 0x100 == v / 0x100_0000;
    assert y == 0x100 * (y / 0x100) + y % 256;
  }

  /** A big-endian word determines its four bytes. */
  lemma Be32Injective(p: seq<byte>, q: seq<byte>, at: nat)
    requires at + 4 <= |p| && at + 4 <= |q|
    requires Be32(p, at) == Be32(q, at)
    ensures p[at..at + 4] == q[at..at + 4]
  {
    Join32Injective(p[at], p[at + 1], p[at + 2], p[at + 3], q[at], q[at + 1], q[at + 2], q[at + 3]);
  }

  lemma Join32Injective(a: byte, b: byte, c: byte, d: byte, e: byte, f: byte, g: byte, h: byte)
    requires Join32(a, b, c, d) == Join32(e, f, g, h)
    ensures a == e && b == f && c == g && d == h
  {
    assert (a - e) * 0x100_0000 == (f - b) * 0x1_0000 + (g - c) * 0x100 + (h - d);
    assert a == e;
    assert b == f;
  }

  /** A number below 1000 is determined by its three decimal digits. */
  lemma ThreeDigits(i: nat)
    ensures i == 100 * (i / 100) + 10 * (i / 10 % 10) + i % 10
  {
    assert i / 100 == i / 10 / 10;
  }

  /** Zero bytes, as `zero_bytes` leaves them. */
  function Zeros(n: nat): (r: seq<byte>)
    ensures |r| == n
  {
    seq(n, _ => 0)
  }

  /** The 1024 bytes of one figure. */
  type Data = s: seq<byte> | |s| == 1024 witness Zeros(1024)

  /** `(u32)(a - b)`. */
  function Since(a: u32, b: u32): u32 {
    (a - b) % TWO32
  }

  /** `(u32)(a + n)`. */
  function Plus(a: u32, n: nat): u32 {
    (a + n) % TWO32
  }

  /** `(s32)(a - b) > 0`, the comparison that ranks two journal sequences. */
  predicate Newer(a: u32, b: u32) {
    0 < Since(a, b) < TWO31
  }

  /** `b < a` in the serial number arithmetic of section 3.2 of RFC 1982. */
  predicate SerialLess(b: u32, a: u32) {
    (b < a && a - b < TWO31) || (b > a && b - a > TWO31)
  }
}
