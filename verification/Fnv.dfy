/** The FNV-1a checksum that guards the catalogue, the source dumps and the journals. */
module Fnv {
  import opened Words

  const OFFSET: u32 := 2166136261
  const PRIME: u32 := 16777619
  const PRIME_INVERSE: u32 := 899433627

  /** Bitwise exclusive or of the lowest `bits` bits. */
  function Xor(a: nat, b: nat, bits: nat): nat {
    if bits == 0 then 0 else (a % 2 + b % 2) % 2 + 2 * Xor(a / 2, b / 2, bits - 1)
  }

  function Pow2(n: nat): nat {
    if n == 0 then 1 else 2 * Pow2(n - 1)
  }

  lemma {:induction false} XorRange(a: nat, b: nat, bits: nat)
    ensures Xor(a, b, bits) < Pow2(bits)
  {
    if bits > 0 {
      XorRange(a / 2, b / 2, bits - 1);
    }
  }

  lemma {:induction false} XorCancels(a: nat, b: nat, c: nat, d: nat, bits: nat)
    requires a < Pow2(bits) && b < Pow2(bits) && c < Pow2(bits) && d < Pow2(bits)
    requires Xor(a, b, bits) == Xor(c, d, bits)
    ensures a == c <==> b == d
  {
    if bits > 0 {
      var p, q := (a % 2 + b % 2) % 2, (c % 2 + d % 2) % 2;
      var x, y := Xor(a / 2, b / 2, bits - 1), Xor(c / 2, d / 2, bits - 1);
      assert p == q && x == y by {
        assert p + 2 * x == q + 2 * y;
        SameParity(p, x, q, y);
      }
      XorCancels(a / 2, b / 2, c / 2, d / 2, bits - 1);
      BitCancels(a % 2, b % 2, c % 2, d % 2);
      Halves(a, c);
      Halves(b, d);
    }
  }

  lemma SameParity(p: nat, x: nat, q: nat, y: nat)
    requires p < 2 && q < 2 && p + 2 * x == q + 2 * y
    ensures p == q && x == y
  {
  }

  lemma BitCancels(a: nat, b: nat, c: nat, d: nat)
    requires a < 2 && b < 2 && c < 2 && d < 2 && (a + b) % 2 == (c + d) % 2
    ensures a == c <==> b == d
  {
  }

  lemma Halves(a: nat, b: nat)
    ensures a == b <==> a / 2 == b / 2 && a % 2 == b % 2
  {
  }

  lemma Powers()
    ensures Pow2(8) == 256 && Pow2(24) == 0x100_0000
  {
    assert Pow2(16) == 256 * Pow2(8);
    assert Pow2(24) == 256 * Pow2(16);
  }

  lemma ByteInWord(high: nat, low: nat)
    requires high < 0x100_0000 && low < 256
    ensures high * 256 + low < TWO32
  {
  }

  /** Exclusive or of a byte touches only the low eight bits of the hash. */
  function Mix(h: u32, b: byte): (r: u32) {
    XorRange(h % 256, b, 8);
    Powers();
    ByteInWord(h / 256, Xor(h % 256, b, 8));
    h / 256 * 256 + Xor(h % 256, b, 8)
  }

  lemma {:induction false} XorZero(a: nat, bits: nat)
    requires a < Pow2(bits)
    ensures Xor(a, 0, bits) == a
  {
    if bits > 0 {
      XorZero(a / 2, bits - 1);
    }
  }

  lemma Doubled(p: nat, a: nat)
    ensures (2 * p + a) % 2 == a % 2 && (2 * p + a) / 2 == p + a / 2
  {
  }

  /** High bits that one operand lacks pass through unchanged. */
  lemma {:induction false} XorHigh(k: nat, x: nat, a: nat, b: nat, m: nat)
    requires a < Pow2(k) && b < Pow2(k) && x < Pow2(m)
    ensures Xor(Pow2(k) * x + a, b, k + m) == Pow2(k) * x + Xor(a, b, k)
  {
    if k == 0 {
      XorZero(x, m);
    } else {
      var p := Pow2(k - 1) * x;
      assert Pow2(k) * x == 2 * p;
      Doubled(p, a);
      XorHigh(k - 1, x, a / 2, b / 2, m);
    }
  }

  /** The byte step is the exclusive or of the whole 32-bit word. */
  lemma MixIsXor(h: u32, b: byte)
    ensures Mix(h, b) == Xor(h, b, 32)
  {
    Powers();
    XorHigh(8, h / 256, h % 256, b, 24);
    assert h == Pow2(8) * (h / 256) + h % 256;
  }

  function Step(h: u32, b: byte): u32 {
    Mix(h, b) * PRIME % TWO32
  }

  function From(h: u32, p: seq<byte>): u32
    decreases |p|
  {
    if p == [] then h else From(Step(h, p[0]), p[1..])
  }

  function Hash(p: seq<byte>): u32 {
    From(OFFSET, p)
  }

  /** The loop of `e11_hash`. */
  method ComputeHash(p: seq<byte>) returns (h: u32)
    ensures h == Hash(p)
  {
    h := OFFSET;
    var i := 0;
    while i < |p|
      invariant 0 <= i <= |p|
      invariant From(h, p[i..]) == Hash(p)
    {
      assert p[i..][1..] == p[i + 1..];
      h := Step(h, p[i]);
      i := i + 1;
    }
    assert p[i..] == [];
  }

  /** The prime is odd, so multiplying by it loses nothing modulo 2^32. */
  lemma PrimeInvertible(x: u32, y: u32)
    requires x * PRIME % TWO32 == y * PRIME % TWO32
    ensures x == y
  {
    var q := x * PRIME / TWO32 - y * PRIME / TWO32;
    assert (x - y) * PRIME == q * TWO32;
    var k := (PRIME * PRIME_INVERSE - 1) / TWO32;
    assert PRIME * PRIME_INVERSE == 1 + k * TWO32;
    var t := q * PRIME_INVERSE - k * (x - y);
    assert x - y == t * TWO32;
  }

  /** One step separates different hashes, and different bytes under one hash. */
  lemma StepSeparates(h: u32, b: byte, g: u32, c: byte)
    requires Step(h, b) == Step(g, c)
    ensures h == g <==> b == c
  {
    PrimeInvertible(Mix(h, b), Mix(g, c));
    assert Pow2(8) == 256;
    XorRange(h % 256, b, 8);
    XorRange(g % 256, c, 8);
    assert h / 256 == g / 256;
    XorCancels(h % 256, b, g % 256, c, 8);
  }

  lemma {:induction false} FromInjective(h: u32, g: u32, p: seq<byte>)
    requires h != g
    ensures From(h, p) != From(g, p)
    decreases |p|
  {
    if p != [] {
      if Step(h, p[0]) == Step(g, p[0]) {
        StepSeparates(h, p[0], g, p[0]);
      }
      FromInjective(Step(h, p[0]), Step(g, p[0]), p[1..]);
    }
  }

  lemma {:induction false} FromDetectsOneByte(h: u32, p: seq<byte>, q: seq<byte>, k: nat)
    requires |p| == |q| && k < |p| && p[k] != q[k]
    requires forall i | 0 <= i < |p| && i != k :: p[i] == q[i]
    ensures From(h, p) != From(h, q)
    decreases |p|
  {
    if k == 0 {
      if Step(h, p[0]) == Step(h, q[0]) {
        StepSeparates(h, p[0], h, q[0]);
      }
      assert p[1..] == q[1..];
      FromInjective(Step(h, p[0]), Step(h, q[0]), p[1..]);
    } else {
      FromDetectsOneByte(Step(h, p[0]), p[1..], q[1..], k - 1);
    }
  }

  /** Inputs of one length that differ in exactly one byte never share a hash. */
  lemma DetectsOneByte(p: seq<byte>, q: seq<byte>, k: nat)
    requires |p| == |q| && k < |p| && p[k] != q[k]
    requires forall i | 0 <= i < |p| && i != k :: p[i] == q[i]
    ensures Hash(p) != Hash(q)
  {
    FromDetectsOneByte(OFFSET, p, q, k);
  }
}
