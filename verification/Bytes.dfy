// Bytes, little- and big-endian integers, and ranges of a flat byte store.
module Bytes {

  type byte = x: int | 0 <= x < 256

  const U16: nat := 0x1_0000
  const U32: nat := 0x1_0000_0000
  const U64: nat := 0x1_0000_0000_0000_0000

  // 64-bit arithmetic as the release profile computes it: wrapping.

  function Add64(a: nat, b: nat): nat {
    (a + b) % U64
  }

  function Sub64(a: nat, b: nat): nat {
    (a + U64 - b % U64) % U64
  }

  function Mul64(a: nat, b: nat): nat {
    (a * b) % U64
  }

  ghost function Pow256(k: nat): nat {
    if k == 0 then 1 else 256 * Pow256(k - 1)
  }

  lemma PowValues()
    ensures Pow256(1) == 256 && Pow256(2) == U16 && Pow256(4) == U32 && Pow256(8) == U64
  {
    assert Pow256(3) == 256 * Pow256(2);
    assert Pow256(4) == 256 * Pow256(3);
    assert Pow256(5) == 256 * Pow256(4);
    assert Pow256(6) == 256 * Pow256(5);
    assert Pow256(7) == 256 * Pow256(6);
  }

  /** The number whose little-endian digits are `b`. */
  function Le(b: seq<byte>): nat {
    if |b| == 0 then 0 else b[0] + 256 * Le(b[1..])
  }

  /** The `k` low little-endian digits of `n`: what `to_le_bytes` gives at width `k`. */
  function ToLe(n: nat, k: nat): (b: seq<byte>)
    ensures |b| == k
  {
    if k == 0 then [] else [n % 256] + ToLe(n / 256, k - 1)
  }

  /** The number whose big-endian digits are `b`. */
  function Be(b: seq<byte>): nat {
    if |b| == 0 then 0 else 256 * Be(b[..|b| - 1]) + b[|b| - 1]
  }

  function ToBe(n: nat, k: nat): (b: seq<byte>)
    ensures |b| == k
  {
    if k == 0 then [] else ToBe(n / 256, k - 1) + [n % 256]
  }

  lemma {:induction false} LeBound(b: seq<byte>)
    ensures Le(b) < Pow256(|b|)
  {
    if |b| > 0 { LeBound(b[1..]); }
  }

  lemma {:induction false} LeOfToLe(n: nat, k: nat)
    requires n < Pow256(k)
    ensures Le(ToLe(n, k)) == n
  {
    if k > 0 {
      LeOfToLe(n / 256, k - 1);
      assert ToLe(n, k)[1..] == ToLe(n / 256, k - 1);
    }
  }

  lemma FirstDigit(d: byte, n: nat)
    ensures (d + 256 * n) % 256 == d && (d + 256 * n) / 256 == n
  {
  }

  lemma {:induction false} ToLeOfLe(b: seq<byte>)
    ensures ToLe(Le(b), |b|) == b
  {
    if |b| > 0 {
      ToLeOfLe(b[1..]);
      FirstDigit(b[0], Le(b[1..]));
    }
  }

  lemma {:induction false} BeOfToBe(n: nat, k: nat)
    requires n < Pow256(k)
    ensures Be(ToBe(n, k)) == n
  {
    if k > 0 {
      BeOfToBe(n / 256, k - 1);
      assert ToBe(n, k)[..k - 1] == ToBe(n / 256, k - 1);
    }
  }

  lemma {:induction false} BeBound(b: seq<byte>)
    ensures Be(b) < Pow256(|b|)
  {
    if |b| > 0 { BeBound(b[..|b| - 1]); }
  }

  lemma {:induction false} ToBeOfBe(b: seq<byte>)
    ensures ToBe(Be(b), |b|) == b
  {
    if |b| > 0 { ToBeOfBe(b[..|b| - 1]); }
  }

  lemma {:induction false} ToLeZero(k: nat)
    ensures ToLe(0, k) == seq(k, _ => 0)
  {
    if k > 0 { ToLeZero(k - 1); }
  }

  lemma {:induction false} LeOfZeros(b: seq<byte>)
    requires forall i :: 0 <= i < |b| ==> b[i] == 0
    ensures Le(b) == 0
  {
    if |b| > 0 { LeOfZeros(b[1..]); }
  }

  /** Little-endian numbers of the widths in use, digit by digit. */
  lemma LeDigits(b: seq<byte>)
    ensures |b| == 2 ==> Le(b) == b[0] as nat + b[1] as nat * 0x100
    ensures |b| == 4 ==>
      Le(b) == b[0] as nat + b[1] as nat * 0x100 + b[2] as nat * 0x1_0000 + b[3] as nat * 0x100_0000
    ensures |b| == 8 ==> Le(b) == Le(b[..4]) + 0x1_0000_0000 * Le(b[4..])
  {
    if |b| == 2 { LeTwo(b); }
    if |b| >= 4 { LeFour(b); }
    if |b| == 8 { LeFour(b[..4]); }
  }

  lemma LeTwo(b: seq<byte>)
    requires |b| >= 2
    ensures Le(b) == b[0] as nat + b[1] as nat * 0x100 + 0x1_0000 * Le(b[2..])
  {
    assert b[1..][1..] == b[2..];
  }

  lemma LeFour(b: seq<byte>)
    requires |b| >= 4
    ensures Le(b) == b[0] as nat + b[1] as nat * 0x100 + b[2] as nat * 0x1_0000 + b[3] as nat * 0x100_0000
                     + 0x1_0000_0000 * Le(b[4..])
  {
    LeTwo(b);
    LeTwo(b[2..]);
    assert b[2..][2..] == b[4..];
  }

  /** A four-byte big-endian number, digit by digit. */
  lemma BeDigits(b: seq<byte>)
    requires |b| == 4
    ensures Be(b) == b[0] as nat * 0x100_0000 + b[1] as nat * 0x1_0000 + b[2] as nat * 0x100 + b[3] as nat
  {
    assert b[..3][..2] == b[..2] && b[..2][..1] == b[..1] && b[..1][..0] == [];
    assert Be(b[..1]) == 256 * Be([]) + b[0];
    assert Be(b[..2]) == 256 * Be(b[..1]) + b[1];
    assert Be(b[..3]) == 256 * Be(b[..2]) + b[2];
  }

  lemma LeInjective(a: seq<byte>, b: seq<byte>)
    requires |a| == |b| && Le(a) == Le(b)
    ensures a == b
  {
    ToLeOfLe(a);
    ToLeOfLe(b);
  }

  /** `mem` with `data` copied over the range that starts at `addr`. */
  function Store(mem: seq<byte>, addr: nat, data: seq<byte>): (m: seq<byte>)
    requires addr + |data| <= |mem|
    ensures |m| == |mem|
  {
    seq(|mem|, i requires 0 <= i < |mem| => if addr <= i < addr + |data| then data[i - addr] else mem[i])
  }

  /** The `n`-byte little-endian integer at `addr`. */
  function LeAt(mem: seq<byte>, addr: nat, n: nat): nat
    requires addr + n <= |mem|
  {
    Le(mem[addr..addr + n])
  }

  lemma LeAtStored(mem: seq<byte>, addr: nat, data: seq<byte>)
    requires addr + |data| <= |mem|
    ensures LeAt(Store(mem, addr, data), addr, |data|) == Le(data)
  {
    assert Store(mem, addr, data)[addr..addr + |data|] == data;
  }

  lemma LeAtSame(m: seq<byte>, m': seq<byte>, addr: nat, n: nat)
    requires |m| == |m'| && addr + n <= |m|
    requires forall a :: addr <= a < addr + n ==> m[a] == m'[a]
    ensures LeAt(m, addr, n) == LeAt(m', addr, n)
  {
    assert m[addr..addr + n] == m'[addr..addr + n];
  }

  lemma LeAtBound(mem: seq<byte>, addr: nat, n: nat)
    requires addr + n <= |mem|
    ensures n == 1 ==> LeAt(mem, addr, n) < 256
    ensures n == 2 ==> LeAt(mem, addr, n) < U16
    ensures n == 4 ==> LeAt(mem, addr, n) < U32
    ensures n == 8 ==> LeAt(mem, addr, n) < U64
  {
    LeBound(mem[addr..addr + n]);
    PowValues();
  }
}
