/** Fixed-width integers as byte strings. */
module Bytes {
  type Byte = x: int | 0 <= x < 256

  type Text = seq<Byte>

  const TWO16 := 0x1_0000
  const TWO32 := 0x1_0000_0000
  const TWO64 := 0x1_0000_0000_0000_0000

  type Int64 = x: int | -0x8000_0000_0000_0000 <= x < 0x8000_0000_0000_0000

  function Pow256(k: nat): (p: nat)
    ensures p > 0
  {
    if k == 0 then 1 else 256 * Pow256(k - 1)
  }

  /** The low `k` bytes of `n`, least significant first: what PutUint32 and PutUint64 store. */
  function LE(n: nat, k: nat): (r: Text)
    ensures |r| == k
  {
    if k == 0 then [] else [n % 256] + LE(n / 256, k - 1)
  }

  function FromLE(s: Text): nat {
    if s == [] then 0 else s[0] + 256 * FromLE(s[1..])
  }

  lemma {:induction false} FromLEBound(s: Text)
    ensures FromLE(s) < Pow256(|s|)
  {
    if s != [] {
      FromLEBound(s[1..]);
    }
  }

  /** Encoding keeps the value modulo the width. */
  lemma {:induction false} DecodeEncode(n: nat, k: nat)
    ensures FromLE(LE(n, k)) == n % Pow256(k)
  {
    if k > 0 {
      DecodeEncode(n / 256, k - 1);
      assert LE(n, k)[1..] == LE(n / 256, k - 1);
      ModSplit(n, Pow256(k - 1));
    }
  }

  lemma ModSplit(n: nat, p: nat)
    requires p > 0
    ensures n % (256 * p) == n % 256 + 256 * ((n / 256) % p)
  {
    var q, r := n / 256 / p, (n / 256) % p;
    assert n / 256 == q * p + r;
    assert n == (256 * p) * q + (n % 256 + 256 * r) by {
      assert 256 * (q * p) == (256 * p) * q;
    }
    assert r <= p - 1;
    RemainderUnique(n, 256 * p, q, n % 256 + 256 * r);
  }

  /** By induction on the larger factor, to keep the arithmetic linear. */
  lemma {:induction false} Multiples(m: nat, a: nat, q: nat)
    ensures a > q ==> m * a >= m * q + m
  {
    if a > q + 1 {
      Multiples(m, a - 1, q);
      assert m * a == m * (a - 1) + m;
    }
  }

  lemma RemainderUnique(n: nat, m: nat, q: nat, r: nat)
    requires n == m * q + r && r < m
    ensures n % m == r
  {
    var a := n / m;
    assert m * a + n % m == m * q + r;
    Multiples(m, a, q);
    Multiples(m, q, a);
    assert a == q;
  }

  lemma SmallMod(n: nat, m: nat)
    requires n < m
    ensures n % m == n
  {
  }

  lemma Pow256Values()
    ensures Pow256(4) == TWO32 && Pow256(8) == TWO64
  {
  }

  lemma Decode32(n: nat)
    ensures FromLE(LE(n, 4)) == n % TWO32
  {
    DecodeEncode(n, 4);
    Pow256Values();
  }

  /** uint64(v) and int64(u): two's complement. */
  function ToU64(v: Int64): (u: nat)
    ensures u < TWO64
  {
    if v < 0 then v + TWO64 else v
  }

  function FromU64(u: nat): Int64
    requires u < TWO64
  {
    if u < TWO64 / 2 then u else u - TWO64
  }

  lemma Decode64(v: Int64)
    ensures FromLE(LE(ToU64(v), 8)) == ToU64(v) && FromU64(ToU64(v)) == v
  {
    DecodeEncode(ToU64(v), 8);
    Pow256Values();
  }

  lemma Bound64(s: Text)
    requires |s| == 8
    ensures FromLE(s) < TWO64
  {
    FromLEBound(s);
    Pow256Values();
  }

  /** The two key-length bytes. */
  function BE16(n: nat): (r: Text)
    ensures |r| == 2
  {
    [n / 256 % 256, n % 256]
  }

  function FromBE16(s: Text): nat
    requires |s| >= 2
  {
    (s[0] as nat) * 256 + s[1] as nat
  }

  lemma DecodeBE16(n: nat)
    ensures FromBE16(BE16(n)) == n % TWO16
  {
    ModSplit(n, 256);
  }
}
