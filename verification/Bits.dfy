/** Bit strings in stream order.  DEFLATE packs bits least-significant first, so the first
    bit of a stream is the lowest bit of the number that holds it. */
module Bits {

  type BitString = seq<bool>

  type Byte = b: nat | b < 256

  function Pow2(n: nat): (r: nat)
    ensures r > 0
  {
    if n == 0 then 1 else 2 * Pow2(n - 1)
  }

  function BitValue(b: bool): nat { if b then 1 else 0 }

  /** The number whose lowest bit is the first bit of the string. */
  function ToNat(bits: BitString): nat {
    if bits == [] then 0 else BitValue(bits[0]) + 2 * ToNat(bits[1..])
  }

  /** `n >> k` */
  function Shr(n: nat, k: nat): nat {
    if k == 0 then n else Shr(n / 2, k - 1)
  }

  /** The lowest `k` bits of `n`, lowest first. */
  function LowBits(n: nat, k: nat): (r: BitString)
    ensures |r| == k
  {
    if k == 0 then [] else [n % 2 == 1] + LowBits(n / 2, k - 1)
  }

  /** The lowest `len` bits of `code`, highest first: the order in which a code word is sent. */
  function MsbBits(code: nat, len: nat): (r: BitString)
    ensures |r| == len
  {
    if len == 0 then [] else MsbBits(code / 2, len - 1) + [code % 2 == 1]
  }

  lemma {:induction false} Pow2Add(a: nat, b: nat)
    ensures Pow2(a + b) == Pow2(a) * Pow2(b)
  {
    if a != 0 {
      Pow2Add(a - 1, b);
      assert 2 * (Pow2(a - 1) * Pow2(b)) == (2 * Pow2(a - 1)) * Pow2(b);
    }
  }

  lemma {:induction false} Pow2Monotone(a: nat, b: nat)
    requires a <= b
    ensures Pow2(a) <= Pow2(b)
    decreases b
  {
    if a < b { Pow2Monotone(a, b - 1); }
  }

  lemma {:induction false} ToNatBound(bits: BitString)
    ensures ToNat(bits) < Pow2(|bits|)
  {
    if bits != [] { ToNatBound(bits[1..]); }
  }

  lemma {:induction false} ToNatAppend(a: BitString, b: BitString)
    ensures ToNat(a + b) == ToNat(a) + Pow2(|a|) * ToNat(b)
  {
    if a == [] {
      assert a + b == b;
    } else {
      ToNatAppend(a[1..], b);
      assert (a + b)[1..] == a[1..] + b;
      assert 2 * (Pow2(|a| - 1) * ToNat(b)) == (2 * Pow2(|a| - 1)) * ToNat(b);
    }
  }

  /** Whatever lies above the string's own bits, the low bits are the string. */
  lemma {:induction false} LowBitsOfToNat(bits: BitString, rest: nat)
    ensures LowBits(ToNat(bits) + Pow2(|bits|) * rest, |bits|) == bits
  {
    if bits != [] {
      var n := ToNat(bits) + Pow2(|bits|) * rest;
      var m := ToNat(bits[1..]) + Pow2(|bits| - 1) * rest;
      assert Pow2(|bits|) * rest == 2 * (Pow2(|bits| - 1) * rest);
      assert n == BitValue(bits[0]) + 2 * m;
      LowBitsOfToNat(bits[1..], rest);
    }
  }

  lemma {:induction false} ToNatOfLowBits(n: nat, k: nat)
    ensures ToNat(LowBits(n, k)) == n % Pow2(k)
  {
    if k != 0 {
      ToNatOfLowBits(n / 2, k - 1);
      ModHalves(n, Pow2(k - 1));
    }
  }

  lemma ModHalves(n: nat, p: nat)
    requires p > 0
    ensures n % (2 * p) == n % 2 + 2 * ((n / 2) % p)
  {
    var q := (n / 2) / p;
    var r := (n / 2) % p;
    assert n / 2 == p * q + r;
    assert n == (2 * p) * q + (n % 2 + 2 * r) by { assert 2 * (p * q) == (2 * p) * q; }
    ModUnique(n, 2 * p, q, n % 2 + 2 * r);
  }

  lemma ModUnique(n: int, d: int, q: int, r: int)
    requires 0 <= r < d
    requires n == d * q + r
    ensures n % d == r && n / d == q
  {
    var q', r' := n / d, n % d;
    assert n == d * q' + r';
    if q' > q {
      assert d * q' >= d * (q + 1) by { MulMonotone(d, q + 1, q'); }
      assert false;
    } else if q' < q {
      assert d * q >= d * (q' + 1) by { MulMonotone(d, q' + 1, q); }
      assert false;
    }
  }

  lemma MulMonotone(d: int, a: int, b: int)
    requires d >= 0 && a <= b
    ensures d * a <= d * b
  {
  }

  /** Bit `k` of `n` is position `k` of its low bits. */
  lemma {:induction false} LowBitsAt(n: nat, m: nat, k: nat)
    requires k < m
    ensures LowBits(n, m)[k] == (Shr(n, k) % 2 == 1)
  {
    if k != 0 { LowBitsAt(n / 2, m - 1, k - 1); }
  }

  lemma {:induction false} LowBitsPrefix(n: nat, m: nat, k: nat)
    requires k <= m
    ensures LowBits(n, m)[..k] == LowBits(n, k)
  {
    if k != 0 {
      LowBitsPrefix(n / 2, m - 1, k - 1);
      assert LowBits(n, m)[..k] == [n % 2 == 1] + LowBits(n / 2, m - 1)[..k - 1];
    }
  }

  lemma {:induction false} LowBitsSuffix(n: nat, m: nat, k: nat)
    requires k <= m
    ensures LowBits(n, m)[k..] == LowBits(Shr(n, k), m - k)
  {
    if k != 0 {
      LowBitsSuffix(n / 2, m - 1, k - 1);
      assert LowBits(n, m)[k..] == LowBits(n / 2, m - 1)[k - 1..];
    }
  }

  lemma {:induction false} ShrAdd(n: nat, j: nat, k: nat)
    ensures Shr(Shr(n, j), k) == Shr(n, j + k)
  {
    if j != 0 { ShrAdd(n / 2, j - 1, k); }
  }

  lemma {:induction false} ShrIsDiv(n: nat, k: nat)
    ensures Shr(n, k) == n / Pow2(k)
  {
    if k != 0 {
      ShrIsDiv(n / 2, k - 1);
      DivDiv(n, Pow2(k - 1));
    }
  }

  lemma DivDiv(n: nat, p: nat)
    requires p > 0
    ensures (n / 2) / p == n / (2 * p)
  {
    var q := (n / 2) / p;
    var r := (n / 2) % p;
    assert n / 2 == p * q + r;
    assert n == (2 * p) * q + (n % 2 + 2 * r) by { assert 2 * (p * q) == (2 * p) * q; }
    ModUnique(n, 2 * p, q, n % 2 + 2 * r);
  }

  /** A shorter prefix of a code word is the code shifted right. */
  lemma {:induction false} MsbBitsPrefix(code: nat, len: nat, k: nat)
    requires k <= len
    ensures MsbBits(code, len)[..k] == MsbBits(Shr(code, len - k), k)
  {
    if k < len {
      MsbBitsPrefix(code / 2, len - 1, k);
      assert MsbBits(code, len)[..k] == MsbBits(code / 2, len - 1)[..k];
    }
  }

  lemma {:induction false} MsbBitsInjective(a: nat, b: nat, len: nat)
    requires a < Pow2(len) && b < Pow2(len)
    requires MsbBits(a, len) == MsbBits(b, len)
    ensures a == b
  {
    if len != 0 {
      var x, y := MsbBits(a, len), MsbBits(b, len);
      assert x[..len - 1] == MsbBits(a / 2, len - 1) && y[..len - 1] == MsbBits(b / 2, len - 1);
      assert x[len - 1] == (a % 2 == 1) && y[len - 1] == (b % 2 == 1);
      MsbBitsInjective(a / 2, b / 2, len - 1);
    }
  }

  /** The number whose highest bit is the first bit of the string. */
  function MsbValue(bits: BitString): nat {
    if bits == [] then 0 else 2 * MsbValue(bits[..|bits| - 1]) + BitValue(bits[|bits| - 1])
  }

  lemma {:induction false} MsbBitsOfValue(bits: BitString)
    ensures MsbBits(MsbValue(bits), |bits|) == bits && MsbValue(bits) < Pow2(|bits|)
  {
    if bits != [] { MsbBitsOfValue(bits[..|bits| - 1]); }
  }
}
