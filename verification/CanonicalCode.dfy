/** Canonical Huffman codes from code sizes, as both the deflater and the inflater assign them
    (section 3.2.2 of RFC 1951). */
module CanonicalCode {
  import opened Bits

  type Sizes = s: seq<nat> | forall i :: 0 <= i < |s| ==> s[i] <= 15 witness []

  /** How many of the first `k` symbols have code size `len`. */
  function Count(sizes: seq<nat>, len: nat, k: nat): (r: nat)
    requires k <= |sizes|
    ensures r <= k
  {
    if k == 0 then 0 else Count(sizes, len, k - 1) + if sizes[k - 1] == len then 1 else 0
  }

  function Total(sizes: seq<nat>, len: nat): nat { Count(sizes, len, |sizes|) }

  /** The first code of size `len`. */
  function First(sizes: seq<nat>, len: nat): nat {
    if len <= 1 then 0 else 2 * (First(sizes, len - 1) + Total(sizes, len - 1))
  }

  function CodeNumber(sizes: seq<nat>, s: nat): nat
    requires s < |sizes|
  {
    First(sizes, sizes[s]) + Count(sizes, sizes[s], s)
  }

  /** The code word of symbol `s`, in the order its bits are sent. */
  function Code(sizes: seq<nat>, s: nat): (c: BitString)
    requires s < |sizes|
    ensures |c| == sizes[s]
  {
    MsbBits(CodeNumber(sizes, s), sizes[s])
  }

  predicate Used(sizes: seq<nat>, s: nat) {
    s < |sizes| && sizes[s] > 0
  }

  function UsedCount(sizes: seq<nat>, k: nat): nat
    requires k <= |sizes|
  {
    if k == 0 then 0 else UsedCount(sizes, k - 1) + if sizes[k - 1] > 0 then 1 else 0
  }

  /** The Kraft sum is exactly one. */
  predicate Complete(sizes: Sizes) { First(sizes, 16) == 65536 }

  /** The code-size vectors the inflater accepts. */
  predicate Accepted(sizes: Sizes) { Complete(sizes) || UsedCount(sizes, |sizes|) <= 1 }

  /** A proper prefix of some code word. */
  ghost predicate Internal(sizes: seq<nat>, p: BitString) {
    exists s :: Used(sizes, s) && p < Code(sizes, s)
  }

  /** After ten bits or more in a code word, the bits leave it with the `n`-th. */
  ghost predicate StraysAt(sizes: seq<nat>, bits: BitString, n: nat) {
    10 < n <= |bits| && Internal(sizes, bits[..n - 1]) && !Internal(sizes, bits[..n])
  }

  /** How many bits an inflater takes in vain when they begin with no code word. */
  ghost function Stray(sizes: seq<nat>, bits: BitString): (n: nat)
    ensures n <= |bits| && (n > 0 ==> StraysAt(sizes, bits, n)) && (n == 0 ==> forall k: nat :: !StraysAt(sizes, bits, k))
  {
    if n: nat :| StraysAt(sizes, bits, n) then n else 0
  }

  lemma InternalPrefix(sizes: seq<nat>, p: BitString, k: nat)
    requires Internal(sizes, p) && k <= |p|
    ensures Internal(sizes, p[..k])
  {
    hide Code;
    var s :| Used(sizes, s) && p < Code(sizes, s);
    assert p[..k] < Code(sizes, s);
  }

  lemma LongerStrays(sizes: seq<nat>, bits: BitString, m: nat, n: nat)
    requires m < n <= |bits| && Internal(sizes, bits[..n - 1])
    ensures Internal(sizes, bits[..m])
  {
    hide Internal;
    InternalPrefix(sizes, bits[..n - 1], m);
    assert bits[..n - 1][..m] == bits[..m];
  }

  lemma StraysOnce(sizes: seq<nat>, bits: BitString, m: nat, n: nat)
    requires StraysAt(sizes, bits, m) && StraysAt(sizes, bits, n)
    ensures m == n
  {
    hide Internal;
    if m < n {
      LongerStrays(sizes, bits, m, n);
    } else if n < m {
      LongerStrays(sizes, bits, n, m);
    }
  }

  lemma {:induction false} CountMonotone(sizes: seq<nat>, len: nat, j: nat, k: nat)
    requires j <= k <= |sizes|
    ensures Count(sizes, len, j) <= Count(sizes, len, k)
    ensures forall s :: j <= s < k && sizes[s] == len ==> Count(sizes, len, j) < Count(sizes, len, k)
  {
    if j < k { CountMonotone(sizes, len, j, k - 1); }
  }

  lemma CountBefore(sizes: seq<nat>, s: nat)
    requires s < |sizes|
    ensures Count(sizes, sizes[s], s) < Total(sizes, sizes[s])
  {
    CountMonotone(sizes, sizes[s], s, |sizes|);
  }

  /** Codes never run past the first code of a longer size. */
  lemma {:induction false} FirstGrows(sizes: seq<nat>, a: nat, b: nat)
    requires 1 <= a < b
    ensures First(sizes, b) >= (First(sizes, a) + Total(sizes, a)) * Pow2(b - a)
    decreases b
  {
    if b == a + 1 {
      assert Pow2(1) == 2;
    } else {
      FirstGrows(sizes, a, b - 1);
      var e := First(sizes, a) + Total(sizes, a);
      assert e * Pow2(b - a) == 2 * (e * Pow2(b - 1 - a));
    }
  }

  lemma FirstFits(sizes: Sizes, len: nat)
    requires Complete(sizes) && 1 <= len <= 15
    ensures First(sizes, len) + Total(sizes, len) <= Pow2(len)
  {
    FirstGrows(sizes, len, 16);
    Pow2Add(len, 16 - len);
    Pow2Sixteen();
    CancelFactor(First(sizes, len) + Total(sizes, len), Pow2(len), Pow2(16 - len));
  }

  lemma Pow2Sixteen()
    ensures Pow2(16) == 65536 && Pow2(10) == 1024 && Pow2(9) == 512 && Pow2(15) == 32768
  {
    assert Pow2(4) == 16;
    assert Pow2(8) == 256;
    assert Pow2(9) == 512;
    assert Pow2(10) == 1024;
    assert Pow2(12) == 4096;
    assert Pow2(14) == 16384;
  }

  lemma {:induction false} SoleUsed(sizes: seq<nat>, k: nat, s: nat)
    requires s < k <= |sizes| && sizes[s] > 0
    ensures UsedCount(sizes, k) >= 1
    ensures forall t :: 0 <= t < k && t != s && sizes[t] > 0 ==> UsedCount(sizes, k) >= 2
  {
    if s < k - 1 {
      SoleUsed(sizes, k - 1, s);
    } else {
      forall t | 0 <= t < k && t != s && sizes[t] > 0 ensures UsedCount(sizes, k) >= 2 {
        SoleUsed(sizes, k - 1, t);
      }
    }
  }

  lemma {:induction false} NoneOfSize(sizes: seq<nat>, len: nat, k: nat)
    requires k <= |sizes|
    requires forall t :: 0 <= t < k ==> sizes[t] != len
    ensures Count(sizes, len, k) == 0
  {
    if k > 0 { NoneOfSize(sizes, len, k - 1); }
  }

  lemma {:induction false} FirstZero(sizes: seq<nat>, len: nat)
    requires forall t :: 0 <= t < |sizes| ==> sizes[t] == 0 || sizes[t] >= len
    ensures First(sizes, len) == 0
  {
    if len > 1 {
      FirstZero(sizes, len - 1);
      NoneOfSize(sizes, len - 1, |sizes|);
    }
  }

  /** Every code number fits in its code size. */
  lemma CodeFits(sizes: Sizes, s: nat)
    requires Accepted(sizes) && Used(sizes, s)
    ensures CodeNumber(sizes, s) < Pow2(sizes[s])
  {
    if Complete(sizes) {
      FirstFits(sizes, sizes[s]);
      CountBefore(sizes, s);
    } else {
      SoleUsed(sizes, |sizes|, s);
      FirstZero(sizes, sizes[s]);
      NoneOfSize(sizes, sizes[s], s);
    }
  }

  /** No code word of an accepted vector is a prefix of another's. */
  lemma PrefixFree(sizes: Sizes, s: nat, t: nat)
    requires Accepted(sizes) && Used(sizes, s) && Used(sizes, t) && s != t
    requires sizes[s] <= sizes[t]
    ensures Code(sizes, t)[..sizes[s]] != Code(sizes, s)
  {
    var a, b := sizes[s], sizes[t];
    CodeFits(sizes, s);
    CodeFits(sizes, t);
    MsbBitsPrefix(CodeNumber(sizes, t), b, a);
    var high := Shr(CodeNumber(sizes, t), b - a);
    if a == b {
      if s < t { CountMonotone(sizes, a, s, t); } else { CountMonotone(sizes, a, t, s); }
      assert high == CodeNumber(sizes, t) != CodeNumber(sizes, s);
    } else {
      FirstGrows(sizes, a, b);
      CountBefore(sizes, s);
      ShrIsDiv(CodeNumber(sizes, t), b - a);
      DivAtLeast(CodeNumber(sizes, t), Pow2(b - a), First(sizes, a) + Total(sizes, a));
    }
    ShrFits(CodeNumber(sizes, t), b, a);
    if Code(sizes, t)[..a] == Code(sizes, s) {
      MsbBitsInjective(high, CodeNumber(sizes, s), a);
    }
  }

  lemma DivAtLeast(n: nat, d: nat, q: nat)
    requires d > 0 && n >= q * d
    ensures n / d >= q
  {
    var r := n / d;
    assert n == d * r + n % d;
    if r < q { MulMonotone(d, r + 1, q); }
  }

  lemma DivBelow(n: nat, d: nat, q: nat)
    requires d > 0 && n < q * d
    ensures n / d < q
  {
    var r := n / d;
    assert n == d * r + n % d;
    if r >= q { MulMonotone(d, q, r); }
  }

  lemma CancelFactor(a: nat, b: nat, d: nat)
    requires d > 0 && a * d <= b * d
    ensures a <= b
  {
    if a > b { MulMonotone(d, b + 1, a); }
  }

  lemma ShrFits(n: nat, len: nat, k: nat)
    requires k <= len && n < Pow2(len)
    ensures Shr(n, len - k) < Pow2(k)
  {
    ShrIsDiv(n, len - k);
    Pow2Add(k, len - k);
    DivBelow(n, Pow2(len - k), Pow2(k));
  }

  /** Symmetric form: two used symbols whose code words both start a string are the same symbol. */
  lemma UniquePrefix(sizes: Sizes, s: nat, t: nat, bits: BitString)
    requires Accepted(sizes) && Used(sizes, s) && Used(sizes, t)
    requires Code(sizes, s) <= bits && Code(sizes, t) <= bits
    ensures s == t
  {
    if sizes[s] <= sizes[t] {
      assert Code(sizes, t)[..sizes[s]] == bits[..sizes[s]] == Code(sizes, s);
      if s != t { PrefixFree(sizes, s, t); }
    } else {
      assert Code(sizes, s)[..sizes[t]] == bits[..sizes[t]] == Code(sizes, t);
      PrefixFree(sizes, t, s);
    }
  }

  /** The symbol of size `len` with a given rank. */
  lemma {:induction false} SymbolOfRank(sizes: seq<nat>, len: nat, rank: nat, k: nat) returns (s: nat)
    requires k <= |sizes| && rank < Count(sizes, len, k)
    ensures s < k && sizes[s] == len && Count(sizes, len, s) == rank
  {
    if rank < Count(sizes, len, k - 1) {
      s := SymbolOfRank(sizes, len, rank, k - 1);
    } else {
      s := k - 1;
    }
  }

  /** In a complete code every 15-bit string starts with a code word. */
  lemma Covering(sizes: Sizes, bits: BitString) returns (s: nat)
    requires Complete(sizes) && |bits| == 15
    ensures Used(sizes, s) && Code(sizes, s) <= bits
  {
    var v := MsbValue(bits);
    MsbBitsOfValue(bits);
    Pow2Sixteen();
    assert First(sizes, 16) == 2 * (First(sizes, 15) + Total(sizes, 15));
    var len := 1;
    while Shr(v, 15 - len) >= First(sizes, len) + Total(sizes, len)
      invariant 1 <= len <= 15
      invariant Shr(v, 15 - len) >= First(sizes, len)
      decreases 15 - len
    {
      assert len < 15;
      ShrAdd(v, 15 - len - 1, 1);
      var w := Shr(v, 15 - len - 1);
      assert Shr(v, 15 - len) == Shr(w, 1) == w / 2;
      assert First(sizes, len + 1) == 2 * (First(sizes, len) + Total(sizes, len));
      len := len + 1;
    }
    s := SymbolOfRank(sizes, len, Shr(v, 15 - len) - First(sizes, len), |sizes|);
    assert CodeNumber(sizes, s) == Shr(v, 15 - len);
    MsbBitsPrefix(v, 15, len);
    assert bits[..len] == Code(sizes, s);
  }
}
