/** Triangular probing: from any start, the first `n` probes of a table with a power-of-two
    number of buckets visit every bucket exactly once. */
module ProbePath {
  import opened Bits
  import opened RadixSort

  function Tri(d: nat): nat {
    if d == 0 then 0 else Tri(d - 1) + d
  }

  /** The bucket of probe `d` for hash `h`. */
  function Path(h: nat, n: nat, d: nat): (i: nat)
    requires n > 0
    ensures i < n
  {
    (h + Tri(d)) % n
  }

  lemma ModSum(a: nat, b: nat, n: nat)
    requires n > 0
    ensures (a % n + b) % n == (a + b) % n
  {
    var q := a / n;
    assert a == n * q + a % n;
    var r, s := (a % n + b) % n, (a % n + b) / n;
    assert a % n + b == n * s + r;
    assert a + b == n * (q + s) + r by { assert n * (q + s) == n * q + n * s; }
    ModUnique(a + b, n, q + s, r);
  }

  /** `i = (i + (++step)) & mask` is the next probe. */
  lemma NextProbe(h: nat, n: nat, d: nat)
    requires n > 0
    ensures Path(h, n, 0) == h % n
    ensures (Path(h, n, d) + (d + 1)) % n == Path(h, n, d + 1)
  {
    ModSum(h + Tri(d), d + 1, n);
  }

  lemma {:induction false} TriTwice(d: nat)
    ensures 2 * Tri(d) == d * (d + 1)
  {
    if d > 0 {
      TriTwice(d - 1);
      assert d * (d + 1) == (d - 1) * d + 2 * d;
    }
  }

  /** An odd factor cannot take part in a power of two. */
  lemma {:induction false} OddFactor(k: nat, x: nat, y: nat, q: nat)
    requires x % 2 == 1 && x * y == Pow2(k) * q
    ensures exists r: nat :: y == Pow2(k) * r
  {
    if k == 0 {
      assert y == Pow2(0) * y;
    } else {
      assert x * y == 2 * (Pow2(k - 1) * q);
      EvenFactor(x, y, Pow2(k - 1) * q);
      var y' := y / 2;
      assert x * y == 2 * (x * y');
      OddFactor(k - 1, x, y', q);
      var r: nat :| y' == Pow2(k - 1) * r;
      assert y == Pow2(k) * r;
    }
  }

  lemma EvenFactor(x: nat, y: nat, z: nat)
    requires x % 2 == 1 && x * y == 2 * z
    ensures y % 2 == 0
  {
    var a := x / 2;
    calc {
      x * y;
      (2 * a + 1) * y;
      2 * (a * y) + y;
    }
    EvenPart(a * y, y, z);
  }

  lemma EvenPart(p: nat, y: nat, z: nat)
    requires 2 * p + y == 2 * z
    ensures y % 2 == 0
  {
    assert y == 2 * (z - p);
  }

  lemma ModDifference(a: nat, b: nat, n: nat)
    requires n > 0 && a <= b && a % n == b % n
    ensures b - a == n * (b / n - a / n) && b / n >= a / n
  {
    assert a == n * (a / n) + a % n && b == n * (b / n) + b % n;
    assert n * (b / n - a / n) == n * (b / n) - n * (a / n);
    if b / n < a / n { MulMonotone(n, b / n + 1, a / n); }
  }

  lemma SmallMultiple(y: nat, p: nat, r: nat)
    requires y == p * r && y > 0
    ensures y >= p
  {
    MulMonotone(p, 1, r);
  }

  lemma {:induction false} TriGrows(a: nat, b: nat)
    requires a <= b
    ensures Tri(a) <= Tri(b)
    decreases b
  {
    if a < b { TriGrows(a, b - 1); }
  }

  lemma TriDifference(a: nat, b: nat)
    requires a < b
    ensures (b - a) * (a + b + 1) == 2 * (Tri(b) - Tri(a)) && Tri(a) <= Tri(b)
  {
    TriGrows(a, b);
    TriTwice(a);
    TriTwice(b);
    assert (b - a) * (a + b + 1) == b * (b + 1) - a * (a + 1);
  }

  /** Two factors of different parity, both below `2n`, do not multiply to a multiple of `2n`. */
  lemma NoMultiple(m: nat, x: nat, y: nat, q: nat)
    requires 0 < x < Pow2(m + 1) && 0 < y < Pow2(m + 1) && x % 2 != y % 2
    ensures x * y != Pow2(m + 1) * q
  {
    if x * y == Pow2(m + 1) * q {
      var odd, other := if x % 2 == 1 then x else y, if x % 2 == 1 then y else x;
      assert odd * other == Pow2(m + 1) * q;
      OddFactor(m + 1, odd, other, q);
      var r: nat :| other == Pow2(m + 1) * r;
      SmallMultiple(other, Pow2(m + 1), r);
    }
  }

  /** Probes that meet lie a multiple of the table size apart. */
  lemma Meeting(h: nat, n: nat, a: nat, b: nat) returns (q: nat)
    requires n > 0 && Tri(a) <= Tri(b) && Path(h, n, a) == Path(h, n, b)
    ensures Tri(b) - Tri(a) == n * q
  {
    ModDifference(h + Tri(a), h + Tri(b), n);
    q := (h + Tri(b)) / n - (h + Tri(a)) / n;
  }

  lemma Doubled(m: nat, q: nat)
    ensures 2 * (Pow2(m) * q) == Pow2(m + 1) * q
  {
    MulAssoc(2, Pow2(m), q);
  }

  lemma MulAssoc(x: nat, y: nat, z: nat)
    ensures x * (y * z) == (x * y) * z
  {
  }

  /** Different probes among the first `n` go to different buckets. */
  lemma ProbesDiffer(h: nat, m: nat, a: nat, b: nat)
    requires a < b < Pow2(m)
    ensures Path(h, Pow2(m), a) != Path(h, Pow2(m), b)
  {
    hide *;
    DoubleSize(m);
    TriDifference(a, b);
    if Path(h, Pow2(m), a) == Path(h, Pow2(m), b) {
      var q := Meeting(h, Pow2(m), a, b);
      Doubled(m, q);
      NoMultiple(m, b - a, a + b + 1, q);
    }
  }

  lemma DoubleSize(m: nat)
    ensures Pow2(m + 1) == 2 * Pow2(m)
  {
  }

  ghost function Probes(h: nat, n: nat): (s: seq<nat>)
    requires n > 0
    ensures |s| == n && forall d :: 0 <= d < n ==> s[d] == Path(h, n, d)
  {
    seq(n, d requires 0 <= d < n => Path(h, n, d))
  }

  /** Every bucket is some probe among the first `n`. */
  lemma EveryBucket(h: nat, m: nat, i: nat) returns (d: nat)
    requires i < Pow2(m)
    ensures d < Pow2(m) && Path(h, Pow2(m), d) == i
  {
    hide Path;
    var s := Probes(h, Pow2(m));
    forall a, b | 0 <= a < b < |s| ensures s[a] != s[b] { ProbesDiffer(h, m, a, b); }
    d := Onto(s, i);
  }
}
