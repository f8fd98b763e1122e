/** What limiting the code sizes to fifteen bits costs: at most `n` parts in 270 of the symbols
    sent, over the best code without a limit. */
module CodeCost {
  import opened Bits
  import opened WeightedLengths
  import opened CodeSizeLimit
  import HP = HuffmanPlan
  import MR = MinimumRedundancy

  lemma {:induction false} CostMonotone(w: seq<nat>, a: seq<nat>, b: seq<nat>)
    requires |w| == |a| == |b| && forall i :: 0 <= i < |a| ==> a[i] <= b[i]
    ensures Cost(w, a) <= Cost(w, b)
  {
    if w != [] {
      CostMonotone(w[1..], a[1..], b[1..]);
      MulMonotone(w[0], a[0], b[0]);
    }
  }

  lemma FibTable()
    ensures HP.Fib(2) == 1 && HP.Fib(3) == 2 && HP.Fib(4) == 3 && HP.Fib(5) == 5 && HP.Fib(6) == 8 && HP.Fib(7) == 13
    ensures HP.Fib(8) == 21 && HP.Fib(9) == 34 && HP.Fib(10) == 55 && HP.Fib(11) == 89 && HP.Fib(12) == 144
    ensures HP.Fib(13) == 233 && HP.Fib(14) == 377 && HP.Fib(15) == 610
  {
    assert HP.Fib(5) == 5 && HP.Fib(6) == 8;
    assert HP.Fib(8) == 21 && HP.Fib(9) == 34;
    assert HP.Fib(11) == 89 && HP.Fib(12) == 144;
  }

  lemma PowTable()
    ensures Pow2(0) == 1 && Pow2(1) == 2 && Pow2(2) == 4 && Pow2(3) == 8 && Pow2(4) == 16 && Pow2(5) == 32 && Pow2(6) == 64
    ensures Pow2(7) == 128 && Pow2(8) == 256 && Pow2(9) == 512 && Pow2(10) == 1024 && Pow2(11) == 2048 && Pow2(12) == 4096
    ensures Pow2(13) == 8192 && Pow2(14) == 16384
  {
    assert Pow2(3) == 8 && Pow2(6) == 64;
    assert Pow2(9) == 512 && Pow2(12) == 4096;
  }

  /** A code of `i` bits is rare enough for what it costs to make it fifteen bits long. */
  lemma LengthRatio(i: nat)
    requires 1 <= i <= 15
    ensures 540 * (15 - i) <= HP.Fib(i + 1) * (Pow2(15 - i) - 1)
  {
    FibTable();
    PowTable();
    hide HP.Fib, Pow2;
  }

  lemma StretchOne(i: nat, f: nat, fib: nat, p: int, n: nat)
    requires 540 * (15 - i) <= fib * p && fib * f <= n && p >= 0 && i <= 15
    ensures 540 * (f * (15 - i)) <= n * p
  {
    MulMonotone(f, 540 * (15 - i), fib * p);
    MulMonotone(p, fib * f, n);
    assert f * (540 * (15 - i)) == 540 * (f * (15 - i));
    assert f * (fib * p) == p * (fib * f);
  }

  /** Stretching the first `u` codes to fifteen bits costs in proportion to the room that frees. */
  lemma {:induction false} StretchCost(keys: seq<nat>, lens: seq<nat>, u: nat)
    requires |keys| == |lens| && u <= |lens| && MR.Rare(keys, lens) && Sized(lens, 32)
    ensures 540 * (Cost(keys, Cut(lens, 15, u)) - Cost(keys, Cut(lens, 15, 0)))
         <= Sum(keys) * (Scaled(Cut(lens, 15, 0), 15) - Scaled(Cut(lens, 15, u), 15))
  {
    hide Cost, Scaled, Pow2, HP.Fib, Sum, MR.Rare;
    if u > 0 {
      var v := u - 1;
      StretchCost(keys, lens, v);
      CutStep(lens, 15, v);
      var i := Cut(lens, 15, 0)[v];
      UpdateShare(keys, Cut(lens, 15, v), v, 15);
      CutAt(lens, v);
      StretchBit(keys, lens, v);
      PowSome(15 - i);
      Collect(keys[v], i, Sum(keys), Scaled(Cut(lens, 15, 0), 15) - Scaled(Cut(lens, 15, v), 15), Pow2(15 - i) - 1);
    }
  }

  lemma CutAt(lens: seq<nat>, v: nat)
    requires v < |lens| && Sized(lens, 32)
    ensures Cut(lens, 15, v)[v] == Cut(lens, 15, 0)[v] == (if lens[v] > 15 then 15 else lens[v])
    ensures 1 <= Cut(lens, 15, 0)[v] <= 15
  {
  }

  lemma StretchBit(keys: seq<nat>, lens: seq<nat>, v: nat)
    requires |keys| == |lens| && v < |lens| && MR.Rare(keys, lens) && Sized(lens, 32)
    ensures var i := Cut(lens, 15, 0)[v]; 540 * (keys[v] * (15 - i)) <= Sum(keys) * (Pow2(15 - i) - 1)
  {
    hide Cost, Scaled, Pow2, HP.Fib, Sum;
    CutAt(lens, v);
    var i := Cut(lens, 15, 0)[v];
    PowSome(15 - i);
    if lens[v] < 15 {
      LengthRatio(i);
      StretchOne(i, keys[v], HP.Fib(i + 1), Pow2(15 - i) - 1, Sum(keys));
    } else {
      NoStretch(keys[v], Sum(keys), Pow2(15 - i) - 1);
    }
  }

  lemma NoStretch(f: nat, n: nat, p: nat)
    ensures 540 * (f * 0) <= n * p
  {
  }

  lemma Collect(f: nat, i: nat, n: nat, r: int, p: nat)
    ensures n * (r + p) == n * r + n * p
    ensures f * 15 - f * i == f * (15 - i)
  {
  }

  /** Limited lengths cost little more than any lengths that satisfy Kraft's inequality. */
  lemma LimitedCost(keys: seq<nat>, lens: seq<nat>, fin: seq<nat>, u: nat, other: seq<nat>)
    requires MR.OptimalLengths(keys, lens) && MR.Rare(keys, lens) && |lens| == |keys| && Sized(lens, 32)
    requires Limited(lens, fin, 15, u) && |other| == |keys| && Kraft(other) <= 1.0
    ensures |fin| == |keys| && 270 * Cost(keys, fin) <= 270 * Cost(keys, other) + |keys| * Sum(keys)
  {
    hide *;
    BestOf(keys, lens, other);
    NoLonger(lens, fin, u);
    CostMonotone(keys, fin, Cut(lens, 15, u));
    CostMonotone(keys, Cut(lens, 15, 0), lens);
    StretchCost(keys, lens, u);
    MulMonotone(Sum(keys), Scaled(Cut(lens, 15, 0), 15) - Scaled(Cut(lens, 15, u), 15), 2 * |keys|);
    Twice(Sum(keys), |keys|);
  }

  lemma BestOf(keys: seq<nat>, lens: seq<nat>, other: seq<nat>)
    requires MR.OptimalLengths(keys, lens) && |other| == |keys| && Kraft(other) <= 1.0
    ensures |lens| == |keys| && Cost(keys, lens) <= Cost(keys, other)
  {
    hide Cost, Kraft;
  }

  lemma NoLonger(lens: seq<nat>, fin: seq<nat>, u: nat)
    requires Limited(lens, fin, 15, u)
    ensures |fin| == |lens| && u <= |lens| && (forall i :: 0 <= i < |fin| ==> fin[i] <= Cut(lens, 15, u)[i])
    ensures forall i :: 0 <= i < |lens| ==> Cut(lens, 15, 0)[i] <= lens[i]
    ensures Scaled(Cut(lens, 15, 0), 15) <= Scaled(Cut(lens, 15, u), 15) + 2 * |lens|
  {
    hide Scaled, Pow2;
  }

  lemma Twice(a: nat, b: nat)
    ensures a * (2 * b) == 2 * (b * a)
  {
  }
}
