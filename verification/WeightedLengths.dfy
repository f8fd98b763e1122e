/** Code lengths as sequences: their weighted cost and their Kraft sum. */
module WeightedLengths {
  import Bits

  function RemoveAt<T>(s: seq<T>, i: nat): seq<T>
    requires i < |s|
  {
    s[..i] + s[i + 1..]
  }

  function InsertAt<T>(s: seq<T>, i: nat, x: T): seq<T>
    requires i <= |s|
  {
    s[..i] + [x] + s[i..]
  }

  function Sum(s: seq<nat>): nat {
    if s == [] then 0 else s[0] + Sum(s[1..])
  }

  /** The total weighted length. */
  function Cost(w: seq<nat>, l: seq<nat>): nat
    requires |w| == |l|
  {
    if w == [] then 0 else w[0] * l[0] + Cost(w[1..], l[1..])
  }

  function Half(l: nat): (h: real)
    ensures 0.0 < h <= 1.0
  {
    if l == 0 then 1.0 else Half(l - 1) / 2.0
  }

  /** The Kraft sum: one over two to the length, over all lengths. */
  function Kraft(l: seq<nat>): (k: real)
    ensures k >= 0.0
  {
    if l == [] then 0.0 else Half(l[0]) + Kraft(l[1..])
  }

  lemma {:induction false} SumConcat(a: seq<nat>, b: seq<nat>)
    ensures Sum(a + b) == Sum(a) + Sum(b)
  {
    if a == [] { assert a + b == b; } else {
      SumConcat(a[1..], b);
      assert (a + b)[1..] == a[1..] + b;
    }
  }

  lemma {:induction false} CostConcat(a: seq<nat>, b: seq<nat>, la: seq<nat>, lb: seq<nat>)
    requires |a| == |la| && |b| == |lb|
    ensures Cost(a + b, la + lb) == Cost(a, la) + Cost(b, lb)
  {
    if a == [] { assert a + b == b && la + lb == lb; } else {
      CostConcat(a[1..], b, la[1..], lb);
      assert (a + b)[1..] == a[1..] + b && (la + lb)[1..] == la[1..] + lb;
    }
  }

  lemma {:induction false} KraftConcat(a: seq<nat>, b: seq<nat>)
    ensures Kraft(a + b) == Kraft(a) + Kraft(b)
  {
    if a == [] { assert a + b == b; } else {
      KraftConcat(a[1..], b);
      assert (a + b)[1..] == a[1..] + b;
    }
  }

  /** Taking one entry out subtracts its share. */
  lemma RemoveShare(w: seq<nat>, l: seq<nat>, i: nat)
    requires |w| == |l| && i < |w|
    ensures Sum(w) == Sum(RemoveAt(w, i)) + w[i]
    ensures Cost(w, l) == Cost(RemoveAt(w, i), RemoveAt(l, i)) + w[i] * l[i]
    ensures Kraft(l) == Kraft(RemoveAt(l, i)) + Half(l[i])
  {
    InsertShare(RemoveAt(w, i), RemoveAt(l, i), i, w[i], l[i]);
    assert w == InsertAt(RemoveAt(w, i), i, w[i]) && l == InsertAt(RemoveAt(l, i), i, l[i]);
  }

  lemma InsertShare(w: seq<nat>, l: seq<nat>, i: nat, x: nat, m: nat)
    requires |w| == |l| && i <= |w|
    ensures Sum(InsertAt(w, i, x)) == Sum(w) + x
    ensures Cost(InsertAt(w, i, x), InsertAt(l, i, m)) == Cost(w, l) + x * m
    ensures Kraft(InsertAt(l, i, m)) == Kraft(l) + Half(m)
  {
    var w1, w2, l1, l2 := w[..i], w[i..], l[..i], l[i..];
    assert w == w1 + w2 && l == l1 + l2;
    SumConcat(w1, w2);
    CostConcat(w1, w2, l1, l2);
    KraftConcat(l1, l2);
    SumConcat(w1, [x]);
    CostConcat(w1, [x], l1, [m]);
    KraftConcat(l1, [m]);
    SumConcat(w1 + [x], w2);
    CostConcat(w1 + [x], w2, l1 + [m], l2);
    KraftConcat(l1 + [m], l2);
  }

  /** Replacing one length. */
  lemma UpdateShare(w: seq<nat>, l: seq<nat>, i: nat, v: nat)
    requires |w| == |l| && i < |w|
    ensures Cost(w, l[i := v]) == Cost(w, l) - w[i] * l[i] + w[i] * v
    ensures Kraft(l[i := v]) == Kraft(l) - Half(l[i]) + Half(v)
  {
    RemoveShare(w, l, i);
    RemoveShare(w, l[i := v], i);
    assert RemoveAt(l[i := v], i) == RemoveAt(l, i);
  }

  function Swap(l: seq<nat>, i: nat, j: nat): seq<nat>
    requires i < |l| && j < |l|
  {
    l[i := l[j]][j := l[i]]
  }

  /** Giving the longer length to the lighter weight never costs more. */
  lemma SwapHelps(w: seq<nat>, l: seq<nat>, i: nat, j: nat)
    requires |w| == |l| && i < |w| && j < |w|
    requires w[i] <= w[j] && l[i] <= l[j]
    ensures Cost(w, Swap(l, i, j)) <= Cost(w, l)
    ensures Kraft(Swap(l, i, j)) == Kraft(l)
  {
    if i != j {
      UpdateShare(w, l, i, l[j]);
      UpdateShare(w, l[i := l[j]], j, l[i]);
      CrossTerms(w[i], w[j], l[i], l[j]);
    } else {
      assert Swap(l, i, j) == l;
    }
  }

  lemma CrossTerms(a: nat, b: nat, x: nat, y: nat)
    requires a <= b && x <= y
    ensures a * y + b * x <= a * x + b * y
  {
    var d := b - a;
    assert b * x == a * x + d * x && b * y == a * y + d * y;
    assert d * x <= d * y;
  }

  /** `k` copies of `h`. */
  ghost function Times(k: nat, h: real): real {
    if k == 0 then 0.0 else Times(k - 1, h) + h
  }

  lemma {:induction false} TimesAdd(a: nat, b: nat, h: real)
    ensures Times(a + b, h) == Times(a, h) + Times(b, h)
  {
    if b > 0 { TimesAdd(a, b - 1, h); }
  }

  lemma {:induction false} TimesMonotone(a: nat, b: nat, h: real)
    requires a <= b && h > 0.0
    ensures Times(a, h) <= Times(b, h)
    decreases b
  {
    if a < b { TimesMonotone(a, b - 1, h); }
  }

  lemma {:induction false} HalfTimes(b: nat, l: nat)
    requires l <= b
    ensures Half(l) == Times(Bits.Pow2(b - l), Half(b))
    decreases b - l
  {
    if l < b {
      HalfTimes(b, l + 1);
      var p := Bits.Pow2(b - (l + 1));
      TimesAdd(p, p, Half(b));
      assert Bits.Pow2(b - l) == p + p;
    } else {
      assert Times(1, Half(b)) == Times(0, Half(b)) + Half(b);
    }
  }

  /** With every length at most `b`, the Kraft sum counts in steps of `Half(b)`. */
  ghost function Scaled(l: seq<nat>, b: nat): nat
    requires forall i :: 0 <= i < |l| ==> l[i] <= b
  {
    if l == [] then 0 else Bits.Pow2(b - l[0]) + Scaled(l[1..], b)
  }

  lemma {:induction false} KraftIsScaled(l: seq<nat>, b: nat)
    requires forall i :: 0 <= i < |l| ==> l[i] <= b
    ensures Kraft(l) == Times(Scaled(l, b), Half(b))
  {
    if l != [] {
      KraftIsScaled(l[1..], b);
      HalfTimes(b, l[0]);
      TimesAdd(Bits.Pow2(b - l[0]), Scaled(l[1..], b), Half(b));
    }
  }

  /** Room for one more: if the lengths, all at most `b`, leave any slack at all, they leave `Half(b)`. */
  lemma SlackIsWhole(l: seq<nat>, b: nat)
    requires forall i :: 0 <= i < |l| ==> l[i] <= b
    requires Kraft(l) < 1.0
    ensures Kraft(l) + Half(b) <= 1.0
  {
    KraftIsScaled(l, b);
    HalfTimes(b, 0);
    var k, p, h := Scaled(l, b), Bits.Pow2(b), Half(b);
    assert Half(0) == 1.0;
    if k >= p { TimesMonotone(p, k, h); }
    TimesMonotone(k + 1, p, h);
  }
}
