/** The theory behind the in-place minimum-redundancy routine.

    Step `j` of merging `n` weights creates internal node `j` from two nodes.  Leaves are taken in
    ascending order and so are internal nodes, so a run is described by how many internal nodes
    were taken before each step: step `j` takes internal nodes `used[j] .. used[j + 1]` and
    leaves `Leaf(j) .. Leaf(j + 1)`. */
module HuffmanPlan {
  import opened WeightedLengths

  datatype Plan = Plan(leaves: seq<nat>, used: seq<nat>, made: seq<nat>) {

    /** The number of steps done. */
    ghost function Steps(): nat { |made| }

    /** Leaves taken before step `j`. */
    ghost function Leaf(j: nat): int
      requires j < |used|
    {
      2 * j - used[j]
    }

    ghost predicate Shape() {
      && |leaves| >= 2 && 1 <= |made| < |leaves| && |used| == |made| + 1
      && used[0] == 0
      && (forall j :: 0 <= j < |made| ==> used[j] <= used[j + 1] <= used[j] + 2)
      && (forall j :: 1 <= j <= |made| ==> used[j] < j)
      && (forall j :: 0 <= j <= |made| ==> Leaf(j) <= |leaves|)
    }

    /** Step `j` takes internal node `i`. */
    ghost predicate TakesNode(j: nat, i: nat)
      requires Shape()
    {
      j < |made| && used[j] <= i < used[j + 1]
    }

    /** Step `j` takes leaf `i`. */
    ghost predicate TakesLeaf(j: nat, i: nat)
      requires Shape()
    {
      j < |made| && Leaf(j) <= i < Leaf(j + 1)
    }

    /** An attribute of the nodes that are still to be taken before step `k`. */
    ghost function Row<T>(k: nat, inner: seq<T>, outer: seq<T>): seq<T>
      requires Shape() && k <= |made| && k <= |inner| && |outer| == |leaves|
    {
      LeafBounds(k);
      inner[used[k]..k] + outer[Leaf(k)..]
    }

    lemma LeafBounds(k: nat)
      requires Shape() && k <= |made|
      ensures 0 <= used[k] <= k <= Leaf(k) <= |leaves|
    {
    }

    /** Where the two nodes that step `k` takes stand in the row: first and second position. */
    ghost function Pos1(k: nat): nat
      requires Shape() && k < |made|
    {
      if used[k + 1] > used[k] then 0 else k - used[k]
    }

    ghost function Pos2(k: nat): nat
      requires Shape() && k < |made|
    {
      if used[k + 1] == used[k] + 2 then 1 else if used[k + 1] == used[k] + 1 then k - used[k] else k - used[k] + 1
    }

    /** Where the new node stands in the next row. */
    ghost function PosNew(k: nat): nat
      requires Shape() && k < |made|
    {
      k - used[k + 1]
    }
  }

  /** Dropping `n` entries from the front of one part and the others from the front of the next. */
  lemma DropTwo<T>(a: seq<T>, b: seq<T>, n: nat, x: T)
    requires n <= 2 && n <= |a| && 2 - n <= |b|
    ensures n == 2 ==> RemoveAt(RemoveAt(a + b, 1), 0) == a[2..] + b
    ensures n == 1 ==> RemoveAt(RemoveAt(a + b, |a|), 0) == a[1..] + b[1..]
    ensures n == 0 ==> RemoveAt(RemoveAt(a + b, |a| + 1), |a|) == a + b[2..]
    ensures InsertAt(a[n..] + b[2 - n..], |a| - n, x) == a[n..] + [x] + b[2 - n..]
  {
  }

  lemma StepBounds(p: Plan, k: nat)
    requires p.Shape() && k < p.Steps()
    ensures k + 1 < |p.used| && 0 <= p.used[k] <= p.used[k + 1] <= p.used[k] + 2 && p.used[k + 1] <= k
    ensures k <= p.Leaf(k) <= p.Leaf(k + 1) <= |p.leaves| && p.Leaf(k + 1) == p.Leaf(k) + 2 - (p.used[k + 1] - p.used[k])
  {
    p.LeafBounds(k);
  }

  /** One step drops two entries from the row and adds one. */
  lemma RowStep<T>(p: Plan, k: nat, inner: seq<T>, outer: seq<T>)
    requires p.Shape() && k < p.Steps() && k < |inner| && |outer| == |p.leaves|
    ensures p.Pos1(k) < p.Pos2(k) < |p.Row(k, inner, outer)| == |p.leaves| - k
    ensures p.PosNew(k) <= |p.leaves| - k - 2
    ensures p.Row(k + 1, inner, outer)
         == InsertAt(RemoveAt(RemoveAt(p.Row(k, inner, outer), p.Pos2(k)), p.Pos1(k)), p.PosNew(k), inner[k])
  {
    hide RemoveAt, InsertAt, Plan.Shape;
    StepBounds(p, k);
    var u, v, l, m := p.used[k], p.used[k + 1], p.Leaf(k), p.Leaf(k + 1);
    var a, b := inner[u..k], outer[l..];
    DropTwo(a, b, v - u, inner[k]);
    assert a[v - u..] == inner[v..k] && b[m - l..] == outer[m..];
    assert inner[v..k] + [inner[k]] == inner[v..k + 1];
    assert a[0..] == a && b[0..] == b;
  }

  /** The weights before step `k`. */
  ghost function Front(p: Plan, k: nat): (w: seq<nat>)
    requires p.Shape() && k <= p.Steps()
    ensures |w| == |p.leaves| - k
  {
    p.LeafBounds(k);
    p.Row(k, p.made, p.leaves)
  }

  /** Each new node weighs as much as the two it is made of. */
  ghost predicate Adds(p: Plan)
    requires p.Shape()
  {
    forall k :: 0 <= k < p.Steps() ==> AddsAt(p, k)
  }

  ghost predicate AddsAt(p: Plan, k: nat)
    requires p.Shape() && k < p.Steps()
  {
    RowStep(p, k, p.made, p.leaves);
    p.made[k] == Front(p, k)[p.Pos1(k)] + Front(p, k)[p.Pos2(k)]
  }

  /** Step `k` takes two weights that no remaining weight undercuts. */
  ghost predicate GreedyAt(p: Plan, k: nat)
    requires p.Shape() && k < p.Steps()
  {
    RowStep(p, k, p.made, p.leaves);
    var w := Front(p, k);
    forall t :: 0 <= t < |w| && t != p.Pos1(k) && t != p.Pos2(k) ==> w[p.Pos1(k)] <= w[t] && w[p.Pos2(k)] <= w[t]
  }

  ghost predicate Greedy(p: Plan)
    requires p.Shape()
  {
    forall k :: 0 <= k < p.Steps() ==> GreedyAt(p, k)
  }

  ghost predicate Finished(p: Plan) {
    p.Shape() && p.Steps() == |p.leaves| - 1 && Adds(p)
  }

  /** The depths of internal nodes and of leaves in the tree a plan builds. */
  ghost predicate DepthsOf(p: Plan, inner: seq<nat>, outer: seq<nat>)
    requires p.Shape()
  {
    && |inner| == p.Steps() && |outer| == |p.leaves|
    && inner[p.Steps() - 1] == 0
    && (forall j: nat, i: nat :: p.TakesNode(j, i) && i < |inner| ==> inner[i] == inner[j] + 1)
    && (forall j: nat, i: nat :: p.TakesLeaf(j, i) && i < |outer| ==> outer[i] == inner[j] + 1)
  }

  /** The total weight never changes. */
  lemma {:induction false} TotalKept(p: Plan, k: nat)
    requires p.Shape() && Adds(p) && k <= p.Steps()
    ensures Sum(Front(p, k)) == Sum(p.leaves)
  {
    hide *;
    if k == 0 {
      FrontAtStart(p);
    } else {
      TotalKept(p, k - 1);
      SumOfTwo(p, k - 1);
      FrontStep(p, k - 1, seq(p.Steps(), _ => 0), seq(|p.leaves|, _ => 0));
    }
  }

  lemma FrontAtStart(p: Plan)
    requires p.Shape()
    ensures Front(p, 0) == p.leaves
  {
  }

  /** One step, on weights and on lengths at once. */
  lemma FrontStep(p: Plan, k: nat, inner: seq<nat>, outer: seq<nat>)
    requires p.Shape() && k < p.Steps() && |inner| == p.Steps() && |outer| == |p.leaves|
    ensures p.Pos1(k) < p.Pos2(k) < |Front(p, k)| == |p.Row(k, inner, outer)|
    ensures |Front(p, k + 1)| == |p.Row(k + 1, inner, outer)| == |Front(p, k)| - 1
    ensures var w, w', l, l' := Front(p, k), Front(p, k + 1), p.Row(k, inner, outer), p.Row(k + 1, inner, outer);
            var a, b := p.Pos1(k), p.Pos2(k);
            && Sum(w') == Sum(w) - w[a] - w[b] + p.made[k]
            && Cost(w', l') == Cost(w, l) - w[a] * l[a] - w[b] * l[b] + p.made[k] * inner[k]
            && Kraft(l') == Kraft(l) - Half(l[a]) - Half(l[b]) + Half(inner[k])
  {
    hide *;
    MadeSteps(p);
    RowStep(p, k, p.made, p.leaves);
    RowStep(p, k, inner, outer);
    FrontIs(p, k);
    FrontIs(p, k + 1);
    StepShares(Front(p, k), p.Row(k, inner, outer), p.Pos1(k), p.Pos2(k), p.PosNew(k), p.made[k], inner[k]);
  }

  lemma MadeSteps(p: Plan)
    ensures |p.made| == p.Steps()
  {
  }

  lemma StepShares(w: seq<nat>, l: seq<nat>, a: nat, b: nat, at: nat, x: nat, m: nat)
    requires |w| == |l| && a < b < |w| && at <= |w| - 2
    ensures var w' := InsertAt(RemoveAt(RemoveAt(w, b), a), at, x);
            var l' := InsertAt(RemoveAt(RemoveAt(l, b), a), at, m);
            && |w'| == |l'|
            && Sum(w') == Sum(w) - w[a] - w[b] + x
            && Cost(w', l') == Cost(w, l) - w[a] * l[a] - w[b] * l[b] + x * m
            && Kraft(l') == Kraft(l) - Half(l[a]) - Half(l[b]) + Half(m)
  {
    RemoveShare(w, l, b);
    RemoveShare(RemoveAt(w, b), RemoveAt(l, b), a);
    InsertShare(RemoveAt(RemoveAt(w, b), a), RemoveAt(RemoveAt(l, b), a), at, x, m);
  }

  /** The cost of a finished plan's depths is the sum of the weights made, and its Kraft sum is one. */
  lemma {:induction false} RunCost(p: Plan, k: nat, inner: seq<nat>, outer: seq<nat>)
    requires Finished(p) && DepthsOf(p, inner, outer) && k <= p.Steps()
    requires |inner| == p.Steps() && |outer| == |p.leaves|
    ensures |p.Row(k, inner, outer)| == |Front(p, k)|
    ensures Cost(Front(p, k), p.Row(k, inner, outer)) == Sum(p.made[k..])
    ensures Kraft(p.Row(k, inner, outer)) == 1.0
    decreases p.Steps() - k
  {
    hide Cost, Kraft, Half, Front, Plan.Row, Plan.Pos1, Plan.Pos2, DepthsOf;
    if k == p.Steps() {
      LastFront(p, inner, outer);
    } else {
      RunCost(p, k + 1, inner, outer);
      FrontStep(p, k, inner, outer);
      TakenDepths(p, k, inner, outer);
      assert AddsAt(p, k);
      var w, d := Front(p, k), inner[k];
      TwoShares(w[p.Pos1(k)], w[p.Pos2(k)], d);
      assert p.made[k..] == [p.made[k]] + p.made[k + 1..];
      HalfSplit(d);
    }
  }

  lemma HalfSplit(d: nat)
    ensures Half(d) == Half(d + 1) + Half(d + 1)
  {
  }

  lemma TwoShares(x: nat, y: nat, d: nat)
    ensures x * (d + 1) + y * (d + 1) == (x + y) * d + (x + y)
  {
  }

  lemma LastFront(p: Plan, inner: seq<nat>, outer: seq<nat>)
    requires Finished(p) && DepthsOf(p, inner, outer)
    ensures p.Row(p.Steps(), inner, outer) == [0]
    ensures |Front(p, p.Steps())| == 1 && Cost(Front(p, p.Steps()), [0]) == 0
    ensures Kraft([0]) == 1.0
  {
    var k := p.Steps();
    p.LeafBounds(k);
    assert p.used[k] < k && p.Leaf(k) <= |p.leaves| == k + 1;
    assert p.used[k] == k - 1;
    assert Half(0) == 1.0;
    assert Kraft([0]) == Half(0) + Kraft([]);
    var w := Front(p, k);
    assert Cost(w, [0]) == w[0] * 0 + Cost([], []);
  }

  lemma TakenDepths(p: Plan, k: nat, inner: seq<nat>, outer: seq<nat>)
    requires p.Shape() && DepthsOf(p, inner, outer) && k < p.Steps()
    ensures p.Pos1(k) < p.Pos2(k) < |p.Row(k, inner, outer)|
    ensures p.Row(k, inner, outer)[p.Pos1(k)] == inner[k] + 1
    ensures p.Row(k, inner, outer)[p.Pos2(k)] == inner[k] + 1
  {
    RowStep(p, k, inner, outer);
    p.LeafBounds(k);
    p.LeafBounds(k + 1);
    var u, l := p.used[k], p.Leaf(k);
    var taken := p.used[k + 1] - u;
    if taken > 0 { assert p.TakesNode(k, u); }
    if taken > 1 { assert p.TakesNode(k, u + 1); }
    if taken < 2 { assert p.TakesLeaf(k, l); }
    if taken < 1 { assert p.TakesLeaf(k, l + 1); }
  }

  /** The position of a largest length, leaving out one position. */
  lemma {:induction false} LargestBut(l: seq<nat>, skip: nat) returns (q: nat)
    requires |l| >= 2
    ensures q < |l| && q != skip && forall i :: 0 <= i < |l| && i != skip ==> l[i] <= l[q]
  {
    q := if skip == 0 then 1 else 0;
    for i := 0 to |l|
      invariant q < |l| && q != skip
      invariant forall t :: 0 <= t < i && t != skip ==> l[t] <= l[q]
    {
      if i != skip && l[i] > l[q] { q := i; }
    }
  }

  /** The two lightest weights can be given the two longest lengths at no extra cost. */
  lemma LongestToLightest(w: seq<nat>, l: seq<nat>, lo: nat, hi: nat) returns (l2: seq<nat>)
    requires |w| == |l| && lo < |w| && hi < |w| && lo != hi && w[lo] <= w[hi]
    requires forall t :: 0 <= t < |w| && t != lo && t != hi ==> w[hi] <= w[t]
    ensures |l2| == |l| && Cost(w, l2) <= Cost(w, l) && Kraft(l2) == Kraft(l)
    ensures l2[hi] <= l2[lo] && forall t :: 0 <= t < |l2| && t != lo && t != hi ==> l2[t] <= l2[hi]
  {
    hide Cost, Kraft;
    var p := LargestBut(l, |l|);
    SwapHelps(w, l, lo, p);
    var l1 := Swap(l, lo, p);
    assert forall t :: 0 <= t < |l1| ==> l1[t] <= l1[lo];
    var q := LargestBut(l1, lo);
    SwapHelps(w, l1, hi, q);
    l2 := Swap(l1, hi, q);
  }

  /** A merged node fits one level above the shorter of the two lengths it replaces. */
  lemma MergeFits(rest: seq<nat>, a: nat, b: nat)
    requires b <= a && forall t :: 0 <= t < |rest| ==> rest[t] <= b
    requires Kraft(rest) + Half(a) + Half(b) <= 1.0
    ensures b >= 1 && Kraft(rest) + Half(b - 1) <= 1.0
  {
    KraftConcat(rest, [b]);
    assert Kraft([b]) == Half(b) + Kraft([]);
    SlackIsWhole(rest + [b], b);
    assert Half(0) == 1.0;
    HalfSplit(b - 1);
  }

  lemma SharesAtLeast(wl: nat, wh: nat, a: nat, b: nat)
    requires 1 <= b <= a
    ensures wl * a + wh * b >= (wl + wh) * (b - 1) + (wl + wh)
  {
    assert wl * a >= wl * b;
    assert (wl + wh) * (b - 1) + (wl + wh) == wl * b + wh * b;
  }

  lemma Others(l: seq<nat>, a: nat, b: nat, hi: nat)
    requires a < b < |l| && hi < |l| && forall t :: 0 <= t < |l| && t != a && t != b ==> l[t] <= l[hi]
    ensures var rest := RemoveAt(RemoveAt(l, b), a); |rest| == |l| - 2 && forall t :: 0 <= t < |rest| ==> rest[t] <= l[hi]
  {
  }

  /** One step of the lower bound, on plain sequences. */
  lemma MergeBound(w: seq<nat>, l: seq<nat>, a: nat, b: nat, at: nat) returns (l': seq<nat>)
    requires |w| == |l| && a < b < |w| && at <= |w| - 2 && Kraft(l) <= 1.0
    requires forall t :: 0 <= t < |w| && t != a && t != b ==> w[a] <= w[t] && w[b] <= w[t]
    ensures var w' := InsertAt(RemoveAt(RemoveAt(w, b), a), at, w[a] + w[b]);
            |l'| == |w'| && Kraft(l') <= 1.0 && Cost(w, l) >= Cost(w', l') + w[a] + w[b]
  {
    hide Cost, Kraft, Half, Sum;
    var lo, hi := if w[a] <= w[b] then a else b, if w[a] <= w[b] then b else a;
    var l2 := LongestToLightest(w, l, lo, hi);
    var rest := RemoveAt(RemoveAt(l2, b), a);
    Others(l2, a, b, hi);
    StepShares(w, l2, a, b, at, w[a] + w[b], 0);
    RemoveShare(w, l2, b);
    RemoveShare(RemoveAt(w, b), RemoveAt(l2, b), a);
    MergeFits(rest, l2[lo], l2[hi]);
    var m := l2[hi] - 1;
    l' := InsertAt(rest, at, m);
    StepShares(w, l2, a, b, at, w[a] + w[b], m);
    SharesAtLeast(w[lo], w[hi], l2[lo], l2[hi]);
  }

  /** No assignment of lengths that satisfies Kraft's inequality costs less than the weights made. */
  lemma {:induction false} LowerBound(p: Plan, k: nat, l: seq<nat>)
    requires Finished(p) && Greedy(p) && k <= p.Steps()
    requires |l| == |p.leaves| - k && Kraft(l) <= 1.0
    ensures Cost(Front(p, k), l) >= Sum(p.made[k..])
    decreases p.Steps() - k
  {
    hide Cost, Kraft, Half, Front, Plan.Row, Plan.Pos1, Plan.Pos2;
    if k == p.Steps() {
      NothingLeft(p);
    } else {
      RowStep(p, k, p.made, p.leaves);
      assert AddsAt(p, k) && GreedyAt(p, k);
      FrontIs(p, k);
      FrontIs(p, k + 1);
      var l' := MergeBound(Front(p, k), l, p.Pos1(k), p.Pos2(k), p.PosNew(k));
      LowerBound(p, k + 1, l');
      assert p.made[k..] == [p.made[k]] + p.made[k + 1..];
    }
  }

  lemma FrontIs(p: Plan, k: nat)
    requires p.Shape() && k <= p.Steps()
    ensures Front(p, k) == p.Row(k, p.made, p.leaves)
  {
  }

  lemma NothingLeft(p: Plan)
    ensures Sum(p.made[p.Steps()..]) == 0
  {
  }

  /** The depths of a greedy plan's leaves are an optimal prefix code: their Kraft sum is exactly
      one and no lengths that satisfy Kraft's inequality have a smaller weighted total. */
  lemma Optimal(p: Plan, inner: seq<nat>, outer: seq<nat>)
    requires Finished(p) && Greedy(p) && DepthsOf(p, inner, outer)
    ensures |outer| == |p.leaves| && Kraft(outer) == 1.0
    ensures forall l: seq<nat> :: |l| == |p.leaves| && Kraft(l) <= 1.0 ==> Cost(p.leaves, outer) <= Cost(p.leaves, l)
  {
    hide Cost, Kraft, Half;
    RunCost(p, 0, inner, outer);
    assert Front(p, 0) == p.leaves;
    assert p.Row(0, inner, outer) == outer;
    forall l: seq<nat> | |l| == |p.leaves| && Kraft(l) <= 1.0 ensures Cost(p.leaves, outer) <= Cost(p.leaves, l) {
      LowerBound(p, 0, l);
    }
  }

  function Fib(n: nat): nat {
    if n < 2 then n else Fib(n - 1) + Fib(n - 2)
  }

  lemma {:induction false} FibMonotone(a: nat, b: nat)
    requires a <= b
    ensures Fib(a) <= Fib(b)
    decreases b
  {
    if a < b {
      FibMonotone(a, b - 1);
      assert Fib(b) >= Fib(b - 1);
    }
  }

  ghost predicate Ascending(s: seq<nat>) {
    forall i, j :: 0 <= i <= j < |s| ==> s[i] <= s[j]
  }

  lemma {:induction false} UsedGrows(p: Plan, a: nat, b: nat)
    requires p.Shape() && a <= b <= p.Steps()
    ensures p.used[a] <= p.used[b] && p.Leaf(a) <= p.Leaf(b)
    decreases b
  {
    if a < b { UsedGrows(p, a, b - 1); }
  }

  /** Every internal node but the last is taken by a later step. */
  lemma TakerOfNode(p: Plan, i: nat) returns (j: nat)
    requires Finished(p) && i < p.Steps() - 1
    ensures i < j && p.TakesNode(j, i)
  {
    p.LeafBounds(p.Steps());
    j := i;
    while !(p.used[j] <= i < p.used[j + 1])
      invariant i <= j < p.Steps() && p.used[j] <= i
      decreases p.Steps() - j
    {
      j := j + 1;
    }
  }

  lemma TakerOfLeaf(p: Plan, i: nat) returns (j: nat)
    requires Finished(p) && i < |p.leaves|
    ensures p.TakesLeaf(j, i)
  {
    p.LeafBounds(p.Steps());
    j := 0;
    while !(p.Leaf(j) <= i < p.Leaf(j + 1))
      invariant j < p.Steps() && p.Leaf(j) <= i
      decreases p.Steps() - j
    {
      j := j + 1;
    }
  }

  /** The weight `x` is one of the two that step `j` takes. */
  ghost predicate TakesWeight(p: Plan, j: nat, x: nat)
    requires p.Shape()
  {
    (exists i: nat :: p.TakesNode(j, i) && i < |p.made| && p.made[i] == x)
    || (exists i: nat :: p.TakesLeaf(j, i) && i < |p.leaves| && p.leaves[i] == x)
  }

  /** What is left after a greedy step weighs at least as much as what it took. */
  lemma LaterWeights(p: Plan, j: nat, x: nat)
    requires p.Shape() && Adds(p) && Greedy(p) && j < p.Steps() && TakesWeight(p, j, x)
    ensures p.made[j] >= x
    ensures forall t :: p.used[j + 1] <= t < j ==> p.made[t] >= x
    ensures forall t :: p.Leaf(j + 1) <= t < |p.leaves| ==> p.leaves[t] >= x
  {
    hide Front, Adds, Greedy, TakesWeight, AddsAt, GreedyAt, Plan.Shape;
    TakenStands(p, j, x);
    StepWeights(p, j);
    LeafAhead(p, j + 1);
    forall t: nat | p.used[j + 1] <= t < j ensures p.made[t] >= x { LaterNode(p, j, t); }
    forall t: nat | p.Leaf(j + 1) <= t < |p.leaves| ensures p.leaves[t] >= x { LaterLeaf(p, j, t); }
  }

  lemma LeafAhead(p: Plan, j: nat)
    requires p.Shape() && j <= p.Steps()
    ensures j < |p.used| && p.used[j] >= 0 && p.Leaf(j) >= 0
  {
    p.LeafBounds(j);
  }

  lemma StepWeights(p: Plan, j: nat)
    requires p.Shape() && Adds(p) && Greedy(p) && j < p.Steps()
    ensures p.Pos1(j) < p.Pos2(j) < |Front(p, j)| && p.made[j] == Front(p, j)[p.Pos1(j)] + Front(p, j)[p.Pos2(j)]
    ensures forall t :: 0 <= t < |Front(p, j)| && t != p.Pos1(j) && t != p.Pos2(j) ==>
      Front(p, j)[p.Pos1(j)] <= Front(p, j)[t] && Front(p, j)[p.Pos2(j)] <= Front(p, j)[t]
  {
    hide Front, Plan.Shape, Plan.Pos1, Plan.Pos2, Plan.Row;
    RowStep(p, j, p.made, p.leaves);
    assert AddsAt(p, j) && GreedyAt(p, j);
  }

  /** Where the nodes and leaves stand that a step leaves behind. */
  lemma LaterNode(p: Plan, j: nat, t: nat)
    requires p.Shape() && j < p.Steps() && p.used[j + 1] <= t < j
    ensures 0 <= t - p.used[j] < |Front(p, j)| && t - p.used[j] != p.Pos1(j) && t - p.used[j] != p.Pos2(j)
    ensures Front(p, j)[t - p.used[j]] == p.made[t]
  {
    p.LeafBounds(j);
    p.LeafBounds(j + 1);
  }

  lemma LaterLeaf(p: Plan, j: nat, t: nat)
    requires p.Shape() && j < p.Steps() && p.Leaf(j + 1) <= t < |p.leaves|
    ensures 0 <= t - j < |Front(p, j)| && t - j != p.Pos1(j) && t - j != p.Pos2(j)
    ensures Front(p, j)[t - j] == p.leaves[t]
  {
    p.LeafBounds(j);
    p.LeafBounds(j + 1);
  }

  lemma FrontAt(p: Plan, k: nat)
    requires p.Shape() && k <= p.Steps()
    ensures 0 <= p.used[k] <= k <= p.Leaf(k) <= |p.leaves|
    ensures forall t :: p.used[k] <= t < k ==> Front(p, k)[t - p.used[k]] == p.made[t]
    ensures forall t :: p.Leaf(k) <= t < |p.leaves| ==> Front(p, k)[k - p.used[k] + (t - p.Leaf(k))] == p.leaves[t]
  {
    p.LeafBounds(k);
  }

  lemma TakenStands(p: Plan, j: nat, x: nat)
    requires p.Shape() && j < p.Steps() && TakesWeight(p, j, x)
    ensures p.Pos1(j) < p.Pos2(j) < |Front(p, j)|
    ensures x == Front(p, j)[p.Pos1(j)] || x == Front(p, j)[p.Pos2(j)]
  {
    hide Front;
    RowStep(p, j, p.made, p.leaves);
    PositionsIn(p, j);
    p.LeafBounds(j);
    if i: nat :| p.TakesNode(j, i) && i < |p.made| && p.made[i] == x {
      TakenNode(p, j, i);
    } else {
      var i: nat :| p.TakesLeaf(j, i) && i < |p.leaves| && p.leaves[i] == x;
      TakenLeaf(p, j, i);
    }
  }

  lemma PositionsIn(p: Plan, j: nat)
    requires p.Shape() && j < p.Steps()
    ensures p.Pos1(j) < p.Pos2(j) < |Front(p, j)|
  {
    RowStep(p, j, p.made, p.leaves);
  }

  lemma TakenNode(p: Plan, j: nat, i: nat)
    requires p.Shape() && j < p.Steps() && p.TakesNode(j, i)
    ensures i < |p.made| && 0 <= i - p.used[j] < |Front(p, j)| && Front(p, j)[i - p.used[j]] == p.made[i]
    ensures i - p.used[j] == p.Pos1(j) || i - p.used[j] == p.Pos2(j)
  {
    p.LeafBounds(j);
    p.LeafBounds(j + 1);
  }

  lemma TakenLeaf(p: Plan, j: nat, i: nat)
    requires p.Shape() && j < p.Steps() && p.TakesLeaf(j, i)
    ensures i < |p.leaves| && 0 <= i - j < |Front(p, j)| && Front(p, j)[i - j] == p.leaves[i]
    ensures i - j == p.Pos1(j) || i - j == p.Pos2(j)
  {
    p.LeafBounds(j);
    p.LeafBounds(j + 1);
  }

  lemma GrandParent(p: Plan, jj: nat, j: nat, x: nat)
    requires p.Shape() && Adds(p) && Greedy(p) && Ascending(p.made)
    requires j < jj < p.Steps() && p.TakesNode(jj, j) && TakesWeight(p, j, x)
    ensures p.made[jj] >= p.made[j] + x
  {
    hide Adds, Greedy, TakesWeight, Front;
    LaterWeights(p, j, x);
    UsedGrows(p, j + 1, jj);
    p.LeafBounds(jj);
    var isNode, t := OtherOf(p, jj, j);
  }

  /** What a step takes besides a given node. */
  lemma OtherOf(p: Plan, jj: nat, j: nat) returns (isNode: bool, t: nat)
    requires p.Shape() && Adds(p) && jj < p.Steps() && p.TakesNode(jj, j)
    ensures isNode ==> p.TakesNode(jj, t) && t != j && t < jj && p.made[jj] == p.made[j] + p.made[t]
    ensures !isNode ==> p.TakesLeaf(jj, t) && t < |p.leaves| && p.made[jj] == p.made[j] + p.leaves[t]
  {
    hide Front, Adds;
    p.LeafBounds(jj);
    p.LeafBounds(jj + 1);
    FrontAt(p, jj);
    SumOfTwo(p, jj);
    var w, u, l := Front(p, jj), p.used[jj], p.Leaf(jj);
    isNode := p.used[jj + 1] == u + 2;
    if isNode {
      t := if j == u then u + 1 else u;
      assert w[0] == p.made[u] && w[1] == p.made[u + 1];
    } else {
      t := l;
      assert w[0] == p.made[u] && w[jj - u + (l - l)] == p.leaves[l];
    }
  }

  lemma SumOfTwo(p: Plan, k: nat)
    requires p.Shape() && Adds(p) && k < p.Steps()
    ensures p.Pos1(k) < p.Pos2(k) < |Front(p, k)| && p.made[k] == Front(p, k)[p.Pos1(k)] + Front(p, k)[p.Pos2(k)]
  {
    hide Front, Plan.Shape, Plan.Pos1, Plan.Pos2, Plan.Row;
    RowStep(p, k, p.made, p.leaves);
    assert AddsAt(p, k);
  }

  /** Weights grow like Fibonacci numbers towards the root. */
  lemma {:induction false} ChainBound(p: Plan, inner: seq<nat>, outer: seq<nat>, j: nat, i: nat)
    requires Finished(p) && Greedy(p) && Ascending(p.made) && DepthsOf(p, inner, outer)
    requires i < j < p.Steps() && p.TakesNode(j, i)
    ensures inner[i] >= 1
    ensures p.made[p.Steps() - 1] >= Fib(inner[i]) * p.made[j] + Fib(inner[i] - 1) * p.made[i]
    decreases p.Steps() - i
  {
    hide Greedy, Adds;
    if j < p.Steps() - 1 {
      var jj := TakerOfNode(p, j);
      ChainBound(p, inner, outer, jj, j);
      assert TakesWeight(p, j, p.made[i]);
      GrandParent(p, jj, j, p.made[i]);
      FibStep(inner[j], p.made[jj], p.made[j], p.made[i]);
    }
  }

  lemma FibStep(d: nat, a: nat, b: nat, c: nat)
    requires d >= 1 && a >= b + c
    ensures Fib(d) * a + Fib(d - 1) * b >= Fib(d + 1) * b + Fib(d) * c
  {
    assert Fib(d + 1) == Fib(d) + Fib(d - 1);
    Weighed(Fib(d), Fib(d - 1), a, b, c);
  }

  lemma Weighed(f: nat, g: nat, a: nat, b: nat, c: nat)
    requires a >= b + c
    ensures f * a + g * b >= (f + g) * b + f * c
  {
    Bits.MulMonotone(f, b + c, a);
  }

  /** A leaf `d` levels down weighs at most one part in `Fib(d + 1)` of the whole. */
  lemma LeafWeight(p: Plan, inner: seq<nat>, outer: seq<nat>, i: nat)
    requires Finished(p) && Greedy(p) && Ascending(p.made) && DepthsOf(p, inner, outer) && i < |p.leaves| == |outer|
    ensures Fib(outer[i] + 1) * p.leaves[i] <= Sum(p.leaves)
  {
    hide *;
    FinishedParts(p);
    var x, d := p.leaves[i], outer[i];
    var j := TakerOfLeaf(p, i);
    LeafTaken(p, inner, outer, j, i);
    LaterWeights(p, j, x);
    WholeWeight(p);
    FibOfTwo();
    if j < p.Steps() - 1 {
      var jj := TakerOfNode(p, j);
      GrandParent(p, jj, j, x);
      ChainBound(p, inner, outer, jj, j);
      LeafShare(inner[j], p.made[jj], p.made[j], x);
    } else {
      LastDepth(p, inner, outer);
    }
  }

  lemma FinishedParts(p: Plan)
    requires Finished(p)
    ensures p.Shape() && Adds(p) && |p.made| == p.Steps() == |p.leaves| - 1 > 0
  {
  }

  lemma LastDepth(p: Plan, inner: seq<nat>, outer: seq<nat>)
    requires p.Shape() && DepthsOf(p, inner, outer)
    ensures |inner| == p.Steps() > 0 && inner[p.Steps() - 1] == 0
  {
  }

  lemma LeafTaken(p: Plan, inner: seq<nat>, outer: seq<nat>, j: nat, i: nat)
    requires p.Shape() && DepthsOf(p, inner, outer) && p.TakesLeaf(j, i) && i < |p.leaves|
    ensures j < p.Steps() == |p.made| == |inner| && i < |outer| && outer[i] == inner[j] + 1
    ensures TakesWeight(p, j, p.leaves[i])
  {
  }

  lemma FibOfTwo()
    ensures Fib(2) == 1
  {
  }

  lemma LeafShare(d: nat, a: nat, b: nat, x: nat)
    requires d >= 1 && a >= b + x && b >= x
    ensures Fib(d + 2) * x <= Fib(d) * a + Fib(d - 1) * b
  {
    hide *;
    FibNext(d - 1);
    FibNext(d);
    HeavyShares(Fib(d), Fib(d - 1), a, b, x);
  }

  lemma HeavyShares(f: nat, g: nat, a: nat, b: nat, x: nat)
    requires a >= 2 * x && b >= x
    ensures (f + g + f) * x <= f * a + g * b
  {
    Bits.MulMonotone(f, 2 * x, a);
    Bits.MulMonotone(g, x, b);
    assert f * (2 * x) == f * x + f * x;
    assert (f + g + f) * x == f * x + g * x + f * x;
  }

  /** Leaf depths stay far below the 32 that the length counters are sized for. */
  lemma DepthBound(p: Plan, inner: seq<nat>, outer: seq<nat>, i: nat)
    requires Finished(p) && Greedy(p) && Ascending(p.made) && DepthsOf(p, inner, outer)
    requires Sum(p.leaves) < 65536 && (forall t :: 0 <= t < |p.leaves| ==> p.leaves[t] >= 1)
    requires i < |p.leaves|
    ensures 1 <= outer[i] <= 22
  {
    var j := TakerOfLeaf(p, i);
    assert TakesWeight(p, j, p.leaves[i]);
    var last := p.Steps() - 1;
    if j < last {
      var jj := TakerOfNode(p, j);
      GrandParent(p, jj, j, p.leaves[i]);
      ChainBound(p, inner, outer, jj, j);
      MadeAtLeastTwo(p, j);
      WholeWeight(p);
      BigDepth(inner[j], p.made[jj], p.made[j], p.made[last]);
    }
  }

  lemma BigDepth(d: nat, a: nat, b: nat, total: nat)
    requires d >= 1 && a >= 3 && b >= 2 && 65536 > total >= Fib(d) * a + Fib(d - 1) * b
    ensures d <= 21
  {
    hide Fib;
    FibNext(d - 1);
    FibNext(d);
    FibNext(d + 1);
    ScaledPair(Fib(d), Fib(d - 1), a, b);
    FibTwentyFive();
    if d >= 22 { FibMonotone(25, d + 3); }
  }

  lemma FibNext(d: nat)
    ensures Fib(d + 2) == Fib(d + 1) + Fib(d)
  {
  }

  lemma ScaledPair(f: nat, g: nat, a: nat, b: nat)
    requires a >= 3 && b >= 2
    ensures f * a + g * b >= 3 * f + 2 * g
  {
    assert f * a >= f * 3 && g * b >= g * 2;
  }

  lemma FibTwentyFive()
    ensures Fib(25) == 75025
  {
    assert Fib(6) == 8 && Fib(7) == 13;
    assert Fib(10) == 55 && Fib(11) == 89;
    assert Fib(15) == 610 && Fib(16) == 987;
    assert Fib(20) == 6765 && Fib(21) == 10946;
    assert Fib(23) == 28657 && Fib(24) == 46368;
  }

  lemma MadeAtLeastTwo(p: Plan, j: nat)
    requires p.Shape() && Adds(p) && j < p.Steps()
    requires forall t :: 0 <= t < |p.leaves| ==> p.leaves[t] >= 1
    ensures p.made[j] >= 2
  {
    assert AddsAt(p, j);
    p.LeafBounds(j);
    RowStep(p, j, p.made, p.leaves);
    var w, u, l := Front(p, j), p.used[j], p.Leaf(j);
    forall t | 0 <= t < |w| ensures w[t] >= 1 {
      if t < j - u {
        MadeAtLeastTwo(p, t + u);
        assert w[t] == p.made[t + u];
      } else {
        assert w[t] == p.leaves[t - (j - u) + l];
      }
    }
  }

  lemma WholeWeight(p: Plan)
    requires Finished(p)
    ensures p.made[p.Steps() - 1] == Sum(p.leaves)
  {
    var k := p.Steps();
    TotalKept(p, k);
    p.LeafBounds(k);
    assert Front(p, k) == [p.made[k - 1]];
    assert Sum([p.made[k - 1]]) == p.made[k - 1] + Sum([]);
  }
}
