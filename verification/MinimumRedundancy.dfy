/** The in-place minimum-redundancy routine of Moffat and Katajainen: it overwrites ascending
    frequencies with optimal code lengths. */
module MinimumRedundancy {
  import opened WeightedLengths
  import opened HuffmanPlan

  /** A store through the source's 16-bit key type. */
  function U16(x: nat): nat { x % 65536 }

  lemma FitsU16(x: nat)
    requires x < 65536
    ensures U16(x) == x
  {
  }

  /** All weights still to be taken before the next step are at least `m`, and the last weight
      made is at most twice that. */
  ghost predicate Frontier(p: Plan, m: nat)
    requires p.Shape()
  {
    var k := p.Steps();
    && p.made[k - 1] <= 2 * m
    && (forall t :: p.used[k] <= t < k ==> m <= p.made[t])
    && (forall t :: p.Leaf(k) <= t < |p.leaves| ==> m <= p.leaves[t])
  }

  /** What the first phase maintains about the run so far. */
  ghost predicate Running(p: Plan) {
    && p.Shape() && Adds(p) && Greedy(p)
    && Ascending(p.made) && Ascending(p.leaves)
    && Sum(p.leaves) < 65536
    && (exists m: nat :: Frontier(p, m))
  }

  /** The plan after one more step that takes `taken` internal nodes. */
  ghost function Extend(p: Plan, taken: nat, weight: nat): Plan
    requires p.Shape()
  {
    Plan(p.leaves, p.used + [p.used[p.Steps()] + taken], p.made + [weight])
  }

  /** The two weights that the next step takes. */
  ghost predicate NextTwo(p: Plan, taken: nat, x: nat, y: nat)
    requires p.Shape()
  {
    p.LeafBounds(p.Steps());
    var k := p.Steps();
    var r, l := p.used[k], p.Leaf(k);
    && taken <= 2 && k + 1 < |p.leaves| && r + taken <= k && l + 2 - taken <= |p.leaves|
    && (taken == 0 ==> (x == p.leaves[l] && y == p.leaves[l + 1]) || (y == p.leaves[l] && x == p.leaves[l + 1]))
    && (taken == 1 ==> (x == p.made[r] && y == p.leaves[l]) || (y == p.made[r] && x == p.leaves[l]))
    && (taken == 2 ==> (x == p.made[r] && y == p.made[r + 1]) || (y == p.made[r] && x == p.made[r + 1]))
  }

  lemma ExtendShape(p: Plan, taken: nat, x: nat, y: nat)
    requires p.Shape() && NextTwo(p, taken, x, y)
    ensures Extend(p, taken, x + y).Shape()
  {
    var p' := Extend(p, taken, x + y);
    var k := p.Steps();
    p.LeafBounds(k);
    forall j | 0 <= j < |p'.made| ensures p'.used[j] <= p'.used[j + 1] <= p'.used[j] + 2 {
      if j < k { assert p'.used[j] == p.used[j] && p'.used[j + 1] == p.used[j + 1]; }
    }
    forall j | 0 <= j <= |p'.made| ensures p'.Leaf(j) <= |p'.leaves| {
      if j <= k { assert p'.Leaf(j) == p.Leaf(j); }
    }
  }

  lemma ExtendFront(p: Plan, p': Plan, k: nat)
    requires p.Shape() && p'.Shape() && k <= p.Steps()
    requires p'.leaves == p.leaves && p.used <= p'.used && p.made <= p'.made
    ensures Front(p', k) == Front(p, k)
  {
    p.LeafBounds(k);
    assert p'.used[k] == p.used[k];
    assert p'.made[p.used[k]..k] == p.made[p.used[k]..k];
  }

  lemma ExtendOld(p: Plan, p': Plan)
    requires p.Shape() && p'.Shape() && Adds(p) && Greedy(p)
    requires p'.leaves == p.leaves && p.used <= p'.used && p.made <= p'.made
    ensures forall k :: 0 <= k < p.Steps() ==> AddsAt(p', k) && GreedyAt(p', k)
  {
    forall k | 0 <= k < p.Steps() ensures AddsAt(p', k) && GreedyAt(p', k) {
      ExtendFront(p, p', k);
      assert AddsAt(p, k) && GreedyAt(p, k);
      assert p'.used[k] == p.used[k] && p'.used[k + 1] == p.used[k + 1] && p'.made[k] == p.made[k];
    }
  }

  /** Where the two weights stand, and that no other weight is smaller. */
  lemma NewWeights(p: Plan, taken: nat, x: nat, y: nat, a: nat, b: nat)
    requires p.Shape() && NextTwo(p, taken, x, y) && x <= y
    requires forall t :: p.used[p.Steps()] + taken <= t < p.Steps() ==> y <= p.made[t]
    requires forall t :: p.Leaf(p.Steps()) + 2 - taken <= t < |p.leaves| ==> y <= p.leaves[t]
    requires a == if taken > 0 then 0 else p.Steps() - p.used[p.Steps()]
    requires b == if taken == 2 then 1 else p.Steps() - p.used[p.Steps()] + 1 - taken
    ensures a < b < |Front(p, p.Steps())|
    ensures Front(p, p.Steps())[a] + Front(p, p.Steps())[b] == x + y
    ensures forall t :: 0 <= t < |Front(p, p.Steps())| && t != a && t != b ==>
              Front(p, p.Steps())[a] <= Front(p, p.Steps())[t] && Front(p, p.Steps())[b] <= Front(p, p.Steps())[t]
  {
    var k := p.Steps();
    FrontAt(p, k);
    hide Front, Plan.Shape;
    var w, r, l := Front(p, k), p.used[k], p.Leaf(k);
    forall t | 0 <= t < |w| && t != a && t != b ensures y <= w[t] {
      if t < k - r { assert w[t + r - r] == p.made[t + r]; } else { assert w[k - r + (t - (k - r))] == p.leaves[t - (k - r) + l]; }
    }
    if taken > 0 { assert w[r - r] == p.made[r]; }
    if taken > 1 { assert w[r + 1 - r] == p.made[r + 1]; }
    if taken < 2 { assert w[k - r + (l - l)] == p.leaves[l]; }
    if taken < 1 { assert w[k - r + (l + 1 - l)] == p.leaves[l + 1]; }
  }

  lemma NewStep(p: Plan, p': Plan, taken: nat, x: nat, y: nat)
    requires p.Shape() && NextTwo(p, taken, x, y) && x <= y
    requires forall t :: p.used[p.Steps()] + taken <= t < p.Steps() ==> y <= p.made[t]
    requires forall t :: p.Leaf(p.Steps()) + 2 - taken <= t < |p.leaves| ==> y <= p.leaves[t]
    requires p' == Extend(p, taken, x + y) && p'.Shape()
    ensures AddsAt(p', p.Steps()) && GreedyAt(p', p.Steps())
  {
    var k := p.Steps();
    ExtendFront(p, p', k);
    RowStep(p', k, p'.made, p'.leaves);
    hide Front, Plan.Shape, NextTwo;
    NewWeights(p, taken, x, y, p'.Pos1(k), p'.Pos2(k));
  }

  lemma NewFrontier(p: Plan, p': Plan, taken: nat, x: nat, y: nat, m: nat)
    requires p.Shape() && NextTwo(p, taken, x, y) && x <= y && Frontier(p, m) && Ascending(p.made)
    requires forall t :: p.used[p.Steps()] + taken <= t < p.Steps() ==> y <= p.made[t]
    requires forall t :: p.Leaf(p.Steps()) + 2 - taken <= t < |p.leaves| ==> y <= p.leaves[t]
    requires p' == Extend(p, taken, x + y) && p'.Shape()
    ensures Frontier(p', y) && Ascending(p'.made)
  {
    p.LeafBounds(p.Steps());
    assert p.made[p.Steps() - 1] <= x + y;
  }

  /** Taking the two smallest weights keeps the run a greedy one. */
  lemma ExtendRun(p: Plan, taken: nat, x: nat, y: nat)
    requires Running(p) && NextTwo(p, taken, x, y) && x <= y
    requires forall t :: p.used[p.Steps()] + taken <= t < p.Steps() ==> y <= p.made[t]
    requires forall t :: p.Leaf(p.Steps()) + 2 - taken <= t < |p.leaves| ==> y <= p.leaves[t]
    ensures Running(Extend(p, taken, x + y)) && x + y < 65536
  {
    hide Plan.Shape, NextTwo, AddsAt, GreedyAt, Frontier, Ascending, Sum;
    var p' := Extend(p, taken, x + y);
    ExtendShape(p, taken, x, y);
    ExtendOld(p, p');
    NewStep(p, p', taken, x, y);
    var m: nat :| Frontier(p, m);
    NewFrontier(p, p', taken, x, y, m);
    assert Adds(p') && Greedy(p');
    BelowTotal(p', p.Steps());
  }

  /** No weight made exceeds the total of the frequencies. */
  lemma BelowTotal(p: Plan, k: nat)
    requires p.Shape() && Adds(p) && k < p.Steps()
    ensures p.made[k] <= Sum(p.leaves)
  {
    TotalKept(p, k);
    assert AddsAt(p, k);
    RowStep(p, k, p.made, p.leaves);
    TwoInSum(Front(p, k), p.Pos1(k), p.Pos2(k));
  }

  lemma TwoInSum(w: seq<nat>, a: nat, b: nat)
    requires a < b < |w|
    ensures w[a] + w[b] <= Sum(w)
  {
    RemoveShare(w, w, b);
    RemoveShare(RemoveAt(w, b), RemoveAt(w, b), a);
  }

  ghost function FirstPlan(leaves: seq<nat>): Plan
    requires |leaves| >= 2
  {
    Plan(leaves, [0, 0], [leaves[0] + leaves[1]])
  }

  lemma StartRun(leaves: seq<nat>)
    requires |leaves| >= 2 && Ascending(leaves) && Sum(leaves) < 65536
    ensures Running(FirstPlan(leaves)) && leaves[0] + leaves[1] < 65536
  {
    hide *;
    FirstFront(leaves);
    FirstFrontier(leaves);
    BelowTotal(FirstPlan(leaves), 0);
    MakeRunning(FirstPlan(leaves), leaves[1]);
  }

  lemma FirstFrontier(leaves: seq<nat>)
    requires |leaves| >= 2 && Ascending(leaves)
    ensures var p := FirstPlan(leaves);
            p.Shape() && Frontier(p, leaves[1]) && p.leaves == leaves && p.made == [leaves[0] + leaves[1]] && Ascending(p.made) && p.Steps() == 1
  {
  }

  lemma MakeRunning(p: Plan, m: nat)
    requires p.Shape() && Adds(p) && Greedy(p) && Ascending(p.made) && Ascending(p.leaves) && Sum(p.leaves) < 65536 && Frontier(p, m)
    ensures Running(p)
  {
  }

  lemma FirstFront(leaves: seq<nat>)
    requires |leaves| >= 2 && Ascending(leaves)
    ensures FirstPlan(leaves).Shape() && Adds(FirstPlan(leaves)) && Greedy(FirstPlan(leaves))
  {
    var p := FirstPlan(leaves);
    RowStep(p, 0, p.made, p.leaves);
    assert Front(p, 0) == leaves;
    hide Front;
    assert AddsAt(p, 0) && GreedyAt(p, 0);
  }

  /** The array while the tree is built: parents of the nodes taken, then weights of the nodes
      made, and untouched frequencies at the end. */
  ghost predicate Overlay(p: Plan, a: seq<nat>)
    requires p.Shape()
  {
    var k := p.Steps();
    && |a| == |p.leaves|
    && (forall i :: 0 <= i < p.used[k] ==> p.TakesNode(a[i], i))
    && (forall i :: p.used[k] <= i < k ==> a[i] == p.made[i])
    && (forall i :: 0 <= p.Leaf(k) <= i < |a| ==> a[i] == p.leaves[i])
  }

  /** One step of the array keeps the overlay. */
  lemma OverlayStep(p: Plan, a: seq<nat>, taken: nat, x: nat, y: nat, a': seq<nat>)
    requires p.Shape() && NextTwo(p, taken, x, y) && Overlay(p, a) && |a'| == |a|
    requires forall i :: p.used[p.Steps()] <= i < p.used[p.Steps()] + taken ==> a'[i] == p.Steps()
    requires a'[p.Steps()] == x + y
    requires forall i :: (0 <= i < p.used[p.Steps()] || p.used[p.Steps()] + taken <= i < |a|) && i != p.Steps() ==>
               a'[i] == a[i]
    ensures Extend(p, taken, x + y).Shape() && Overlay(Extend(p, taken, x + y), a')
  {
    ExtendShape(p, taken, x, y);
    var p', k := Extend(p, taken, x + y), p.Steps();
    p.LeafBounds(k);
    forall i | 0 <= i < p'.used[k + 1] ensures p'.TakesNode(a'[i], i) {
      if i < p.used[k] {
        assert p.TakesNode(a[i], i);
        assert p'.used[a[i]] == p.used[a[i]] && p'.used[a[i] + 1] == p.used[a[i] + 1];
      }
    }
  }

  /** Phase one: merges the weights and leaves each inner node's parent in its place. */
  method BuildParents(a: array<nat>) returns (ghost p: Plan)
    requires 2 <= a.Length <= 65536 && Ascending(a[..]) && Sum(a[..]) < 65536
    modifies a
    ensures p.leaves == old(a[..]) && Finished(p) && Greedy(p) && Ascending(p.made)
    ensures p.used[p.Steps()] == p.Steps() - 1 && Overlay(p, a[..])
  {
    hide Sum, Ascending, Running, Overlay;
    var n := a.Length;
    StartRun(a[..]);
    p := FirstPlan(a[..]);
    a[0] := U16(a[0] + a[1]);
    var root, leaf, next := 0, 2, 1;
    assert Overlay(p, a[..]) by { FirstOverlay(old(a[..]), a[..]); }
    while next < n - 1
      invariant 1 <= next <= n - 1 && Running(p) && p.Shape() && p.leaves == old(a[..]) && p.Steps() == next
      invariant root == p.used[p.Steps()] && leaf == p.Leaf(p.Steps()) && Overlay(p, a[..])
      decreases n - next
    {
      root, leaf, p := MergeStep(a, root, leaf, next, p);
      next := next + 1;
    }
    FinishRun(p, a[..]);
  }

  lemma FirstOverlay(leaves: seq<nat>, a: seq<nat>)
    requires |leaves| >= 2 && |a| == |leaves| && a == leaves[0 := leaves[0] + leaves[1]]
    ensures FirstPlan(leaves).Shape() && Overlay(FirstPlan(leaves), a)
  {
  }

  lemma FinishRun(p: Plan, a: seq<nat>)
    requires Running(p) && p.Steps() == |p.leaves| - 1
    ensures Finished(p) && Greedy(p) && Ascending(p.made) && p.used[p.Steps()] == p.Steps() - 1
  {
    p.LeafBounds(p.Steps());
  }

  lemma HeadsAscend(p: Plan, a: seq<nat>)
    requires Running(p) && Overlay(p, a) && p.Steps() + 1 < |a|
    ensures var k := p.Steps(); var r, l := p.used[k], p.Leaf(k);
            && |p.used| == k + 1 && 0 <= r < k < l <= |a| == |p.leaves|
            && (forall t :: r <= t < k ==> a[t] == p.made[t])
            && (forall t :: l <= t < |a| ==> a[t] == p.leaves[t])
            && (forall s, t :: r <= s <= t < k ==> p.made[s] <= p.made[t])
            && (forall s, t :: l <= s <= t < |a| ==> p.leaves[s] <= p.leaves[t])
  {
    p.LeafBounds(p.Steps());
  }

  /** The weights of untaken nodes and leaves stand in place and ascend. */
  ghost predicate Heads(a: seq<nat>, root: nat, leaf: nat, next: nat) {
    && root <= next < leaf <= |a| && (root < next || leaf < |a|)
    && (forall s, t :: root <= s <= t < next ==> a[s] <= a[t])
    && (forall s, t :: leaf <= s <= t < |a| ==> a[s] <= a[t])
  }

  /** One node, of weight `w`, taken: the lighter of the two heads, and of equal ones the leaf. */
  ghost predicate Took(a: seq<nat>, a': seq<nat>, root0: nat, leaf0: nat, root: nat, leaf: nat, next: nat, w: nat) {
    && Heads(a, root0, leaf0, next) && |a'| == |a|
    && ((root == root0 + 1 && leaf == leaf0 && root <= next && w == a[root0] && a' == a[root0 := next] && (leaf0 < |a| ==> w < a[leaf0]))
        || (root == root0 && leaf == leaf0 + 1 && leaf <= |a| && w == a[leaf0] && a' == a))
    && (forall t :: root0 <= t < next ==> w <= a[t])
    && (forall t :: leaf0 <= t < |a| ==> w <= a[t])
  }

  /** One half of a merge: takes the lighter of the next inner node and the next leaf.  (The first
      half of the source's step does not test `root < next`, which always holds there.) */
  method TakeLighter(a: array<nat>, root0: nat, leaf0: nat, next: nat) returns (w: nat, root: nat, leaf: nat)
    requires Heads(a[..], root0, leaf0, next) && next < 65536
    modifies a
    ensures Took(old(a[..]), a[..], root0, leaf0, root, leaf, next, w)
  {
    root, leaf := root0, leaf0;
    if leaf >= a.Length || (root < next && a[root] < a[leaf]) {
      w := a[root];
      a[root] := U16(next);
      root := root + 1;
    } else {
      w := a[leaf];
      leaf := leaf + 1;
    }
  }

  lemma RunningShape(p: Plan)
    requires Running(p)
    ensures p.Shape() && |p.made| == p.Steps() && |p.used| == p.Steps() + 1
    ensures p.used[p.Steps()] + p.Leaf(p.Steps()) == 2 * p.Steps()
  {
  }

  /** One merge: two nodes taken, one weight made. */
  method MergeStep(a: array<nat>, root0: nat, leaf0: nat, next: nat, ghost p: Plan)
    returns (root: nat, leaf: nat, ghost p': Plan)
    requires Running(p) && p.Shape() && p.Steps() == next < a.Length - 1 <= 65535
    requires root0 == p.used[next] && leaf0 == p.Leaf(next) && Overlay(p, a[..])
    modifies a
    ensures Running(p') && p'.Shape() && p'.leaves == p.leaves && p'.Steps() == next + 1
    ensures root == p'.used[p'.Steps()] && leaf == p'.Leaf(p'.Steps()) && Overlay(p', a[..])
  {
    hide *;
    RunningShape(p);
    ghost var a0 := a[..];
    HeadsAscend(p, a0);
    var x, y, root1, leaf1;
    x, root1, leaf1 := TakeLighter(a, root0, leaf0, next);
    ghost var a1 := a[..];
    SecondHeads(a0, a1, root0, leaf0, root1, leaf1, next, x);
    a[next] := x;
    ghost var a2 := a[..];
    y, root, leaf := TakeLighter(a, root1, leaf1, next);
    ghost var a3 := a[..];
    StillThere(a2, a3, root1, leaf1, root, leaf, next, y);
    a[next] := U16(a[next] + y);
    p' := AfterMerge(p, a0, a1, a3, root0, leaf0, root1, leaf1, root, leaf, x, y, a[..]);
  }

  lemma SecondHeads(a: seq<nat>, a': seq<nat>, root0: nat, leaf0: nat, root: nat, leaf: nat, next: nat, x: nat)
    requires Took(a, a', root0, leaf0, root, leaf, next, x)
    requires root0 < next && root0 + leaf0 == 2 * next && next + 1 < |a|
    ensures |a'| == |a| && Heads(a'[next := x], root, leaf, next)
  {
  }

  lemma StillThere(a: seq<nat>, a': seq<nat>, root0: nat, leaf0: nat, root: nat, leaf: nat, next: nat, y: nat)
    requires Took(a, a', root0, leaf0, root, leaf, next, y)
    ensures |a'| == |a| && next < |a| && a'[next] == a[next]
  {
  }

  lemma AfterMerge(p: Plan, a0: seq<nat>, a1: seq<nat>, a3: seq<nat>, root0: nat, leaf0: nat, root1: nat, leaf1: nat,
                   root: nat, leaf: nat, x: nat, y: nat, a': seq<nat>)
    returns (p': Plan)
    requires Running(p) && Overlay(p, a0) && p.Steps() + 1 < |a0|
    requires root0 == p.used[p.Steps()] && leaf0 == p.Leaf(p.Steps())
    requires Took(a0, a1, root0, leaf0, root1, leaf1, p.Steps(), x)
    requires p.Steps() < |a1| && Took(a1[p.Steps() := x], a3, root1, leaf1, root, leaf, p.Steps(), y)
    requires p.Steps() < |a3| && a' == a3[p.Steps() := U16(x + y)]
    ensures Running(p') && p'.Shape() && p'.leaves == p.leaves && p'.Steps() == p.Steps() + 1
    ensures root == p'.used[p'.Steps()] && leaf == p'.Leaf(p'.Steps()) && Overlay(p', a')
  {
    assert p.Shape();
    hide Running, Overlay, Plan.Shape, Took, NextTwo;
    var taken := root - root0;
    TwoLightest(p, a0, a1, a3, root0, leaf0, root1, leaf1, root, leaf, x, y);
    ExtendRun(p, taken, x, y);
    p' := Extend(p, taken, x + y);
    ArrayAfter(p, a0, a1, a3, root0, leaf0, root1, leaf1, root, leaf, x, y, a');
    OverlayStep(p, a0, taken, x, y, a');
    assert |p.used| == p.Steps() + 1 by { HeadsAscend(p, a0); }
  }

  lemma TwoLightest(p: Plan, a0: seq<nat>, a1: seq<nat>, a3: seq<nat>, root0: nat, leaf0: nat, root1: nat, leaf1: nat,
                    root: nat, leaf: nat, x: nat, y: nat)
    requires Running(p) && p.Shape() && Overlay(p, a0) && p.Steps() + 1 < |a0|
    requires root0 == p.used[p.Steps()] && leaf0 == p.Leaf(p.Steps())
    requires Took(a0, a1, root0, leaf0, root1, leaf1, p.Steps(), x)
    requires p.Steps() < |a1| && Took(a1[p.Steps() := x], a3, root1, leaf1, root, leaf, p.Steps(), y)
    ensures root + leaf == root0 + leaf0 + 2 && root0 <= root
    ensures NextTwo(p, root - root0, x, y) && x <= y
    ensures forall t :: root <= t < p.Steps() ==> y <= p.made[t]
    ensures forall t :: leaf <= t < |p.leaves| ==> y <= p.leaves[t]
  {
    HeadsAscend(p, a0);
    hide Running, Overlay, Plan.Shape;
    var k := p.Steps();
    forall t | root <= t < k ensures y <= p.made[t] { assert a1[k := x][t] == a0[t] == p.made[t]; }
    forall t | leaf <= t < |p.leaves| ensures y <= p.leaves[t] { assert a1[k := x][t] == a0[t] == p.leaves[t]; }
  }

  lemma ArrayAfter(p: Plan, a0: seq<nat>, a1: seq<nat>, a3: seq<nat>, root0: nat, leaf0: nat, root1: nat, leaf1: nat,
                   root: nat, leaf: nat, x: nat, y: nat, a': seq<nat>)
    requires p.Shape() && p.Steps() + 1 < |a0| == |p.leaves|
    requires root0 == p.used[p.Steps()] && leaf0 == p.Leaf(p.Steps())
    requires Took(a0, a1, root0, leaf0, root1, leaf1, p.Steps(), x)
    requires p.Steps() < |a1| && Took(a1[p.Steps() := x], a3, root1, leaf1, root, leaf, p.Steps(), y)
    requires p.Steps() < |a3| && a' == a3[p.Steps() := x + y]
    ensures |a'| == |a0|
    ensures forall i :: root0 <= i < root ==> a'[i] == p.Steps()
    ensures forall i :: (0 <= i < root0 || root <= i < |a0|) && i != p.Steps() ==> a'[i] == a0[i]
  {
  }

  /** A finished plan whose last step left nothing but the root. */
  ghost predicate Whole(p: Plan) {
    Finished(p) && p.used[p.Steps()] == p.Steps() - 1 && p.Leaf(p.Steps()) == |p.leaves|
  }

  lemma TakerUnique(p: Plan, i: nat, j: nat, j': nat)
    requires p.Shape() && p.TakesNode(j, i) && p.TakesNode(j', i)
    ensures j == j'
  {
    if j < j' { UsedGrows(p, j + 1, j'); } else if j' < j { UsedGrows(p, j' + 1, j); }
  }

  lemma TakerAbove(p: Plan, i: nat, j: nat)
    requires p.Shape() && p.TakesNode(j, i)
    ensures i < j < p.Steps()
  {
  }

  /** The inner depths from index `from` up. */
  ghost predicate InnerDepths(p: Plan, d: seq<nat>, from: nat)
    requires p.Shape()
  {
    && |d| >= p.Steps() && from < p.Steps() && d[p.Steps() - 1] == 0
    && (forall j: nat, i: nat :: from <= i && p.TakesNode(j, i) && i < |d| && j < |d| ==> d[i] == d[j] + 1)
    && (forall i :: from <= i < p.Steps() ==> d[i] <= p.Steps() - 1 - i)
  }

  /** Depths above `next`, parents up to it. */
  ghost predicate HalfDone(p: Plan, a: seq<nat>, next: int)
    requires p.Shape()
  {
    && |a| == p.Steps() + 1 && -1 <= next <= |a| - 3
    && InnerDepths(p, a, next + 1)
    && forall i :: 0 <= i <= next ==> p.TakesNode(a[i], i)
  }

  lemma DeeperByOne(p: Plan, a: seq<nat>, next: nat, a': seq<nat>)
    requires Whole(p) && p.Shape() && HalfDone(p, a, next)
    requires next < a[next] < |a| && a' == a[next := a[a[next]] + 1]
    ensures HalfDone(p, a', next - 1)
  {
    forall j: nat, i: nat | next <= i && p.TakesNode(j, i) && i < |a'| && j < |a'| ensures a'[i] == a'[j] + 1 {
      TakerAbove(p, i, j);
      if i == next { TakerUnique(p, i, j, a[next]); }
    }
  }

  /** Phase two: turns parents into depths, from the root down. */
  method FindDepths(a: array<nat>, ghost p: Plan) returns (ghost inner: seq<nat>)
    requires Whole(p) && Overlay(p, a[..]) && a.Length <= 65536
    modifies a
    ensures |inner| == p.Steps() && InnerDepths(p, inner, 0) && inner <= a[..]
  {
    hide *;
    StartDepths(p, a[..]);
    var n := a.Length;
    a[n - 2] := 0;
    var next := n - 3;
    while next >= 0
      invariant -1 <= next <= n - 3 && HalfDone(p, a[..], next)
    {
      DeeperBound(p, a[..], next);
      ghost var before := a[..];
      FitsU16(a[a[next]] + 1);
      a[next] := U16(a[a[next]] + 1);
      DeeperByOne(p, before, next, a[..]);
      next := next - 1;
    }
    inner := CutDepths(p, a[..]);
  }

  lemma StartDepths(p: Plan, a: seq<nat>)
    requires Whole(p) && Overlay(p, a)
    ensures p.Shape() && |a| >= 2 && HalfDone(p, a[|a| - 2 := 0], |a| - 3)
  {
  }

  lemma DeeperBound(p: Plan, a: seq<nat>, next: nat)
    requires Whole(p) && p.Shape() && HalfDone(p, a, next) && |a| <= 65536
    ensures next < a[next] < |a| && a[a[next]] + 1 < 65536
  {
    TakerAbove(p, next, a[next]);
  }

  lemma CutDepths(p: Plan, a: seq<nat>) returns (inner: seq<nat>)
    requires p.Shape() && HalfDone(p, a, -1)
    ensures inner <= a && |inner| == p.Steps() && InnerDepths(p, inner, 0)
  {
    inner := a[..p.Steps()];
  }

  /** The state between two levels of phase three, from depth one on.  Inner nodes above `root` are
      shallower than `d`; the ones from `top` up have their leaves in place, above `next`. */
  ghost predicate Level(p: Plan, inner: seq<nat>, a: seq<nat>, d: nat, root: int, next: int, top: nat) {
    && Whole(p) && |inner| == p.Steps() && InnerDepths(p, inner, 0) && |a| == |p.leaves|
    && 0 <= top <= p.Steps() && -1 <= root < p.Steps() && root + 1 == p.used[top] <= top && next + 1 == p.Leaf(top)
    && (forall i :: root < i < top && i < p.Steps() ==> inner[i] == d - 1)
    && (forall i :: 0 <= i <= root ==> inner[i] >= d && a[i] == inner[i])
    && LeavesPlaced(p, inner, a, d, next)
  }

  /** Leaves above `next` hold their depths, which do not increase and stay below `d`. */
  ghost predicate LeavesPlaced(p: Plan, inner: seq<nat>, a: seq<nat>, d: nat, next: int)
    requires p.Shape()
  {
    && (forall j: nat, i: nat :: next < i && p.TakesLeaf(j, i) && i < |a| && j < |inner| ==> a[i] == inner[j] + 1)
    && (forall i :: next < i < |a| && 0 <= i ==> a[i] < d)
    && (forall i, j :: next < i <= j < |a| && 0 <= i ==> a[i] >= a[j])
  }

  /** Where the inner nodes of depth `d` end. */
  ghost function NextRoot(p: Plan, root: int): int
    requires p.Shape() && -1 <= root < p.Steps()
  {
    (p.used[root + 1] as int) - 1
  }

  lemma LevelNodes(p: Plan, inner: seq<nat>, a: seq<nat>, d: nat, root: int, next: int, top: nat)
    requires Level(p, inner, a, d, root, next, top) && d >= 1
    ensures p.Shape() && -1 <= root < p.Steps() && |inner| == p.Steps() && |a| == |p.leaves|
    ensures -1 <= NextRoot(p, root) <= root < |a|
    ensures forall i :: NextRoot(p, root) < i <= root ==> 0 <= i && inner[i] == d && a[i] == d
    ensures forall i :: 0 <= i <= NextRoot(p, root) ==> inner[i] > d && a[i] == inner[i]
    ensures root >= 0 ==> NextRoot(p, root) < root
    ensures next + 1 + p.used[top] == 2 * top && root + 1 == p.used[top]
    ensures 2 * root - NextRoot(p, root) == p.Leaf(root + 1) - 1 <= next < |a|
  {
    LevelBounds(p, inner, a, d, root, next, top);
    forall i | NextRoot(p, root) < i <= root ensures 0 <= i && inner[i] == d { DepthHere(p, inner, a, d, root, next, top, i); }
    forall i | 0 <= i <= NextRoot(p, root) ensures inner[i] > d { DepthBelow(p, inner, a, d, root, next, top, i); }
  }

  lemma LevelBounds(p: Plan, inner: seq<nat>, a: seq<nat>, d: nat, root: int, next: int, top: nat)
    requires Level(p, inner, a, d, root, next, top) && d >= 1
    ensures p.Shape() && -1 <= root < p.Steps() && |inner| == p.Steps() && |a| == |p.leaves|
    ensures -1 <= NextRoot(p, root) <= root < |a| && root + 1 <= top
    ensures root >= 0 ==> NextRoot(p, root) < root
    ensures next + 1 + p.used[top] == 2 * top && root + 1 == p.used[top]
    ensures 2 * root - NextRoot(p, root) == p.Leaf(root + 1) - 1 <= next < |a|
  {
    p.LeafBounds(top);
    p.LeafBounds(root + 1);
    UsedGrows(p, root + 1, top);
  }

  lemma DepthHere(p: Plan, inner: seq<nat>, a: seq<nat>, d: nat, root: int, next: int, top: nat, i: int)
    requires Level(p, inner, a, d, root, next, top) && d >= 1
    requires p.Shape() && -1 <= root < p.Steps() && NextRoot(p, root) < i <= root
    ensures 0 <= i < |inner| && inner[i] == d
  {
    hide *;
    LevelBounds(p, inner, a, d, root, next, top);
    LevelWhole(p, inner, a, d, root, next, top);
    RootRange(p, root);
    var j := TakerOfNode(p, i);
    TakerBetween(p, i, j, root + 1, top);
    NodeBelow(p, inner, a, d, root, next, top, i, j);
  }

  lemma LevelWhole(p: Plan, inner: seq<nat>, a: seq<nat>, d: nat, root: int, next: int, top: nat)
    requires Level(p, inner, a, d, root, next, top)
    ensures Finished(p) && 0 <= top <= p.Steps() < |p.used| && root < p.Steps() - 1
  {
  }

  lemma RootRange(p: Plan, root: int)
    requires p.Shape() && -1 <= root < p.Steps()
    ensures p.used[root + 1] == NextRoot(p, root) + 1
  {
  }

  lemma NodeBelow(p: Plan, inner: seq<nat>, a: seq<nat>, d: nat, root: int, next: int, top: nat, i: nat, j: nat)
    requires Level(p, inner, a, d, root, next, top) && d >= 1 && p.Shape() && p.TakesNode(j, i) && root < j < top && i < |inner|
    ensures inner[i] == d
  {
    assert inner[j] == d - 1;
  }

  lemma DepthBelow(p: Plan, inner: seq<nat>, a: seq<nat>, d: nat, root: int, next: int, top: nat, i: nat)
    requires Level(p, inner, a, d, root, next, top) && d >= 1
    requires p.Shape() && -1 <= root < p.Steps() && i <= NextRoot(p, root)
    ensures i < |inner| && inner[i] > d
  {
    LevelBounds(p, inner, a, d, root, next, top);
    var j := TakerOfNode(p, i);
    if j >= root + 1 { UsedGrows(p, root + 1, j); }
  }

  lemma TakerBetween(p: Plan, i: nat, j: nat, lo: nat, hi: nat)
    requires p.Shape() && p.TakesNode(j, i) && lo <= hi <= p.Steps() && p.used[lo] <= i < p.used[hi]
    ensures lo <= j < hi
  {
    if j < lo { UsedGrows(p, j + 1, lo); } else if j >= hi { UsedGrows(p, hi, j); }
  }

  lemma LeafTakerBetween(p: Plan, i: nat, j: nat, lo: nat, hi: nat)
    requires p.Shape() && p.TakesLeaf(j, i) && lo <= hi <= p.Steps() && p.Leaf(lo) <= i < p.Leaf(hi)
    ensures lo <= j < hi
  {
    if j < lo { UsedGrows(p, j + 1, lo); } else if j >= hi { UsedGrows(p, hi, j); }
  }

  /** After the nodes of depth `d` are counted and the leaves of depth `d` are written. */
  lemma NextLevel(p: Plan, inner: seq<nat>, a: seq<nat>, d: nat, root: int, next: int, top: nat, a': seq<nat>, next': int)
    requires Level(p, inner, a, d, root, next, top) && d >= 1
    requires p.Shape() && root < p.Steps() && next' == p.Leaf(root + 1) - 1 <= next < |a|
    requires |a'| == |a| && -1 <= next'
    requires forall i :: 0 <= i < |a| ==> a'[i] == if next' < i <= next then d else a[i]
    ensures Level(p, inner, a', d + 1, NextRoot(p, root), next', root + 1)
  {
    LevelNodes(p, inner, a, d, root, next, top);
    LevelBounds(p, inner, a, d, root, next, top);
    p.LeafBounds(root + 1);
    PlaceLeaves(p, inner, a, d, root, next, top, a', next');
  }

  lemma PlaceLeaves(p: Plan, inner: seq<nat>, a: seq<nat>, d: nat, root: int, next: int, top: nat, a': seq<nat>, next': int)
    requires Level(p, inner, a, d, root, next, top) && d >= 1
    requires p.Shape() && root < p.Steps() && next' == p.Leaf(root + 1) - 1 <= next < |a|
    requires |a'| == |a| && -1 <= next'
    requires forall i :: 0 <= i < |a| ==> a'[i] == if next' < i <= next then d else a[i]
    ensures LeavesPlaced(p, inner, a', d + 1, next')
  {
    LevelBounds(p, inner, a, d, root, next, top);
    forall j: nat, i: nat | next' < i && p.TakesLeaf(j, i) && i < |a'| && j < |inner| ensures a'[i] == inner[j] + 1 {
      if i <= next { LeafTakerBetween(p, i, j, root + 1, top); }
    }
  }

  /** `while (root >= 0 && A[root].m_key == dpth) { used++; root--; }` */
  method CountLevel(a: array<nat>, root0: int, d: nat, ghost stop: int) returns (used: nat, root: int)
    requires -1 <= stop <= root0 < a.Length
    requires forall i :: stop < i <= root0 && 0 <= i ==> a[i] == d
    requires stop >= 0 ==> a[stop] != d
    ensures root == stop && used == root0 - stop
  {
    used, root := 0, root0;
    while root >= 0 && a[root] == d
      invariant stop <= root <= root0 && used == root0 - root
    {
      used := used + 1;
      root := root - 1;
    }
  }

  /** `while (avbl > used) { A[next--].m_key = dpth; avbl--; }` */
  method WriteLevel(a: array<nat>, next0: int, d: nat, avbl0: nat, used: nat) returns (next: int)
    requires used <= avbl0 && avbl0 - used - 1 <= next0 < a.Length && d < 65536
    modifies a
    ensures next == next0 - (avbl0 - used)
    ensures forall i :: 0 <= i < a.Length ==> a[i] == if next < i <= next0 then d else old(a[i])
  {
    next := next0;
    var avbl := avbl0;
    while avbl > used
      invariant used <= avbl <= avbl0 && next == next0 - (avbl0 - avbl)
      invariant forall i :: 0 <= i < a.Length ==> a[i] == if next < i <= next0 then d else old(a[i])
    {
      a[next] := U16(d);
      next := next - 1;
      avbl := avbl - 1;
    }
  }

  /** The root's own level: no leaves, and every other inner node is deeper. */
  lemma RootLevel(p: Plan, inner: seq<nat>, a: seq<nat>)
    requires Whole(p) && |inner| == p.Steps() && InnerDepths(p, inner, 0) && inner <= a && |a| == |p.leaves|
    ensures Level(p, inner, a, 1, p.Steps() - 2, p.Steps(), p.Steps())
    ensures a[p.Steps() - 1] == 0 && (p.Steps() >= 2 ==> a[p.Steps() - 2] != 0)
  {
    forall i | 0 <= i < p.Steps() - 1 ensures inner[i] >= 1 { var j := TakerOfNode(p, i); }
  }

  lemma LevelDepth(p: Plan, inner: seq<nat>, a: seq<nat>, d: nat, root: int, next: int, top: nat)
    requires Level(p, inner, a, d, root, next, top) && d >= 1 && next > root && |a| <= 65535
    ensures d < 65535
  {
    assert next + 1 + p.used[top] == 2 * top;
    assert inner[root + 1] == d - 1;
  }

  lemma LastLevel(p: Plan, inner: seq<nat>, a: seq<nat>, d: nat, root: int, next: int, top: nat)
    requires Level(p, inner, a, d, root, next, top) && d >= 1 && next == root
    ensures p.Shape() && DepthsOf(p, inner, a)
    ensures forall i, j :: 0 <= i <= j < |a| ==> a[i] >= a[j]
  {
    assert next + 1 + p.used[top] == 2 * top;
    assert top == 0;
  }

  /** The loop's state: before the root's own level, or between two levels. */
  ghost predicate Descent(p: Plan, inner: seq<nat>, a: seq<nat>, avbl: nat, d: nat, root: int, next: int, top: nat) {
    && avbl == next - root && -1 <= root <= next < |a| == |p.leaves|
    && (d == 0 ==> root == |a| - 2 && next == |a| - 1 && |a| >= 2 && a[|a| - 2] == 0 && (|a| >= 3 ==> a[|a| - 3] != 0)
                   && Level(p, inner, a, 1, |a| - 3, |a| - 1, |a| - 1))
    && (d > 0 ==> Level(p, inner, a, d, root, next, top))
  }

  /** Where counting the inner nodes of depth `d` will stop. */
  lemma StopAt(p: Plan, inner: seq<nat>, a: seq<nat>, avbl: nat, d: nat, root: int, next: int, top: nat) returns (stop: int)
    requires Descent(p, inner, a, avbl, d, root, next, top) && avbl > 0 && |a| <= 65535
    ensures -1 <= stop <= root < |a| && root - stop <= avbl && d < 65536
    ensures root >= 0 ==> stop < root
    ensures forall i :: stop < i <= root && 0 <= i ==> a[i] == d
    ensures stop >= 0 ==> a[stop] != d
    ensures avbl - (root - stop) - 1 <= next < |a|
    ensures d == 0 ==> stop == |a| - 3
    ensures d > 0 ==> p.Shape() && root < p.Steps() && stop == NextRoot(p, root) && 2 * root - stop == p.Leaf(root + 1) - 1
  {
    hide Level, Whole, InnerDepths, Plan.Shape;
    if d == 0 {
      stop := |a| - 3;
    } else {
      LevelNodes(p, inner, a, d, root, next, top);
      LevelDepth(p, inner, a, d, root, next, top);
      stop := NextRoot(p, root);
    }
  }

  lemma AfterLevel(p: Plan, inner: seq<nat>, a: seq<nat>, avbl: nat, d: nat, root: int, next: int, top: nat, stop: int,
                   a': seq<nat>) returns (top': nat)
    requires Descent(p, inner, a, avbl, d, root, next, top) && avbl > 0 && |a'| == |a|
    requires -1 <= stop <= root && root - stop <= avbl
    requires d == 0 ==> stop == |a| - 3
    requires d > 0 ==> p.Shape() && root < p.Steps() && stop == NextRoot(p, root) && 2 * root - stop == p.Leaf(root + 1) - 1
    requires forall i :: 0 <= i < |a| ==> a'[i] == if next - (avbl - (root - stop)) < i <= next then d else a[i]
    ensures Descent(p, inner, a', 2 * (root - stop), d + 1, stop, next - (avbl - (root - stop)), top')
  {
    hide Level, Whole, InnerDepths, Plan.Shape;
    if d == 0 {
      top' := |a| - 1;
      assert a' == a;
    } else {
      NextLevel(p, inner, a, d, root, next, top, a', next - (avbl - (root - stop)));
      top' := root + 1;
    }
  }

  /** Phase three: turns the depths of inner nodes into the depths of leaves, level by level. */
  method AssignLengths(a: array<nat>, ghost p: Plan, ghost inner: seq<nat>)
    requires Whole(p) && |inner| == p.Steps() && InnerDepths(p, inner, 0)
    requires 2 <= a.Length == |p.leaves| <= 65535 && inner <= a[..]
    modifies a
    ensures p.Shape() && DepthsOf(p, inner, a[..])
    ensures forall i, j :: 0 <= i <= j < a.Length ==> a[i] >= a[j]
  {
    hide *;
    StartDescent(p, inner, a[..]);
    var n := a.Length;
    var avbl, dpth, root, next := 1, 0, n - 2, n - 1;
    ghost var top: nat := n - 1;
    while avbl > 0
      invariant -1 <= root && avbl >= 0 && dpth >= 0 && Descent(p, inner, a[..], avbl, dpth, root, next, top)
      decreases root + 1, avbl
    {
      ghost var stop := StopAt(p, inner, a[..], avbl, dpth, root, next, top);
      var used, root' := CountLevel(a, root, dpth, stop);
      ghost var before := a[..];
      var next' := WriteLevel(a, next, dpth, avbl, used);
      top := AfterLevel(p, inner, before, avbl, dpth, root, next, top, stop, a[..]);
      avbl := 2 * used;
      dpth := dpth + 1;
      root, next := root', next';
    }
    EndDescent(p, inner, a[..], dpth, root, next, top);
  }

  lemma StartDescent(p: Plan, inner: seq<nat>, a: seq<nat>)
    requires Whole(p) && |inner| == p.Steps() && InnerDepths(p, inner, 0) && inner <= a && |a| == |p.leaves|
    ensures Descent(p, inner, a, 1, 0, |a| - 2, |a| - 1, |a| - 1)
  {
    RootLevel(p, inner, a);
  }

  lemma EndDescent(p: Plan, inner: seq<nat>, a: seq<nat>, d: nat, root: int, next: int, top: nat)
    requires Descent(p, inner, a, 0, d, root, next, top)
    ensures p.Shape() && DepthsOf(p, inner, a)
    ensures forall i, j :: 0 <= i <= j < |a| ==> a[i] >= a[j]
  {
    hide Level;
    LastLevel(p, inner, a, d, root, next, top);
  }

  lemma {:induction false} SumAtLeast(s: seq<nat>)
    requires forall i :: 0 <= i < |s| ==> s[i] >= 1
    ensures |s| <= Sum(s)
  {
    if s != [] { SumAtLeast(s[1..]); }
  }

  /** The lengths `l` form an optimal prefix code for the ascending frequencies `f`. */
  ghost predicate OptimalLengths(f: seq<nat>, l: seq<nat>) {
    && |l| == |f|
    && Kraft(l) == 1.0
    && (forall other: seq<nat> :: |other| == |f| && Kraft(other) <= 1.0 ==> Cost(f, l) <= Cost(f, other))
  }

  /** A symbol with a long code is rare: at most one part in a Fibonacci number of the total. */
  ghost predicate Rare(f: seq<nat>, l: seq<nat>) {
    |l| == |f| && forall i :: 0 <= i < |f| ==> Fib(l[i] + 1) * f[i] <= Sum(f)
  }

  /** Overwrites ascending frequencies with the lengths of an optimal prefix code. */
  method CalculateMinimumRedundancy(a: array<nat>)
    requires Ascending(a[..]) && Sum(a[..]) < 65536 && forall i :: 0 <= i < a.Length ==> a[i] >= 1
    modifies a
    ensures a.Length == 1 ==> a[0] == 1
    ensures a.Length >= 2 ==> OptimalLengths(old(a[..]), a[..]) && Rare(old(a[..]), a[..])
    ensures forall i, j :: 0 <= i <= j < a.Length ==> a[i] >= a[j]
    ensures forall i :: 0 <= i < a.Length ==> 1 <= a[i] <= 22
  {
    var n := a.Length;
    if n == 0 {
      return;
    } else if n == 1 {
      a[0] := 1;
      return;
    }
    ghost var f := a[..];
    SumAtLeast(f);
    hide *;
    var p := BuildParents(a);
    BecomeWhole(p);
    var inner := FindDepths(a, p);
    AssignLengths(a, p, inner);
    Conclude(p, inner, a[..]);
  }

  lemma BecomeWhole(p: Plan)
    requires Finished(p) && p.used[p.Steps()] == p.Steps() - 1
    ensures Whole(p) && p.Shape()
  {
  }

  lemma Conclude(p: Plan, inner: seq<nat>, outer: seq<nat>)
    requires Finished(p) && Greedy(p) && Ascending(p.made) && DepthsOf(p, inner, outer)
    requires Sum(p.leaves) < 65536 && (forall t :: 0 <= t < |p.leaves| ==> p.leaves[t] >= 1)
    ensures OptimalLengths(p.leaves, outer) && Rare(p.leaves, outer)
    ensures forall i :: 0 <= i < |outer| ==> 1 <= outer[i] <= 22
  {
    hide *;
    Optimal(p, inner, outer);
    forall i | 0 <= i < |p.leaves| ensures Fib(outer[i] + 1) * p.leaves[i] <= Sum(p.leaves) { LeafWeight(p, inner, outer, i); }
    MakeRare(p.leaves, outer);
    forall i | 0 <= i < |p.leaves| ensures 1 <= outer[i] <= 22 { DepthBound(p, inner, outer, i); }
    MakeOptimal(p.leaves, outer);
  }

  lemma MakeRare(f: seq<nat>, l: seq<nat>)
    requires |l| == |f| && forall i :: 0 <= i < |f| ==> Fib(l[i] + 1) * f[i] <= Sum(f)
    ensures Rare(f, l)
  {
  }

  lemma MakeOptimal(f: seq<nat>, l: seq<nat>)
    requires |l| == |f| && Kraft(l) == 1.0
    requires forall other: seq<nat> :: |other| == |f| && Kraft(other) <= 1.0 ==> Cost(f, l) <= Cost(f, other)
    ensures OptimalLengths(f, l)
  {
  }
}
