/** Exchanging two adjacent blocks of an argument vector in place, cycle by cycle. */
module PermuteArgs {
  import opened Bits
  import opened ProbePath

  function GcdOf(a: nat, b: nat): (g: nat)
    requires b > 0
    ensures 0 < g <= b
    decreases b
  {
    if a % b == 0 then b else GcdOf(b, a % b)
  }

  /** The number divides both and is a combination of both. */
  lemma {:induction false} Bezout(a: nat, b: nat) returns (x: int, y: int, p: nat, q: nat)
    requires b > 0
    ensures var g := GcdOf(a, b); a == p * g && b == q * g && a * x + b * y == g
    decreases b
  {
    var d := a / b;
    assert a == b * d + a % b;
    if a % b == 0 {
      x, y, p, q := 0, 1, d, 1;
    } else {
      var x', y', p', q' := Bezout(b, a % b);
      var g := GcdOf(b, a % b);
      assert a % b == q' * g && b == p' * g;
      x, y := y', x' - d * y';
      p, q := p' * d + q', p';
      Combine(a, b, d, g, p', q', x', y');
    }
  }

  lemma Combine(a: int, b: int, d: int, g: int, p: int, q: int, x: int, y: int)
    requires b == p * g && a - b * d == q * g && b * x + (a - b * d) * y == g
    ensures a == (p * d + q) * g && a * y + b * (x - d * y) == g
  {
    assert (p * d + q) * g == p * g * d + q * g;
    assert a * y + b * (x - d * y) == b * x + (a - b * d) * y by {
      assert (a - b * d) * y == a * y - b * d * y;
      assert b * (x - d * y) == b * x - b * (d * y);
      assert b * d * y == b * (d * y);
    }
  }

  /** `gcd` */
  method Gcd(a0: nat, b0: nat) returns (b: nat)
    requires b0 > 0
    ensures b == GcdOf(a0, b0)
  {
    var a: nat := a0;
    b := b0;
    var c: nat := a % b;
    while c != 0
      invariant b > 0 && c == a % b && GcdOf(a, b) == GcdOf(a0, b0)
      decreases c
    {
      a := b;
      b := c;
      c := a % b;
    }
  }

  /** Position `k` of the cycle through `c`: each step moves `b` places on, around the two blocks. */
  function Cycle(c: nat, k: nat, a: nat, b: nat): (p: nat)
    requires a + b > 0
    ensures p < a + b
  {
    (c + k * b) % (a + b)
  }

  lemma ModOnce(x: nat, n: nat)
    requires n > 0 && x < 2 * n
    ensures x % n == if x < n then x else x - n
  {
  }

  /** The source's step: back over the first block, or forward by the second. */
  lemma CycleStep(c: nat, k: nat, a: nat, b: nat)
    requires a > 0 && b > 0 && c < a + b
    ensures Cycle(c, 0, a, b) == c
    ensures Cycle(c, k + 1, a, b) == (if Cycle(c, k, a, b) >= a then Cycle(c, k, a, b) - a else Cycle(c, k, a, b) + b)
  {
    var p, x := Cycle(c, k, a, b), c + k * b;
    assert c + (k + 1) * b == x + b;
    ModSum(x, b, a + b);
    ModOnce(p + b, a + b);
    ModOnce(c, a + b);
    assert 0 * b == 0;
  }

  /** The shape of one exchange: `g` cycles of `len` positions each. */
  ghost predicate Shape(a: nat, b: nat, g: nat, len: nat) {
    a > 0 && b > 0 && g == GcdOf(a, b) && a + b == len * g
  }

  /** `u * b` is one step of `g` around the blocks. */
  lemma Unit(a: nat, b: nat, g: nat, len: nat) returns (p: nat, q: nat, x: int, u: int)
    requires Shape(a, b, g, len)
    ensures a == p * g && b == q * g && len == p + q && len * x + q * u == 1
  {
    var y;
    x, y, p, q := Bezout(a, b);
    u := y - x;
    SumOfProducts(p, q, g);
    Cancel(p + q, len, g);
    OutOfProducts(p, q, g, x, y);
    Cancel(p * x + q * y, 1, g);
    Shifted(p, q, x, y);
  }

  lemma SumOfProducts(p: int, q: int, g: int)
    ensures (p + q) * g == p * g + q * g
  {
  }

  lemma Swapped(p: int, g: int, x: int)
    ensures (p * g) * x == (p * x) * g
  {
  }

  lemma OutOfProducts(p: int, q: int, g: int, x: int, y: int)
    ensures (p * x + q * y) * g == (p * g) * x + (q * g) * y
  {
    Swapped(p, g, x);
    Swapped(q, g, y);
    SumOfProducts(p * x, q * y, g);
  }

  lemma Shifted(p: int, q: int, x: int, y: int)
    ensures (p + q) * x + q * (y - x) == p * x + q * y
  {
    SumOfProducts(p, q, x);
    SumOfProducts(y, -x, q);
  }

  lemma Cancel(m: int, n: int, g: nat)
    requires g > 0 && m * g == n * g
    ensures m == n
  {
    assert m * g == g * m && n * g == g * n;
    ModUnique(m * g, g, m, 0);
    ModUnique(n * g, g, n, 0);
  }

  lemma Multiples(d: nat, q: nat, g: nat, len: nat, t: int, x: int, u: int)
    requires g > 0 && d * (q * g) == (len * g) * t && len * x + q * u == 1
    ensures d == len * (x * d + t * u)
  {
    assert d * q == len * t by {
      assert (d * q) * g == d * (q * g) && (len * t) * g == (len * g) * t;
      Cancel(d * q, len * t, g);
    }
    assert d * (len * x + q * u) == len * (x * d) + (d * q) * u;
    assert (d * q) * u == len * (t * u);
    assert len * (x * d + t * u) == len * (x * d) + len * (t * u);
  }

  lemma NoSmallMultiple(d: nat, len: nat, w: int)
    requires 0 < d && d == len * w && len > 0
    ensures d >= len
  {
    if w > 0 { assert len * w >= len * 1 by { MulMonotone(len, 1, w); } } else { MulMonotone(len, w, 0); }
  }

  /** The positions of one cycle are all different. */
  lemma CycleDistinct(a: nat, b: nat, g: nat, len: nat, c: nat, j: nat, k: nat)
    requires Shape(a, b, g, len) && j < k < len
    ensures Cycle(c, j, a, b) != Cycle(c, k, a, b)
  {
    var n := a + b;
    if Cycle(c, j, a, b) == Cycle(c, k, a, b) {
      MulMonotone(b, j, k);
      assert j * b == b * j && k * b == b * k;
      ModDifference(c + j * b, c + k * b, n);
      var t := (c + k * b) / n - (c + j * b) / n;
      var p, q, x, u := Unit(a, b, g, len);
      assert (k - j) * b == k * b - j * b;
      Multiples(k - j, q, g, len, t, x, u);
      NoSmallMultiple(k - j, len, x * (k - j) + t * u);
    }
  }

  lemma ShapeIs(a: nat, b: nat, g: nat, len: nat)
    requires Shape(a, b, g, len)
    ensures a > 0 && b > 0 && a + b == len * g && len > 0
  {
    assert len == 0 ==> len * g == 0;
  }

  lemma Around(len: nat, q: nat, g: nat)
    ensures len * (q * g) == (len * g) * q
  {
  }

  lemma CycleIs(c: nat, k: nat, a: nat, b: nat)
    requires a + b > 0
    ensures Cycle(c, k, a, b) == (c + k * b) % (a + b)
  {
  }

  /** A cycle comes back to where it began. */
  lemma CycleCloses(a: nat, b: nat, g: nat, len: nat, c: nat)
    requires Shape(a, b, g, len) && c < a + b
    ensures Cycle(c, len, a, b) == c && len > 0
  {
    hide *;
    ShapeIs(a, b, g, len);
    var p, q, x, u := Unit(a, b, g, len);
    Around(len, q, g);
    ModUnique(c + len * b, a + b, q, c);
    CycleIs(c, len, a, b);
  }

  lemma ModOfMultiple(x: int, g: nat, n: nat, len: nat)
    requires g > 0 && n == len * g && len > 0
    ensures n > 0 && (x % n) % g == x % g
  {
    assert n >= g by { MulMonotone(g, 1, len); assert g * len == len * g; }
    var q, r := x / n, x % n;
    assert x == n * q + r;
    var q2, r2 := r / g, r % g;
    assert r == g * q2 + r2;
    assert x == g * (len * q + q2) + r2 by {
      assert n * q == g * (len * q) by { assert (len * g) * q == g * (len * q); }
      assert g * (len * q + q2) == g * (len * q) + g * q2;
    }
    ModUnique(x, g, len * q + q2, r2);
  }

  /** Cycle `i` stays within the positions congruent to `i`. */
  lemma CycleResidue(a: nat, b: nat, g: nat, len: nat, i: nat, k: nat)
    requires Shape(a, b, g, len) && i < g
    ensures Cycle(a + i, k, a, b) % g == i
  {
    var p, q, x, u := Unit(a, b, g, len);
    CycleCloses(a, b, g, len, 0);
    var v := a + i + k * b;
    ModOfMultiple(v, g, a + b, len);
    Gathered(g, p, k, q);
    ModUnique(v, g, p + k * q, i);
  }

  lemma Gathered(g: int, p: int, k: int, q: int)
    ensures g * (p + k * q) == p * g + k * (q * g)
  {
    assert k * (q * g) == g * (k * q);
    SumOfProducts(p, k * q, g);
  }

  /** Every position is on the cycle of its residue. */
  lemma CycleCovers(a: nat, b: nat, g: nat, len: nat, z: nat) returns (k: nat)
    requires Shape(a, b, g, len) && z < a + b
    ensures k < len && Cycle(a + z % g, k, a, b) == z
  {
    var p, q, x, u := Unit(a, b, g, len);
    CycleCloses(a, b, g, len, 0);
    var s := z / g - p;
    assert z == g * (z / g) + z % g;
    k := (s * u) % len;
    var m := (s * u) / len;
    assert s * u == len * m + k;
    var w := -(s * x + q * m);
    Combination(q, k, s, len, m, x, u, w);
    Landing(a, b, g, len, p, q, k, s, w, z);
    ModUnique(a + z % g + k * b, a + b, w, z);
  }

  lemma Landing(a: nat, b: nat, g: nat, len: nat, p: int, q: int, k: nat, s: int, w: int, z: nat)
    requires g > 0 && a == p * g && b == q * g && a + b == len * g && q * k == s + len * w && s == z / g - p
    ensures a + z % g + k * b == z + (a + b) * w
  {
    var h := z / g;
    assert z == g * h + z % g;
    assert k * b == g * (q * k);
    assert g * (q * k) == g * s + g * (len * w);
    assert g * (len * w) == (a + b) * w;
    assert g * s == g * h - g * p;
  }

  lemma Combination(q: int, k: int, s: int, len: int, m: int, x: int, u: int, w: int)
    requires s * u == len * m + k && len * x + q * u == 1 && w == -(s * x + q * m)
    ensures q * k == s + len * w
  {
    assert q * k == q * (s * u) - q * (len * m);
    assert q * (s * u) == s * (q * u);
    assert s * (q * u) == s * (1 - len * x);
    assert s * (1 - len * x) == s - len * (s * x);
    assert q * (len * m) == len * (q * m);
    assert len * w == -(len * (s * x)) - len * (q * m);
  }

  /** The two blocks exchanged, each in its own order. */
  function Exchanged<T>(s: seq<T>, a: nat): (r: seq<T>)
    requires a <= |s|
    ensures |r| == |s|
  {
    s[a..] + s[..a]
  }

  /** An element moves to the next position of its cycle. */
  lemma ExchangedAt<T>(s: seq<T>, a: nat, c: nat, k: nat)
    requires 0 < a < |s| && c < |s|
    ensures Exchanged(s, a)[Cycle(c, k + 1, a, |s| - a)] == s[Cycle(c, k, a, |s| - a)]
  {
    hide Cycle;
    CycleStep(c, k, a, |s| - a);
  }

  /** After `j` swaps along the cycle through `c`. */
  ghost predicate Turning<T>(was: seq<T>, cur: seq<T>, a: nat, c: nat, j: nat) {
    && 0 < a < |was| == |cur| && c < |was|
    && (forall k {:trigger Cycle(c, k, a, |was| - a)} :: 1 <= k <= j ==> cur[Cycle(c, k, a, |was| - a)] == Exchanged(was, a)[Cycle(c, k, a, |was| - a)])
    && cur[c] == was[Cycle(c, j, a, |was| - a)]
    && (forall p :: 0 <= p < |was| && !Passed(c, j, a, |was| - a, p) ==> cur[p] == was[p])
  }

  /** Position `p` is among the first positions of the cycle. */
  ghost predicate Passed(c: nat, j: nat, a: nat, b: nat, p: nat)
    requires a + b > 0
  {
    exists k: nat {:trigger Cycle(c, k, a, b)} :: k <= j && Cycle(c, k, a, b) == p
  }

  lemma SwapTurns<T>(was: seq<T>, cur: seq<T>, a: nat, g: nat, len: nat, c: nat, j: nat)
    requires Turning(was, cur, a, c, j) && Shape(a, |was| - a, g, len) && j + 1 < len
    ensures var p := Cycle(c, j + 1, a, |was| - a);
            p != c && Turning(was, cur[p := cur[c]][c := cur[p]], a, c, j + 1)
  {
    hide Cycle, Shape, Exchanged;
    var b := |was| - a;
    var p := Cycle(c, j + 1, a, b);
    StartOfCycle(c, a, b);
    forall k: nat | k <= j ensures Cycle(c, k, a, b) != p { CycleDistinct(a, b, g, len, c, k, j + 1); }
    forall k: nat | 1 <= k <= j + 1 ensures Cycle(c, k, a, b) != c { CycleDistinct(a, b, g, len, c, 0, k); }
    ExchangedAt(was, a, c, j);
    assert !Passed(c, j, a, b, p);
    var next := cur[p := cur[c]][c := cur[p]];
    forall q | 0 <= q < |was| && !Passed(c, j + 1, a, b, q) ensures next[q] == was[q] {
      assert Cycle(c, j + 1, a, b) != q && Cycle(c, 0, a, b) != q;
      assert !Passed(c, j, a, b, q);
    }
  }

  lemma StartOfCycle(c: nat, a: nat, b: nat)
    requires c < a + b
    ensures Cycle(c, 0, a, b) == c
  {
  }

  /** The residues below `i` are exchanged, the others still as they were. */
  ghost predicate PartlyDone<T>(was: seq<T>, cur: seq<T>, a: nat, g: nat, i: nat) {
    && 0 < a < |was| == |cur| && g > 0
    && forall p :: 0 <= p < |was| ==> cur[p] == if p % g < i then Exchanged(was, a)[p] else was[p]
  }

  lemma CycleDone<T>(was: seq<T>, before: seq<T>, cur: seq<T>, a: nat, g: nat, len: nat, i: nat)
    requires PartlyDone(was, before, a, g, i) && Shape(a, |was| - a, g, len) && i < g && len > 0
    requires a + i < |was| && Turning(before, cur, a, a + i, len - 1)
    ensures PartlyDone(was, cur, a, g, i + 1)
  {
    hide Cycle, Shape;
    var b, c := |was| - a, a + i;
    forall p | 0 <= p < |was| ensures cur[p] == if p % g < i + 1 then Exchanged(was, a)[p] else was[p] {
      if p % g == i {
        OnItsCycle(was, before, cur, a, g, len, i, p);
      } else {
        forall k: nat ensures Cycle(c, k, a, b) != p { CycleResidue(a, b, g, len, i, k); }
        assert !Passed(c, len - 1, a, b, p);
      }
    }
  }

  lemma OnItsCycle<T>(was: seq<T>, before: seq<T>, cur: seq<T>, a: nat, g: nat, len: nat, i: nat, p: nat)
    requires PartlyDone(was, before, a, g, i) && Shape(a, |was| - a, g, len) && i < g && len > 0
    requires a + i < |was| && Turning(before, cur, a, a + i, len - 1) && p < |was| && p % g == i
    ensures cur[p] == Exchanged(was, a)[p]
  {
    hide Cycle, Shape, Exchanged;
    var b, c := |was| - a, a + i;
    var k := CycleCovers(a, b, g, len, p);
    var last := if k == 0 then len - 1 else k - 1;
    CycleCloses(a, b, g, len, c);
    StartOfCycle(c, a, b);
    ExchangedAt(was, a, c, last);
    ExchangedAt(before, a, c, last);
    CycleResidue(a, b, g, len, i, last);
    assert Cycle(c, last + 1, a, b) == p;
    assert Cycle(c, k, a, b) == p;
  }

  /** One cycle of swaps. */
  method TurnCycle<T>(nargv: array<T>, start: nat, end: nat, optEnd: nat, i: nat, cycleLen: nat, ghost g: nat)
    requires start < end < optEnd <= nargv.Length && i < g && cycleLen > 0
    requires Shape(end - start, optEnd - end, g, cycleLen) && end + i < optEnd
    modifies nargv
    ensures nargv[..start] == old(nargv[..start]) && nargv[optEnd..] == old(nargv[optEnd..])
    ensures Turning(old(nargv[start..optEnd]), nargv[start..optEnd], end - start, end - start + i, cycleLen - 1)
  {
    hide Cycle, Shape, Exchanged, Passed, Turning;
    ghost var was, a, b, c := nargv[start..optEnd], end - start, optEnd - end, end - start + i;
    StartOfCycle(c, a, b);
    StartTurning(was, a, c);
    var cstart := end + i;
    var pos, j := cstart, 0;
    while j < cycleLen
      invariant j <= cycleLen && nargv[..start] == old(nargv[..start]) && nargv[optEnd..] == old(nargv[optEnd..])
      invariant start <= pos < optEnd && pos - start == Cycle(c, j, a, b)
      invariant Turning(was, nargv[start..optEnd], a, c, if j < cycleLen then j else cycleLen - 1)
    {
      ghost var cur := nargv[start..optEnd];
      CycleStep(c, j, a, b);
      if pos >= end { pos := pos - (end - start); } else { pos := pos + (optEnd - end); }
      if j + 1 < cycleLen {
        SwapTurns(was, cur, a, g, cycleLen, c, j);
      } else {
        CycleCloses(a, b, g, cycleLen, c);
        assert cur[c := cur[c]][c := cur[c]] == cur;
      }
      Swap(nargv, pos, cstart, start, optEnd);
      j := j + 1;
    }
  }

  method Swap<T>(nargv: array<T>, x: nat, y: nat, ghost start: nat, ghost optEnd: nat)
    requires start <= x < optEnd <= nargv.Length && start <= y < optEnd
    modifies nargv
    ensures nargv[..start] == old(nargv[..start]) && nargv[optEnd..] == old(nargv[optEnd..])
    ensures nargv[start..optEnd]
      == old(nargv[start..optEnd])[x - start := old(nargv[start..optEnd])[y - start]][y - start := old(nargv[start..optEnd])[x - start]]
  {
    var swap := nargv[x];
    nargv[x] := nargv[y];
    nargv[y] := swap;
  }

  lemma StartTurning<T>(was: seq<T>, a: nat, c: nat)
    requires 0 < a < |was| && c < |was|
    ensures Turning(was, was, a, c, 0)
  {
    hide Cycle, Exchanged, Passed;
    StartOfCycle(c, a, |was| - a);
  }

  /** `permute_args`: exchanges the blocks before and after `end`. */
  method PermuteArgs<T>(start: nat, end: nat, optEnd: nat, nargv: array<T>)
    requires start < end < optEnd <= nargv.Length
    modifies nargv
    ensures nargv[..start] == old(nargv[..start]) && nargv[optEnd..] == old(nargv[optEnd..])
    ensures nargv[start..optEnd] == old(nargv[end..optEnd]) + old(nargv[start..end])
  {
    hide Cycle, Turning, Shape, Exchanged, PartlyDone, GcdOf;
    ghost var was, a := nargv[start..optEnd], end - start;
    var nnonopts, nopts := end - start, optEnd - end;
    var ncycle := Gcd(nnonopts, nopts);
    var cycleLen := (optEnd - start) / ncycle;
    Cycles(nnonopts, nopts);
    NoneDone(was, a, ncycle);
    var i := 0;
    while i < ncycle
      invariant i <= ncycle && nargv[..start] == old(nargv[..start]) && nargv[optEnd..] == old(nargv[optEnd..])
      invariant PartlyDone(was, nargv[start..optEnd], a, ncycle, i)
    {
      ghost var before := nargv[start..optEnd];
      TurnCycle(nargv, start, end, optEnd, i, cycleLen, ncycle);
      CycleDone(was, before, nargv[start..optEnd], a, ncycle, cycleLen, i);
      i := i + 1;
    }
    AllDone(was, nargv[start..optEnd], a, ncycle);
    assert was[a..] == old(nargv[end..optEnd]) && was[..a] == old(nargv[start..end]);
  }

  lemma NoneDone<T>(was: seq<T>, a: nat, g: nat)
    requires 0 < a < |was| && g > 0
    ensures PartlyDone(was, was, a, g, 0)
  {
  }

  lemma AllDone<T>(was: seq<T>, cur: seq<T>, a: nat, g: nat)
    requires PartlyDone(was, cur, a, g, g)
    ensures cur == was[a..] + was[..a]
  {
    assert cur == Exchanged(was, a);
  }

  lemma Cycles(a: nat, b: nat)
    requires a > 0 && b > 0
    ensures var g := GcdOf(a, b); Shape(a, b, g, (a + b) / g) && (a + b) / g > 0 && g <= b
  {
    var x, y, p, q := Bezout(a, b);
    hide GcdOf;
    Quotient(a, b, p, q, GcdOf(a, b));
  }

  lemma Quotient(a: nat, b: nat, p: nat, q: nat, g: nat)
    requires a == p * g && b == q * g && g > 0 && a > 0
    ensures (a + b) / g == p + q && a + b == (p + q) * g && p + q > 0
  {
    assert (p + q) * g == p * g + q * g;
    assert g * (p + q) == (p + q) * g;
    ModUnique(a + b, g, p + q, 0);
    assert p == 0 ==> p * g == 0;
  }
}
