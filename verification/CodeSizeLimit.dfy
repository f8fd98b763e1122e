/** Limiting the longest code size while keeping the code complete. */
module CodeSizeLimit {
  import opened Bits
  import opened WeightedLengths

  /** Room taken by the codes of sizes `1..upTo`, in units of the longest size `m`. */
  ghost function Room(num: seq<int>, m: nat, upTo: nat): int
    requires upTo <= m && upTo < |num|
  {
    if upTo == 0 then 0 else Room(num, m, upTo - 1) + num[upTo] * Pow2(m - upTo)
  }

  ghost function Codes(num: seq<int>, upTo: nat): int
    requires upTo < |num|
  {
    if upTo == 0 then 0 else Codes(num, upTo - 1) + num[upTo]
  }

  ghost predicate Counts(num: seq<int>) {
    |num| == 33 && forall i :: 0 <= i < 33 ==> num[i] >= 0
  }

  lemma {:induction false} RoomUpdate(num: seq<int>, m: nat, upTo: nat, j: nat, v: int)
    requires upTo <= m && upTo < |num| && j < |num| && j >= 1
    ensures Room(num[j := v], m, upTo) == Room(num, m, upTo) + if j <= upTo then (v - num[j]) * Pow2(m - j) else 0
  {
    if upTo > 0 {
      RoomUpdate(num, m, upTo - 1, j, v);
      if j == upTo { Distribute2(v, num[j], Pow2(m - j)); }
    }
  }

  lemma Distribute2(a: int, b: int, p: int)
    ensures a * p == b * p + (a - b) * p
  {
  }

  lemma {:induction false} CodesUpdate(num: seq<int>, upTo: nat, j: nat, v: int)
    requires upTo < |num| && 1 <= j < |num|
    ensures Codes(num[j := v], upTo) == Codes(num, upTo) + if j <= upTo then v - num[j] else 0
  {
    if upTo > 0 { CodesUpdate(num, upTo - 1, j, v); }
  }

  lemma {:induction false} CodesMonotone(num: seq<int>, a: nat, b: nat)
    requires Counts(num) && a <= b < 33
    ensures 0 <= Codes(num, a) <= Codes(num, b)
    decreases b
  {
    if a < b { CodesMonotone(num, a, b - 1); } else if a > 0 { CodesMonotone(num, a - 1, a - 1); }
  }

  lemma ScaleStep(q: int, r: int, x: int, p: int)
    ensures q * (r + x * p) == q * r + x * (p * q)
  {
    assert q * (x * p) == x * (p * q);
  }

  /** Measured in finer units, the same codes take proportionally more. */
  lemma {:induction false} RoomScaled(num: seq<int>, m: nat, up: nat, upTo: nat)
    requires upTo <= m && upTo < |num|
    ensures Room(num, m + up, upTo) == Pow2(up) * Room(num, m, upTo)
  {
    hide Pow2;
    if upTo > 0 {
      RoomScaled(num, m, up, upTo - 1);
      Pow2Add(m - upTo, up);
      ScaleStep(Pow2(up), Room(num, m, upTo - 1), num[upTo], Pow2(m - upTo));
    }
  }

  lemma LongStep(f: int, r: int, x: int, p: int, q: int)
    requires x >= 0 && p >= 1 && 2 * p <= q && f <= r && 2 * r <= f * q
    ensures f + x <= r + x * p && 2 * (r + x * p) <= (f + x) * q
  {
    assert x <= x * p;
    assert 2 * (x * p) == x * (2 * p) <= x * q;
    assert (f + x) * q == f * q + x * q;
  }

  /** The codes longer than `max` take at least one unit each and at most half a `max`-sized code each. */
  lemma {:induction false} LongRoom(num: seq<int>, max: nat, upTo: nat)
    requires Counts(num) && max <= upTo <= 32
    ensures Codes(num, upTo) - Codes(num, max) <= Room(num, 32, upTo) - Room(num, 32, max)
    ensures 2 * (Room(num, 32, upTo) - Room(num, 32, max)) <= (Codes(num, upTo) - Codes(num, max)) * Pow2(32 - max)
    decreases upTo
  {
    hide *;
    CountsAre(num);
    if upTo > max {
      LongRoom(num, max, upTo - 1);
      Pow2Monotone(32 - upTo + 1, 32 - max);
      Pow2Small(32 - upTo);
      PowSome(32 - upTo);
      RoomNext(num, 32, upTo);
      LongStep(Codes(num, upTo - 1) - Codes(num, max), Room(num, 32, upTo - 1) - Room(num, 32, max), num[upTo],
               Pow2(32 - upTo), Pow2(32 - max));
    }
  }

  lemma CountsAre(num: seq<int>)
    requires Counts(num)
    ensures |num| == 33 && forall i :: 0 <= i < 33 ==> num[i] >= 0
  {
  }

  lemma RoomNext(num: seq<int>, m: nat, upTo: nat)
    requires 0 < upTo <= m && upTo < |num|
    ensures Room(num, m, upTo) == Room(num, m, upTo - 1) + num[upTo] * Pow2(m - upTo)
    ensures Codes(num, upTo) == Codes(num, upTo - 1) + num[upTo]
  {
  }

  /** With no code shorter than `max` left, the room is the number of codes. */
  lemma {:induction false} AllLongest(num: seq<int>, max: nat, upTo: nat)
    requires Counts(num) && 1 <= max <= 32 && upTo < max
    requires forall i :: 1 <= i <= upTo ==> num[i] == 0
    ensures Room(num, max, upTo) == 0 && Codes(num, upTo) == 0
  {
    if upTo > 0 { AllLongest(num, max, upTo - 1); }
  }

  /** The counts describe a complete code. */
  ghost predicate CompleteCounts(num: seq<int>) {
    Counts(num) && Room(num, 32, 32) == Pow2(32)
  }

  /** Counts while codes are moved up: over-full by `total - 2^max`, and the excess is less than
      the number of codes of the longest size. */
  ghost predicate Overfull(num: seq<int>, max: nat, codes: int, total: int) {
    && Counts(num) && 1 <= max <= 32
    && Codes(num, max) == codes && total == Room(num, max, max)
    && total >= Pow2(max) && (total > Pow2(max) ==> total - Pow2(max) < num[max])
  }

  /** Folding all longer codes into the longest allowed size overfills the code by less than the
      number of codes of that size. */
  lemma Folded(num: seq<int>, max: nat, num': seq<int>)
    requires CompleteCounts(num) && 1 <= max <= 32
    requires |num'| == 33 && num' == num[max := num[max] + (Codes(num, 32) - Codes(num, max))]
    ensures Overfull(num', max, Codes(num, 32), Room(num', max, max))
  {
    hide Room, Codes, Pow2;
    var f := Codes(num, 32) - Codes(num, max);
    CodesMonotone(num, max, 32);
    CodesMonotone(num, 0, max);
    RoomUpdate(num, max, max, max, num[max] + f);
    CodesUpdate(num, max, max, num[max] + f);
    LongRoom(num, max, 32);
    RoomScaled(num, max, 32 - max, max);
    Pow2Add(max, 32 - max);
    Pow2Small(0);
    FoldedBounds(Room(num, max, max), f, Pow2(32 - max), Pow2(max), Room(num, 32, 32) - Room(num, 32, max));
  }

  lemma Pow2Small(k: nat)
    ensures Pow2(0) == 1 && Pow2(k + 1) == 2 * Pow2(k)
  {
  }

  lemma FoldedBounds(t: int, f: int, q: int, p: int, r: int)
    requires q >= 1 && f >= 0 && q * t + r == p * q && f <= r && 2 * r <= f * q
    ensures t + f >= p && (t + f > p ==> t + f - p < f)
  {
    assert q * (t + f + 1) == q * t + q * f + q;
    if t + f < p { MulMonotone(q, t + f + 1, p); }
    if f > 0 && t >= p { MulMonotone(q, p, t); }
  }

  /** Room for moving up: some code is shorter than `max`, and one of size `max` is there to move. */
  lemma MoveExists(num: seq<int>, max: nat, codes: int, total: int)
    requires Overfull(num, max, codes, total) && codes <= Pow2(max) && total != Pow2(max)
    ensures num[max] > 0 && exists i :: 1 <= i < max && num[i] > 0
  {
    Pow2Small(0);
    if forall i :: 1 <= i <= max - 1 ==> num[i] == 0 { AllLongest(num, max, max - 1); }
  }

  /** One longest code and a shorter one make way for two codes one bit longer. */
  lemma MoveUp(num: seq<int>, max: nat, codes: int, total: int, i: nat)
    requires Overfull(num, max, codes, total) && total != Pow2(max)
    requires 1 <= i < max && num[i] > 0
    ensures var a := num[max := num[max] - 1]; var b := a[i := a[i] - 1]; var c := b[i + 1 := b[i + 1] + 2];
            Overfull(c, max, codes, total - 1)
  {
    hide Room, Codes, Pow2;
    var a := num[max := num[max] - 1];
    var b := a[i := a[i] - 1];
    var c := b[i + 1 := b[i + 1] + 2];
    RoomUpdate(num, max, max, max, num[max] - 1);
    RoomUpdate(a, max, max, i, a[i] - 1);
    RoomUpdate(b, max, max, i + 1, b[i + 1] + 2);
    CodesUpdate(num, max, max, num[max] - 1);
    CodesUpdate(a, max, i, a[i] - 1);
    CodesUpdate(b, max, i + 1, b[i + 1] + 2);
    Pow2Small(max - i - 1);
  }

  /** How many of the lengths are `v`. */
  ghost function Occurs(l: seq<nat>, v: nat): nat {
    if l == [] then 0 else Occurs(l[1..], v) + if l[0] == v then 1 else 0
  }

  /** How many of the lengths are at most `k`. */
  ghost function UpTo(l: seq<nat>, k: nat): nat {
    if l == [] then 0 else UpTo(l[1..], k) + if l[0] <= k then 1 else 0
  }

  /** The counters up to `max` hold the number of codes of each size. */
  ghost predicate Counted(l: seq<nat>, num: seq<int>, max: nat) {
    |num| == 33 && max < 33 && forall v: nat :: v <= max ==> num[v] == Occurs(l, v)
  }

  ghost predicate Sized(l: seq<nat>, max: nat) {
    forall i :: 0 <= i < |l| ==> 1 <= l[i] <= max
  }

  ghost predicate Descending(l: seq<nat>) {
    forall i, j :: 0 <= i <= j < |l| ==> l[i] >= l[j]
  }

  lemma {:induction false} OccursUpdate(l: seq<nat>, i: nat, x: nat, v: nat)
    requires i < |l|
    ensures Occurs(l[i := x], v) == Occurs(l, v) - (if l[i] == v then 1 else 0) + if x == v then 1 else 0
  {
    var l' := l[i := x];
    if i == 0 { assert l'[1..] == l[1..]; } else {
      OccursUpdate(l[1..], i - 1, x, v);
      assert l'[1..] == l[1..][i - 1 := x];
    }
  }

  lemma {:induction false} ScaledUpdate(l: seq<nat>, b: nat, i: nat, x: nat)
    requires i < |l| && x <= b && forall t :: 0 <= t < |l| ==> l[t] <= b
    ensures Scaled(l[i := x], b) == Scaled(l, b) - Pow2(b - l[i]) + Pow2(b - x)
  {
    var l' := l[i := x];
    if i == 0 { assert l'[1..] == l[1..]; } else {
      ScaledUpdate(l[1..], b, i - 1, x);
      assert l'[1..] == l[1..][i - 1 := x];
    }
  }

  lemma {:induction false} NoneUpTo(l: seq<nat>)
    requires forall i :: 0 <= i < |l| ==> l[i] >= 1
    ensures UpTo(l, 0) == 0 && Occurs(l, 0) == 0
  {
    if l != [] { NoneUpTo(l[1..]); }
  }

  lemma {:induction false} UpToStep(l: seq<nat>, k: nat)
    requires k > 0
    ensures UpTo(l, k) == UpTo(l, k - 1) + Occurs(l, k)
  {
    if l != [] { UpToStep(l[1..], k); }
  }

  /** The counters add up to the number of codes of at most a given size. */
  lemma {:induction false} CodesAre(l: seq<nat>, num: seq<int>, max: nat, k: nat)
    requires Counted(l, num, max) && k <= max && forall i :: 0 <= i < |l| ==> l[i] >= 1
    ensures Codes(num, k) == UpTo(l, k)
  {
    if k == 0 {
      NoneUpTo(l);
    } else {
      CodesAre(l, num, max, k - 1);
      UpToStep(l, k);
    }
  }

  lemma {:induction false} AllUpTo(l: seq<nat>, k: nat)
    requires forall i :: 0 <= i < |l| ==> l[i] <= k
    ensures UpTo(l, k) == |l|
  {
    if l != [] { AllUpTo(l[1..], k); }
  }

  /** In descending order, the lengths of at most `k` are the last ones. */
  lemma {:induction false} LastUpTo(l: seq<nat>, k: nat, p: nat)
    requires Descending(l) && p < |l|
    ensures UpTo(l, k) <= |l| && (l[p] <= k <==> p >= |l| - UpTo(l, k))
  {
    if l[0] <= k {
      AllUpTo(l, k);
    } else if p > 0 {
      LastUpTo(l[1..], k, p - 1);
    } else if |l| > 1 {
      LastUpTo(l[1..], k, 0);
    }
  }

  lemma {:induction false} ScaledUp(l: seq<nat>, b: nat, k: nat)
    requires forall i :: 0 <= i < |l| ==> l[i] <= b
    ensures Scaled(l, b + k) == Pow2(k) * Scaled(l, b)
  {
    hide Pow2;
    if l != [] {
      ScaledUp(l[1..], b, k);
      Pow2Add(k, b - l[0]);
      Distribute(Pow2(k), Pow2(b - l[0]), Scaled(l[1..], b));
    }
  }

  lemma Distribute(a: int, b: int, c: int)
    ensures a * (b + c) == a * b + a * c
  {
  }

  lemma {:induction false} ScaledConcat(a: seq<nat>, l: seq<nat>, b: nat)
    requires forall i :: 0 <= i < |a| ==> a[i] <= b
    requires forall i :: 0 <= i < |l| ==> l[i] <= b
    ensures Scaled(a + l, b) == Scaled(a, b) + Scaled(l, b)
  {
    if a == [] { assert a + l == l; } else {
      ScaledConcat(a[1..], l, b);
      assert (a + l)[1..] == a[1..] + l;
    }
  }

  lemma {:induction false} CountedRoom(l: seq<nat>, num: seq<int>, m: nat)
    requires Counted(l, num, m) && Sized(l, m)
    ensures Codes(num, m) == |l| && Room(num, m, m) == Scaled(l, m)
  {
    hide *;
    if l == [] {
      EmptyRoom(num, m, m);
      NoneScaled(m);
    } else {
      CountedTail(l, num, m);
      var num' := num[l[0] := num[l[0]] - 1];
      CountedRoom(l[1..], num', m);
      RoomUpdate(num', m, m, l[0], num[l[0]]);
      CodesUpdate(num', m, l[0], num[l[0]]);
      assert num == num'[l[0] := num[l[0]]];
      ScaledStep(l, m);
    }
  }

  lemma NoneScaled(m: nat)
    ensures Scaled([], m) == 0
  {
  }

  lemma CountedTail(l: seq<nat>, num: seq<int>, m: nat)
    requires Counted(l, num, m) && Sized(l, m) && l != []
    ensures |num| == 33 && 1 <= l[0] <= m < 33 && Counted(l[1..], num[l[0] := num[l[0]] - 1], m) && Sized(l[1..], m)
    ensures forall i :: 0 <= i < |l| ==> l[i] <= m
  {
  }

  lemma ScaledStep(l: seq<nat>, b: nat)
    requires l != [] && forall i :: 0 <= i < |l| ==> l[i] <= b
    ensures Scaled(l, b) == Pow2(b - l[0]) + Scaled(l[1..], b)
  {
  }

  lemma {:induction false} EmptyRoom(num: seq<int>, m: nat, k: nat)
    requires Counted([], num, m) && k <= m
    ensures Room(num, m, k) == 0 && Codes(num, k) == 0
  {
    if k > 0 { EmptyRoom(num, m, k - 1); }
  }

  /** The lengths cut to `max`, the first `u` of them all made `max`. */
  ghost function Cut(l: seq<nat>, max: nat, u: nat): (c: seq<nat>)
    ensures |c| == |l| && forall p :: 0 <= p < |l| ==> c[p] <= max
  {
    seq(|l|, p requires 0 <= p < |l| => if p < u || l[p] > max then max else l[p])
  }

  /** The lengths `fin` after limiting: at most `max`, and not changed but for the cut beyond the
      `u` lightest symbols.  Making those `u` as long as allowed frees fewer than two units a symbol. */
  ghost predicate Limited(l: seq<nat>, fin: seq<nat>, max: nat, u: nat) {
    && |fin| == |l| && u <= |l| && Descending(fin) && Sized(fin, max)
    && (forall p :: u <= p < |l| ==> fin[p] == Cut(l, max, 0)[p])
    && Scaled(Cut(l, max, 0), max) <= Scaled(Cut(l, max, u), max) + 2 * |l|
  }

  lemma {:induction false} AllCut(l: seq<nat>, max: nat)
    ensures Scaled(Cut(l, max, |l|), max) == |l|
  {
    if l != [] {
      AllCut(l[1..], max);
      assert Cut(l, max, |l|)[1..] == Cut(l[1..], max, |l| - 1);
      assert Pow2(0) == 1;
    }
  }

  /** The least number of symbols whose lengthening makes the code fit. */
  lemma ChooseLight(l: seq<nat>, max: nat) returns (u: nat)
    requires |l| <= Pow2(max)
    ensures u <= |l| && Scaled(Cut(l, max, u), max) <= Pow2(max)
    ensures u > 0 ==> Scaled(Cut(l, max, u - 1), max) > Pow2(max)
  {
    AllCut(l, max);
    u := |l|;
    while u > 0 && Scaled(Cut(l, max, u - 1), max) <= Pow2(max)
      invariant u <= |l| && Scaled(Cut(l, max, u), max) <= Pow2(max)
    {
      u := u - 1;
    }
  }

  /** Lengthening one more symbol. */
  lemma CutStep(l: seq<nat>, max: nat, u: nat)
    requires u < |l|
    ensures Cut(l, max, u + 1) == Cut(l, max, u)[u := max]
    ensures Scaled(Cut(l, max, u), max) == Scaled(Cut(l, max, u + 1), max) + Pow2(max - Cut(l, max, 0)[u]) - 1
  {
    var c := Cut(l, max, u);
    assert Cut(l, max, u + 1) == c[u := max];
    ScaledUpdate(c, max, u, max);
    assert Pow2(0) == 1;
  }

  /** A complete code's lengths from some place on, no longer than `i`, leave a whole unit of `i`. */
  lemma TailRoom(l: seq<nat>, v: nat, i: nat, max: nat)
    requires Sized(l, 32) && Scaled(l, 32) == Pow2(32) && 0 < v < |l| && i < max <= 32
    requires forall p :: v <= p < |l| ==> l[p] <= i
    ensures Scaled(l[v..], max) + Pow2(max - i) <= Pow2(max)
  {
    hide *;
    SizedTo(l);
    var t := l[v..];
    assert l == l[..v] + t;
    ScaledConcat(l[..v], t, 32);
    ScaledUp(t, i, 32 - i);
    ScaledUp(t, i, max - i);
    Pow2Add(32 - i, i);
    Pow2Add(max - i, i);
    ScaledSome(l[..v], 32);
    UnitBelow(Pow2(32 - i), Scaled(t, i), Pow2(i), Pow2(max - i));
  }

  lemma SizedTo(l: seq<nat>)
    requires Sized(l, 32)
    ensures forall i :: 0 <= i < |l| ==> l[i] <= 32
  {
  }

  lemma ScaledSome(l: seq<nat>, b: nat)
    requires l != [] && forall i :: 0 <= i < |l| ==> l[i] <= b
    ensures Scaled(l, b) > 0
  {
  }

  lemma UnitBelow(q: nat, s: nat, p: nat, r: nat)
    requires q * s < q * p
    ensures r * s + r <= r * p
  {
    if s >= p { MulMonotone(q, p, s); }
    MulMonotone(r, s + 1, p);
  }

  lemma {:induction false} CutFront(l: seq<nat>, max: nat, v: nat)
    requires v <= |l| && forall p :: v <= p < |l| ==> l[p] <= max
    ensures Scaled(Cut(l, max, v), max) == v + Scaled(l[v..], max)
  {
    if v == 0 {
      assert Cut(l, max, 0) == l && l[0..] == l;
    } else {
      CutFront(l[1..], max, v - 1);
      assert Cut(l, max, v)[1..] == Cut(l[1..], max, v - 1) && l[1..][v - 1..] == l[v..];
      assert Pow2(0) == 1;
    }
  }

  /** The room left over by lengthening the lightest symbols is small. */
  lemma LightRoom(l: seq<nat>, max: nat, u: nat)
    requires Sized(l, 32) && Descending(l) && Scaled(l, 32) == Pow2(32) && 1 <= max <= 32 && 0 < u <= |l|
    requires Scaled(Cut(l, max, u), max) <= Pow2(max) < Scaled(Cut(l, max, u - 1), max)
    ensures Pow2(max) <= Scaled(Cut(l, max, u), max) + |l|
  {
    hide Scaled, Pow2, Descending;
    var v := u - 1;
    CutStep(l, max, v);
    Pow2Small(0);
    var i := Cut(l, max, 0)[v];
    BelowCut(l, max, v);
    CutFront(l, max, v);
    if v == 0 {
      FitsAlready(l, max);
    } else {
      TailRoom(l, v, i, max);
    }
  }

  lemma BelowCut(l: seq<nat>, max: nat, v: nat)
    requires Descending(l) && v < |l| && Cut(l, max, 0)[v] != max
    ensures l[v] == Cut(l, max, 0)[v] < max && forall p :: v <= p < |l| ==> l[p] <= l[v]
  {
  }

  /** A code without longer codes than `max` fits as it is. */
  lemma FitsAlready(l: seq<nat>, max: nat)
    requires max <= 32 && (forall p :: 0 <= p < |l| ==> l[p] <= max) && Scaled(l, 32) == Pow2(32)
    ensures Scaled(l[0..], max) == Pow2(max)
  {
    hide Scaled, Pow2;
    assert l[0..] == l;
    ScaledUp(l, max, 32 - max);
    Pow2Add(32 - max, max);
    PowSome(32 - max);
    Cancel(Pow2(32 - max), Scaled(l, max), Pow2(max));
  }

  lemma Cancel(a: nat, b: nat, c: nat)
    requires a > 0 && a * b == a * c
    ensures b == c
  {
    if b < c { MulMonotone(a, b + 1, c); }
    if c < b { MulMonotone(a, c + 1, b); }
  }

  lemma PowSome(n: nat)
    ensures Pow2(n) > 0
  {
  }

  lemma {:induction false} OccursBelow(l: seq<nat>, max: nat, v: nat)
    requires v < max
    ensures Occurs(Cut(l, max, 0), v) == Occurs(l, v)
  {
    if l != [] {
      OccursBelow(l[1..], max, v);
      assert Cut(l, max, 0)[1..] == Cut(l[1..], max, 0);
    }
  }

  lemma {:induction false} OccursCut(l: seq<nat>, max: nat)
    requires max > 0
    ensures Occurs(Cut(l, max, 0), max) + UpTo(l, max - 1) == |l|
  {
    if l != [] {
      OccursCut(l[1..], max);
      assert Cut(l, max, 0)[1..] == Cut(l[1..], max, 0);
    }
  }

  /** Folding the counters cuts the lengths. */
  lemma FoldCuts(l: seq<nat>, num: seq<int>, max: nat, num': seq<int>)
    requires Counted(l, num, 32) && Sized(l, 32) && 1 <= max <= 32
    requires num' == num[max := num[max] + (Codes(num, 32) - Codes(num, max))]
    ensures Counted(Cut(l, max, 0), num', max) && Codes(num, 32) == |l|
  {
    CodesAre(l, num, 32, 32);
    CodesAre(l, num, 32, max - 1);
    AllUpTo(l, 32);
    OccursCut(l, max);
    forall v: nat | v < max ensures num'[v] == Occurs(Cut(l, max, 0), v) { OccursBelow(l, max, v); }
  }

  /** The lengths while codes are moved up: only the `u` lightest have changed. */
  ghost predicate Moving(l: seq<nat>, cur: seq<nat>, num: seq<int>, max: nat, u: nat) {
    && |cur| == |l| && u <= |l| && Descending(cur) && Sized(cur, max) && Counted(cur, num, max)
    && Scaled(Cut(l, max, u), max) <= Pow2(max)
    && forall p :: u <= p < |l| ==> cur[p] == Cut(l, max, 0)[p]
  }

  lemma {:induction false} FirstLongest(l: seq<nat>, max: nat, p: nat)
    requires Descending(l) && Sized(l, max) && p < |l|
    ensures Occurs(l, max) <= |l| && (l[p] == max <==> p < Occurs(l, max))
  {
    if l[0] == max {
      if p > 0 { FirstLongest(l[1..], max, p - 1); } else if |l| > 1 { FirstLongest(l[1..], max, 0); }
    } else {
      NotThere(l, max);
    }
  }

  lemma {:induction false} NotThere(l: seq<nat>, v: nat)
    requires forall i :: 0 <= i < |l| ==> l[i] != v
    ensures Occurs(l, v) == 0
  {
    if l != [] { NotThere(l[1..], v); }
  }

  /** The codes moved: the lightest of the longest size and the lightest that is shorter. */
  lemma MovePair(l: seq<nat>, cur: seq<nat>, num: seq<int>, max: nat, u: nat, codes: int, total: int, i: nat) returns (cur': seq<nat>)
    requires Moving(l, cur, num, max, u) && Overfull(num, max, codes, total) && total != Pow2(max)
    requires 1 <= i < max && num[i] > 0 && num[max] > 0 && forall t :: i < t < max ==> num[t] == 0
    ensures var a := num[max := num[max] - 1]; var b := a[i := a[i] - 1]; var c := b[i + 1 := b[i + 1] + 2];
            Moving(l, cur', c, max, u)
  {
    hide Room, Codes, Pow2, Scaled, Overfull, Moving;
    MovingParts(l, cur, num, max, u);
    TotalIs(cur, num, max, codes, total);
    var k := num[max];
    forall p | 0 <= p < |cur| ensures cur[p] == max <==> p < k { FirstLongest(cur, max, p); }
    if k >= |cur| { NotThere(cur, i); }
    LongestShorter(cur, num, max, i, k);
    if k >= u { AllLong(l, cur, max, u); }
    cur' := cur[k - 1 := i + 1][k := i + 1];
    forall v: nat ensures Occurs(cur', v) == Occurs(cur, v) - (if v == max then 1 else 0) - (if v == i then 1 else 0)
                                               + (if v == i + 1 then 2 else 0) {
      OccursUpdate(cur, k - 1, i + 1, v);
      OccursUpdate(cur[k - 1 := i + 1], k, i + 1, v);
    }
    Moved(l, cur, num, max, u, i, k, cur');
  }

  lemma AllLong(l: seq<nat>, cur: seq<nat>, max: nat, u: nat)
    requires |cur| == |l| && (forall p :: 0 <= p < u && p < |l| ==> cur[p] == max)
    requires forall p :: u <= p < |l| ==> cur[p] == Cut(l, max, 0)[p]
    ensures cur == Cut(l, max, u)
  {
  }

  lemma MovingParts(l: seq<nat>, cur: seq<nat>, num: seq<int>, max: nat, u: nat)
    requires Moving(l, cur, num, max, u)
    ensures |cur| == |l| && u <= |l| && Descending(cur) && Sized(cur, max) && Counted(cur, num, max) && |num| == 33 && max < 33
    ensures Scaled(Cut(l, max, u), max) <= Pow2(max)
    ensures forall p :: u <= p < |l| ==> cur[p] == Cut(l, max, 0)[p]
  {
  }

  lemma TotalIs(cur: seq<nat>, num: seq<int>, max: nat, codes: int, total: int)
    requires Counted(cur, num, max) && Sized(cur, max) && Overfull(num, max, codes, total) && total != Pow2(max)
    ensures Scaled(cur, max) == total > Pow2(max)
  {
    CountedRoom(cur, num, max);
  }

  /** The first code below the longest size has the largest size that occurs there. */
  lemma LongestShorter(cur: seq<nat>, num: seq<int>, max: nat, i: nat, k: nat)
    requires Counted(cur, num, max) && Sized(cur, max) && Descending(cur) && k < |cur| && i < max
    requires num[i] > 0 && (forall t :: i < t < max ==> num[t] == 0) && forall p :: 0 <= p < |cur| ==> (cur[p] == max <==> p < k)
    ensures cur[k] == i
  {
    if cur[k] < i {
      NotThere(cur, i);
    } else {
      ItOccurs(cur, k);
    }
  }

  lemma {:induction false} ItOccurs(l: seq<nat>, p: nat)
    requires p < |l|
    ensures Occurs(l, l[p]) > 0
  {
    if p > 0 { ItOccurs(l[1..], p - 1); }
  }

  lemma Moved(l: seq<nat>, cur: seq<nat>, num: seq<int>, max: nat, u: nat, i: nat, k: nat, cur': seq<nat>)
    requires Moving(l, cur, num, max, u) && 1 <= i < max && 0 < k < u && k < |cur| && cur[k] == i
    requires forall p :: 0 <= p < |cur| ==> (cur[p] == max <==> p < k)
    requires cur' == cur[k - 1 := i + 1][k := i + 1]
    requires forall v: nat :: Occurs(cur', v) == Occurs(cur, v) - (if v == max then 1 else 0) - (if v == i then 1 else 0)
                                               + (if v == i + 1 then 2 else 0)
    ensures var a := num[max := num[max] - 1]; var b := a[i := a[i] - 1]; var c := b[i + 1 := b[i + 1] + 2];
            Moving(l, cur', c, max, u)
  {
    hide Occurs, Scaled, Pow2;
  }

  lemma StartMoving(l: seq<nat>, num: seq<int>, max: nat, u: nat)
    requires Sized(l, 32) && Descending(l) && 1 <= max <= 32 && u <= |l|
    requires Counted(Cut(l, max, 0), num, max) && Scaled(Cut(l, max, u), max) <= Pow2(max)
    ensures Moving(l, Cut(l, max, 0), num, max, u)
  {
    hide Occurs, Scaled, Pow2;
  }

  /** What is known when the code fits at last. */
  lemma DoneMoving(l: seq<nat>, cur: seq<nat>, num: seq<int>, max: nat, u: nat, total0: int)
    requires Moving(l, cur, num, max, u) && Sized(l, 32) && Descending(l) && Scaled(l, 32) == Pow2(32) && 1 <= max <= 32
    requires u > 0 ==> Scaled(Cut(l, max, u - 1), max) > Pow2(max)
    requires total0 == Scaled(Cut(l, max, 0), max) <= Pow2(max) + |l|
    ensures Limited(l, cur, max, u)
  {
    hide Occurs, Scaled, Pow2;
    if u > 0 { LightRoom(l, max, u); }
  }

  lemma CompleteLens(l: seq<nat>, num: seq<int>)
    requires Counted(l, num, 32) && Sized(l, 32) && Scaled(l, 32) == Pow2(32)
    ensures CompleteCounts(num) && Codes(num, 32) == |l|
  {
    hide Room, Codes, Pow2, Scaled, Occurs;
    CountedRoom(l, num, 32);
    CountsOf(l, num);
  }

  lemma CountsOf(l: seq<nat>, num: seq<int>)
    requires Counted(l, num, 32)
    ensures Counts(num)
  {
  }

  lemma FirstTotal(l: seq<nat>, num: seq<int>, max: nat, codes: int, total: int)
    requires Counted(Cut(l, max, 0), num, max) && Sized(l, 32) && 1 <= max && Overfull(num, max, codes, total)
    ensures total == Scaled(Cut(l, max, 0), max) <= Pow2(max) + |l|
  {
    hide Room, Codes, Pow2, Scaled, Occurs;
    CountedRoom(Cut(l, max, 0), num, max);
    OccursAtMost(Cut(l, max, 0), max);
  }

  lemma {:induction false} OccursAtMost(l: seq<nat>, v: nat)
    ensures Occurs(l, v) <= |l|
  {
    if l != [] { OccursAtMost(l[1..], v); }
  }

  /** Makes every code size at most `max`, keeping the code complete and every symbol coded.  The
      counters were those of the lengths `lens`, lightest symbol first, and become those of `fin`. */
  method EnforceMaxCodeSize(num: array<int>, codeListLen: nat, max: nat, ghost lens: seq<nat>) returns (ghost fin: seq<nat>, ghost light: nat)
    requires num.Length == 33 && 1 <= max <= 32 && Counted(lens, num[..], 32) && |lens| == codeListLen
    requires Sized(lens, 32) && Descending(lens)
    requires codeListLen > 1 ==> Scaled(lens, 32) == Pow2(32) && codeListLen <= Pow2(max)
    modifies num
    ensures codeListLen <= 1 ==> num[..] == old(num[..]) && fin == lens
    ensures codeListLen > 1 ==> Counts(num[..]) && Codes(num[..], max) == codeListLen && Room(num[..], max, max) == Pow2(max)
    ensures codeListLen > 1 ==> Counted(fin, num[..], max) && Limited(lens, fin, max, light)
    ensures Sized(lens, max) ==> fin == lens
  {
    fin, light := lens, 0;
    if codeListLen <= 1 { return; }
    ghost var num0 := num[..];
    FoldLonger(num, max);
    hide *;
    CompleteLens(lens, num0);
    Folded(num0, max, num[..]);
    FoldCuts(lens, num0, max, num[..]);
    light := ChooseLight(lens, max);
    var total := SumRoom(num, max);
    FirstTotal(lens, num[..], max, codeListLen, total);
    ghost var total0 := total;
    fin := Cut(lens, max, 0);
    StartMoving(lens, num[..], max, light);
    while total != Pow2(max)
      invariant Overfull(num[..], max, codeListLen, total) && Moving(lens, fin, num[..], max, light)
      invariant total <= total0 && (total == total0 ==> fin == Cut(lens, max, 0))
      decreases total
    {
      total, fin := MoveOne(num, max, codeListLen, total, lens, fin, light);
    }
    DoneMoving(lens, fin, num[..], max, light, total0);
    if Sized(lens, max) { NothingToCut(lens, max, total0); }
    Fitted(lens, fin, num[..], max, light, codeListLen, total);
  }

  /** Lengths within the limit are left alone: they fill the code exactly. */
  lemma NothingToCut(l: seq<nat>, max: nat, total0: int)
    requires Sized(l, max) && max <= 32 && Sized(l, 32) && Scaled(l, 32) == Pow2(32) && total0 == Scaled(Cut(l, max, 0), max)
    ensures Cut(l, max, 0) == l && total0 == Pow2(max)
  {
    hide Scaled, Pow2;
    assert Cut(l, max, 0) == l;
    ScaledShift(l, max);
    Pow2Add(max, 32 - max);
    SameFactor(Scaled(l, max), Pow2(max), Pow2(32 - max));
  }

  lemma {:induction false} ScaledShift(l: seq<nat>, max: nat)
    requires max <= 32 && Sized(l, max)
    ensures Sized(l, 32) && Scaled(l, 32) == Scaled(l, max) * Pow2(32 - max)
  {
    if l != [] {
      hide Pow2, Scaled;
      ScaledShift(l[1..], max);
      Pow2Add(max - l[0], 32 - max);
      FirstScaled(l, max);
      FirstScaled(l, 32);
      DistributeBack(Pow2(max - l[0]), Scaled(l[1..], max), Pow2(32 - max));
    } else {
      assert Scaled(l, 32) == 0 == Scaled(l, max);
    }
  }

  lemma FirstScaled(l: seq<nat>, b: nat)
    requires l != [] && Sized(l, b)
    ensures Sized(l[1..], b) && Scaled(l, b) == Pow2(b - l[0]) + Scaled(l[1..], b)
  {
    hide Pow2;
  }

  lemma DistributeBack(a: nat, b: nat, c: nat)
    ensures (a + b) * c == a * c + b * c
  {
  }

  lemma SameFactor(a: nat, b: nat, d: nat)
    requires d > 0 && a * d == b * d
    ensures a == b
  {
    ModUnique(a * d, d, a, 0);
    ModUnique(b * d, d, b, 0);
  }

  lemma Fitted(l: seq<nat>, cur: seq<nat>, num: seq<int>, max: nat, u: nat, codes: int, total: int)
    requires Moving(l, cur, num, max, u) && Overfull(num, max, codes, total) && total == Pow2(max)
    ensures Counted(cur, num, max) && Counts(num) && Codes(num, max) == codes && Room(num, max, max) == Pow2(max)
  {
  }

  /** Counts all codes longer than `max` as codes of size `max`. */
  method FoldLonger(num: array<int>, max: nat)
    requires num.Length == 33 && 1 <= max <= 32
    modifies num
    ensures num[..] == old(num[..])[max := old(num[max]) + (Codes(old(num[..]), 32) - Codes(old(num[..]), max))]
  {
    ghost var num0 := num[..];
    var i := max + 1;
    while i <= 32
      invariant max + 1 <= i <= 33
      invariant num[..] == num0[max := num0[max] + Codes(num0, i - 1) - Codes(num0, max)]
    {
      num[max] := num[max] + num[i];
      i := i + 1;
    }
  }

  /** `total += num_codes[i] << (max_code_size - i)` */
  method SumRoom(num: array<int>, max: nat) returns (total: int)
    requires num.Length == 33 && 1 <= max <= 32
    ensures total == Room(num[..], max, max)
  {
    total := 0;
    var i := max;
    while i > 0
      invariant 0 <= i <= max && total + Room(num[..], max, i) == Room(num[..], max, max)
    {
      total := total + num[i] * Pow2(max - i);
      i := i - 1;
    }
  }

  method MoveOne(num: array<int>, max: nat, ghost codes: int, total: int, ghost lens: seq<nat>, ghost cur: seq<nat>, ghost light: nat)
    returns (total': int, ghost cur': seq<nat>)
    requires num.Length == 33 && Overfull(num[..], max, codes, total) && codes <= Pow2(max) && total != Pow2(max)
    requires Moving(lens, cur, num[..], max, light)
    modifies num
    ensures total' == total - 1 && Overfull(num[..], max, codes, total') && Moving(lens, cur', num[..], max, light)
  {
    ghost var num0 := num[..];
    MoveExists(num0, max, codes, total);
    hide Overfull, Moving, Room, Codes, Pow2;
    num[max] := num[max] - 1;
    var i := max - 1;
    while i > 0 && num[i] == 0
      invariant 0 <= i < max && num[..] == num0[max := num0[max] - 1]
      invariant forall t :: i < t < max ==> num0[t] == 0
    {
      i := i - 1;
    }
    assert i > 0 && num0[i] > 0;
    num[i] := num[i] - 1;
    num[i + 1] := num[i + 1] + 2;
    MoveUp(num0, max, codes, total, i);
    cur' := MovePair(lens, cur, num0, max, light, codes, total, i);
    total' := total - 1;
  }
}
