/** The two-pass radix sort of symbols by their 16-bit frequency. */
module RadixSort {
  import opened WeightedLengths

  datatype SymFreq = SymFreq(key: nat, symIndex: nat)

  /** Byte `pass` of a key. */
  function Digit(s: SymFreq, pass: nat): (d: nat)
    ensures d < 256
  {
    if pass == 0 then s.key % 256 else s.key / 256 % 256
  }

  /** Items among the first `k` whose digit is `d`. */
  ghost function Same(s: seq<SymFreq>, pass: nat, d: nat, k: nat): (c: nat)
    requires k <= |s|
    ensures c <= k
  {
    if k == 0 then 0 else Same(s, pass, d, k - 1) + if Digit(s[k - 1], pass) == d then 1 else 0
  }

  /** Items whose digit is below `d`. */
  ghost function Below(s: seq<SymFreq>, pass: nat, d: nat): nat {
    if d == 0 then 0 else Below(s, pass, d - 1) + Same(s, pass, d - 1, |s|)
  }

  /** Where the pass puts item `i`. */
  ghost function Place(s: seq<SymFreq>, pass: nat, i: nat): nat
    requires i < |s|
  {
    Below(s, pass, Digit(s[i], pass)) + Same(s, pass, Digit(s[i], pass), i)
  }

  lemma {:induction false} SameMonotone(s: seq<SymFreq>, pass: nat, d: nat, i: nat, j: nat)
    requires i <= j <= |s|
    ensures Same(s, pass, d, i) <= Same(s, pass, d, j)
    ensures i < j && Digit(s[i], pass) == d ==> Same(s, pass, d, i) < Same(s, pass, d, j)
    decreases j
  {
    if i < j { SameMonotone(s, pass, d, i, j - 1); }
  }

  lemma {:induction false} BelowMonotone(s: seq<SymFreq>, pass: nat, d: nat, e: nat)
    requires d < e
    ensures Below(s, pass, d) + Same(s, pass, d, |s|) <= Below(s, pass, e)
    decreases e
  {
    if d < e - 1 { BelowMonotone(s, pass, d, e - 1); }
  }

  /** Items among the first `k` whose digit is below `d`. */
  ghost function BelowIn(s: seq<SymFreq>, pass: nat, d: nat, k: nat): (c: nat)
    requires k <= |s|
    ensures c <= k
  {
    if k == 0 then 0 else BelowIn(s, pass, d, k - 1) + if Digit(s[k - 1], pass) < d then 1 else 0
  }

  lemma {:induction false} BelowInStep(s: seq<SymFreq>, pass: nat, d: nat, k: nat)
    requires k <= |s|
    ensures BelowIn(s, pass, 0, k) == 0
    ensures BelowIn(s, pass, d + 1, k) == BelowIn(s, pass, d, k) + Same(s, pass, d, k)
  {
    if k > 0 { BelowInStep(s, pass, d, k - 1); }
  }

  lemma {:induction false} BelowIsIn(s: seq<SymFreq>, pass: nat, d: nat)
    ensures Below(s, pass, d) == BelowIn(s, pass, d, |s|)
  {
    if d == 0 { BelowInStep(s, pass, 0, |s|); } else {
      BelowIsIn(s, pass, d - 1);
      BelowInStep(s, pass, d - 1, |s|);
    }
  }

  /** Places are in range, distinct, and ordered by digit and then by position. */
  lemma PlaceOrder(s: seq<SymFreq>, pass: nat, i: nat, j: nat)
    requires i < |s| && j < |s|
    ensures Place(s, pass, i) < |s|
    ensures Digit(s[i], pass) < Digit(s[j], pass) ==> Place(s, pass, i) < Place(s, pass, j)
    ensures Digit(s[i], pass) == Digit(s[j], pass) && i < j ==> Place(s, pass, i) < Place(s, pass, j)
  {
    var d, e := Digit(s[i], pass), Digit(s[j], pass);
    SameMonotone(s, pass, d, i, |s|);
    BelowIsIn(s, pass, d + 1);
    if d < e { BelowMonotone(s, pass, d, e); }
    if d == e && i < j { SameMonotone(s, pass, d, i, j); }
  }

  lemma PlaceDistinct(s: seq<SymFreq>, pass: nat, i: nat, j: nat)
    requires i < |s| && j < |s| && i != j
    ensures Place(s, pass, i) != Place(s, pass, j)
  {
    PlaceOrder(s, pass, i, j);
    PlaceOrder(s, pass, j, i);
  }

  /** `out` is `s` after one pass; `perm` says where each item came from. */
  ghost predicate Passed(s: seq<SymFreq>, pass: nat, out: seq<SymFreq>, perm: seq<nat>) {
    && |out| == |perm| == |s|
    && (forall p :: 0 <= p < |s| ==> perm[p] < |s| && out[p] == s[perm[p]])
    && (forall p, q :: 0 <= p < q < |s| ==>
          Digit(out[p], pass) < Digit(out[q], pass) || (Digit(out[p], pass) == Digit(out[q], pass) && perm[p] < perm[q]))
  }

  lemma {:induction false} NatsBelow(k: nat) returns (all: set<nat>)
    ensures |all| == k && forall x: nat :: x in all <==> x < k
  {
    if k == 0 { all := {}; } else {
      all := NatsBelow(k - 1);
      all := all + {k - 1};
    }
  }

  lemma {:induction false} SubsetIsAll<T>(a: set<T>, b: set<T>)
    requires a <= b && |a| >= |b|
    ensures a == b
  {
    if a != {} {
      var x :| x in a;
      SubsetIsAll(a - {x}, b - {x});
    }
  }

  /** Every place is filled once all items are placed. */
  lemma AllFilled(k: nat, from: map<nat, nat>)
    requires |from| == k && forall p :: p in from ==> p < k
    ensures forall p: nat :: p < k ==> p in from
  {
    var all := NatsBelow(k);
    SubsetIsAll(from.Keys, all);
  }

  lemma FilledPass(s: seq<SymFreq>, pass: nat, out: seq<SymFreq>, from: map<nat, nat>) returns (perm: seq<nat>)
    requires exists offsets: seq<nat> :: Placing(s, pass, offsets, out, from, |s|)
    ensures Passed(s, pass, out, perm)
  {
    hide Place, Digit;
    AllFilled(|s|, from);
    perm := seq(|s|, p requires 0 <= p < |s| => from[p]);
    forall p, q | 0 <= p < q < |s|
      ensures Digit(out[p], pass) < Digit(out[q], pass) || (Digit(out[p], pass) == Digit(out[q], pass) && perm[p] < perm[q])
    {
      PlaceOrder(s, pass, from[q], from[p]);
    }
  }

  /** The first `i` entries stand where they belong, and the offsets point past them. */
  ghost predicate Placing(s: seq<SymFreq>, pass: nat, offsets: seq<nat>, out: seq<SymFreq>, from: map<nat, nat>, i: nat) {
    && i <= |s| == |out| && |from| == i && |offsets| == 256
    && (forall d :: 0 <= d < 256 ==> offsets[d] == Below(s, pass, d) + Same(s, pass, d, i))
    && (forall p :: p in from ==> p < |s| && from[p] < i && Place(s, pass, from[p]) == p && out[p] == s[from[p]])
  }

  lemma NothingPlaced(s: seq<SymFreq>, pass: nat, offsets: seq<nat>, out: seq<SymFreq>)
    requires |out| == |s| && |offsets| == 256 && forall d :: 0 <= d < 256 ==> offsets[d] == Below(s, pass, d)
    ensures Placing(s, pass, offsets, out, map[], 0)
  {
    hide Below;
    SameNone(s, pass);
  }

  lemma PlaceOne(s: seq<SymFreq>, pass: nat, offsets: seq<nat>, out: seq<SymFreq>, from: map<nat, nat>, i: nat)
    requires Placing(s, pass, offsets, out, from, i) && i < |s|
    ensures var d := Digit(s[i], pass);
            |offsets| == 256 && d < 256 && offsets[d] < |out| == |s|
            && Placing(s, pass, offsets[d := offsets[d] + 1], out[offsets[d] := s[i]], from[offsets[d] := i], i + 1)
  {
    hide Below, Same, Digit;
    var d := Digit(s[i], pass);
    assert offsets[d] == Place(s, pass, i);
    PlaceOrder(s, pass, i, i);
    forall p | p in from ensures p != offsets[d] { PlaceDistinct(s, pass, from[p], i); }
    SameStep(s, pass, i);
  }

  /** One pass: counting sort by one byte, keeping the order of equal bytes. */
  method Pass(cur: array<SymFreq>, new': array<SymFreq>, n: nat, pass: nat, hist: array<nat>) returns (ghost perm: seq<nat>)
    requires cur != new' && n <= cur.Length && n <= new'.Length && pass < 2 && hist.Length == 512
    requires forall d :: 0 <= d < 256 ==> hist[256 * pass + d] == Same(cur[..n], pass, d, n)
    modifies new'
    ensures Passed(cur[..n], pass, new'[..n], perm)
  {
    hide *;
    ghost var s := cur[..n];
    var offsets := Offsets(hist, pass, s);
    ghost var from: map<nat, nat> := map[];
    NothingPlaced(s, pass, offsets[..], new'[..n]);
    var i := 0;
    while i < n
      invariant i <= n && cur[..n] == s && Placing(s, pass, offsets[..], new'[..n], from, i)
    {
      var d := Digit(cur[i], pass);
      ghost var was, out := offsets[..], new'[..n];
      PlaceOne(s, pass, was, out, from, i);
      from := from[offsets[d] := i];
      new'[offsets[d]] := cur[i];
      assert new'[..n] == out[was[d] := s[i]];
      offsets[d] := offsets[d] + 1;
      assert offsets[..] == was[d := was[d] + 1];
      i := i + 1;
    }
    perm := FilledPass(s, pass, new'[..n], from);
  }

  lemma SameNone(s: seq<SymFreq>, pass: nat)
    ensures forall d: nat :: Same(s, pass, d, 0) == 0
  {
  }

  lemma SameStep(s: seq<SymFreq>, pass: nat, i: nat)
    requires i < |s|
    ensures forall d: nat :: Same(s, pass, d, i + 1) == Same(s, pass, d, i) + if Digit(s[i], pass) == d then 1 else 0
  {
  }

  lemma BelowNone(s: seq<SymFreq>, pass: nat)
    ensures Below(s, pass, 0) == 0
  {
  }

  lemma BelowNext(s: seq<SymFreq>, pass: nat, d: nat)
    ensures Below(s, pass, d + 1) == Below(s, pass, d) + Same(s, pass, d, |s|)
  {
  }

  method Offsets(hist: array<nat>, pass: nat, ghost s: seq<SymFreq>) returns (offsets: array<nat>)
    requires pass < 2 && hist.Length == 512
    requires forall d :: 0 <= d < 256 ==> hist[256 * pass + d] == Same(s, pass, d, |s|)
    ensures fresh(offsets) && offsets.Length == 256
    ensures forall d :: 0 <= d < 256 ==> offsets[d] == Below(s, pass, d)
  {
    hide Same, Below;
    BelowNone(s, pass);
    offsets := new nat[256];
    var curOfs := 0;
    var i := 0;
    while i < 256
      invariant i <= 256 && curOfs == Below(s, pass, i)
      invariant forall d :: 0 <= d < i ==> offsets[d] == Below(s, pass, d)
    {
      BelowNext(s, pass, i);
      offsets[i] := curOfs;
      curOfs := curOfs + hist[256 * pass + i];
      i := i + 1;
    }
  }

  ghost predicate Distinct(perm: seq<nat>) {
    forall p, q :: 0 <= p < q < |perm| ==> perm[p] != perm[q]
  }

  /** Distinct numbers below `k` are all of them. */
  lemma {:induction false} Onto(perm: seq<nat>, x: nat) returns (p: nat)
    requires Distinct(perm) && (forall i :: 0 <= i < |perm| ==> perm[i] < |perm|) && x < |perm|
    ensures p < |perm| && perm[p] == x
  {
    SetOfDistinct(perm, |perm|);
    var all := NatsBelow(|perm|);
    SubsetIsAll(Values(perm, |perm|), all);
    p := IndexOf(perm, |perm|, x);
  }

  ghost function Values(perm: seq<nat>, k: nat): (v: set<nat>)
    requires k <= |perm|
    ensures forall x :: x in v ==> x in perm
  {
    if k == 0 then {} else Values(perm, k - 1) + {perm[k - 1]}
  }

  lemma {:induction false} IndexOf(perm: seq<nat>, k: nat, x: nat) returns (p: nat)
    requires k <= |perm| && x in Values(perm, k)
    ensures p < k && perm[p] == x
  {
    if perm[k - 1] == x { p := k - 1; } else { p := IndexOf(perm, k - 1, x); }
  }

  lemma ValuesAre(perm: seq<nat>, k: nat)
    requires k <= |perm|
    ensures Values(perm, k) == if k == 0 then {} else Values(perm, k - 1) + {perm[k - 1]}
  {
  }

  lemma NewValue(perm: seq<nat>, k: nat)
    requires Distinct(perm) && k < |perm|
    ensures perm[k] !in Values(perm, k)
  {
    hide Values;
    if perm[k] in Values(perm, k) { var p := IndexOf(perm, k, perm[k]); }
  }

  lemma OneMore(v: set<nat>, x: nat)
    requires x !in v
    ensures |v + {x}| == |v| + 1
  {
  }

  lemma {:induction false} SetOfDistinct(perm: seq<nat>, k: nat)
    requires Distinct(perm) && k <= |perm|
    ensures |Values(perm, k)| == k
  {
    hide *;
    ValuesAre(perm, k);
    if k > 0 {
      SetOfDistinct(perm, k - 1);
      NewValue(perm, k - 1);
      OneMore(Values(perm, k - 1), perm[k - 1]);
    }
  }

  /** A rearrangement has the same items. */
  lemma {:induction false} SameItems<T>(s: seq<T>, out: seq<T>, perm: seq<nat>)
    requires |s| == |out| == |perm| && Distinct(perm)
    requires forall p :: 0 <= p < |perm| ==> perm[p] < |s| && out[p] == s[perm[p]]
    ensures multiset(out) == multiset(s)
  {
    if s != [] {
      var n := |s| - 1;
      var p := Onto(perm, n);
      SameItems(s[..n], RemoveAt(out, p), RemoveAt(perm, p));
      ItemRemoved(out, p);
      assert s == s[..n] + [s[n]];
    }
  }

  lemma ItemRemoved<T>(s: seq<T>, i: nat)
    requires i < |s|
    ensures multiset(s) == multiset(RemoveAt(s, i)) + multiset{s[i]}
  {
    assert s == s[..i] + [s[i]] + s[i + 1..];
  }

  /** Frequencies add up the same in any order. */
  function KeySum(s: seq<SymFreq>): nat {
    if s == [] then 0 else KeySum(s[..|s| - 1]) + s[|s| - 1].key
  }

  lemma {:induction false} TakeOut(s: seq<SymFreq>, i: nat)
    requires i < |s|
    ensures KeySum(s) == KeySum(RemoveAt(s, i)) + s[i].key
    ensures forall pass: nat, d: nat :: Same(s, pass, d, |s|)
              == Same(RemoveAt(s, i), pass, d, |s| - 1) + if Digit(s[i], pass) == d then 1 else 0
  {
    var n := |s| - 1;
    if i < n {
      TakeOut(s[..n], i);
      assert RemoveAt(s, i)[..n - 1] == RemoveAt(s[..n], i);
      forall pass: nat, d: nat ensures Same(s, pass, d, |s|)
              == Same(RemoveAt(s, i), pass, d, n) + if Digit(s[i], pass) == d then 1 else 0 {
        SamePrefix(s, pass, d, n);
        SamePrefix(RemoveAt(s, i), pass, d, n - 1);
      }
    } else {
      assert RemoveAt(s, i) == s[..n];
      forall pass: nat, d: nat ensures Same(s, pass, d, n) == Same(s[..n], pass, d, n) { SamePrefix(s, pass, d, n); }
    }
  }

  lemma {:induction false} SamePrefix(s: seq<SymFreq>, pass: nat, d: nat, k: nat)
    requires k <= |s|
    ensures Same(s, pass, d, k) == Same(s[..k], pass, d, k)
  {
    SamePrefixUpTo(s, s[..k], pass, d, k);
  }

  lemma {:induction false} SamePrefixUpTo(s: seq<SymFreq>, t: seq<SymFreq>, pass: nat, d: nat, k: nat)
    requires k <= |s| && k <= |t| && s[..k] == t[..k]
    ensures Same(s, pass, d, k) == Same(t, pass, d, k)
  {
    if k > 0 {
      assert s[k - 1] == s[..k][k - 1] == t[k - 1];
      assert s[..k - 1] == s[..k][..k - 1] == t[..k - 1];
      SamePrefixUpTo(s, t, pass, d, k - 1);
    }
  }

  lemma Removed(s: seq<SymFreq>, i: nat)
    requires i < |s|
    ensures |RemoveAt(s, i)| == |s| - 1 && multiset(RemoveAt(s, i)) == multiset(s) - multiset{s[i]}
  {
    assert s == s[..i] + [s[i]] + s[i + 1..];
  }

  lemma SameLength(s: seq<SymFreq>, t: seq<SymFreq>)
    requires multiset(s) == multiset(t)
    ensures |s| == |t|
  {
    assert |s| == |multiset(s)| == |multiset(t)| == |t|;
  }

  lemma FindEntry(s: seq<SymFreq>, t: seq<SymFreq>) returns (i: nat)
    requires multiset(s) == multiset(t) && s != []
    ensures i < |t| && t[i] == s[0]
  {
    assert s[0] in multiset(t);
    i :| 0 <= i < |t| && t[i] == s[0];
  }

  lemma {:induction false} SameTotals(s: seq<SymFreq>, t: seq<SymFreq>)
    requires multiset(s) == multiset(t)
    ensures |s| == |t| && KeySum(s) == KeySum(t)
    ensures forall pass: nat, d: nat :: Same(s, pass, d, |s|) == Same(t, pass, d, |t|)
    decreases |s|
  {
    hide *;
    SameLength(s, t);
    if s == [] {
      assert s == t;
    } else {
      var i := FindEntry(s, t);
      Removed(s, 0);
      Removed(t, i);
      var s', t' := RemoveAt(s, 0), RemoveAt(t, i);
      SameTotals(s', t');
      TakeOut(s, 0);
      TakeOut(t, i);
      forall pass: nat, d: nat ensures Same(s, pass, d, |s|) == Same(t, pass, d, |t|) {
        assert Same(s', pass, d, |s'|) == Same(t', pass, d, |t'|);
      }
    }
  }

  ghost predicate SortedKeys(s: seq<SymFreq>) {
    forall p, q :: 0 <= p < q < |s| ==> s[p].key <= s[q].key
  }

  lemma PassedItems(s: seq<SymFreq>, pass: nat, out: seq<SymFreq>, perm: seq<nat>)
    requires Passed(s, pass, out, perm)
    ensures multiset(out) == multiset(s)
  {
    SameItems(s, out, perm);
  }

  lemma {:induction false} AllZero(s: seq<SymFreq>, k: nat)
    requires k <= |s| && Same(s, 1, 0, k) == k
    ensures forall i :: 0 <= i < k ==> Digit(s[i], 1) == 0
  {
    if k > 0 { AllZero(s, k - 1); }
  }

  lemma LowByteOnly(x: SymFreq)
    requires Digit(x, 1) == 0 && x.key < 65536
    ensures Digit(x, 0) == x.key
  {
    assert x.key == 256 * (x.key / 256) + x.key % 256;
    assert x.key / 256 < 256;
  }

  /** Sorted by the low byte, with high bytes all zero. */
  lemma OnePass(s: seq<SymFreq>, out: seq<SymFreq>, perm: seq<nat>)
    requires Passed(s, 0, out, perm) && Same(s, 1, 0, |s|) == |s|
    requires forall i :: 0 <= i < |s| ==> s[i].key < 65536
    ensures SortedKeys(out)
  {
    hide Same, Digit;
    AllZero(s, |s|);
    forall p | 0 <= p < |s| ensures Digit(out[p], 0) == out[p].key {
      assert out[p] == s[perm[p]];
      LowByteOnly(s[perm[p]]);
    }
  }

  /** Sorting by the high byte keeps the low bytes in order where the high bytes agree. */
  lemma TwoPasses(s: seq<SymFreq>, mid: seq<SymFreq>, out: seq<SymFreq>, perm0: seq<nat>, perm1: seq<nat>)
    requires Passed(s, 0, mid, perm0) && Passed(mid, 1, out, perm1)
    requires forall i :: 0 <= i < |s| ==> s[i].key < 65536
    ensures SortedKeys(out)
  {
    forall p, q | 0 <= p < q < |s| ensures out[p].key <= out[q].key {
      var a, b := out[p].key, out[q].key;
      assert mid[perm1[p]] == s[perm0[perm1[p]]] && mid[perm1[q]] == s[perm0[perm1[q]]];
      assert a == 256 * (a / 256) + a % 256 && b == 256 * (b / 256) + b % 256;
    }
  }

  method Histogram(syms: array<SymFreq>, n: nat) returns (hist: array<nat>)
    requires n <= syms.Length
    ensures fresh(hist) && hist.Length == 512
    ensures forall pass, d :: 0 <= pass < 2 && 0 <= d < 256 ==> hist[256 * pass + d] == Same(syms[..n], pass, d, n)
  {
    hist := new nat[512](_ => 0);
    ghost var s := syms[..n];
    var i := 0;
    while i < n
      invariant i <= n
      invariant forall d: nat :: d < 256 ==> hist[d] == Same(s, 0, d, i) && hist[256 + d] == Same(s, 1, d, i)
    {
      var freq := syms[i].key;
      assert Digit(s[i], 0) == freq % 256 && Digit(s[i], 1) == freq / 256 % 256;
      SameStep(s, 0, i);
      SameStep(s, 1, i);
      hist[freq % 256] := hist[freq % 256] + 1;
      hist[256 + freq / 256 % 256] := hist[256 + freq / 256 % 256] + 1;
      i := i + 1;
    }
  }

  /** `out` is `s` in the order given by `perm`. */
  ghost predicate Rearranged(s: seq<SymFreq>, out: seq<SymFreq>, perm: seq<nat>) {
    && |s| == |out| == |perm| && Distinct(perm)
    && forall p :: 0 <= p < |perm| ==> perm[p] < |s| && out[p] == s[perm[p]]
  }

  lemma PassRearranges(s: seq<SymFreq>, pass: nat, out: seq<SymFreq>, perm: seq<nat>)
    requires Passed(s, pass, out, perm)
    ensures Rearranged(s, out, perm)
  {
  }

  lemma RearrangeTwice(s: seq<SymFreq>, mid: seq<SymFreq>, out: seq<SymFreq>, perm0: seq<nat>, perm1: seq<nat>)
    returns (perm: seq<nat>)
    requires Rearranged(s, mid, perm0) && Rearranged(mid, out, perm1)
    ensures Rearranged(s, out, perm)
  {
    perm := seq(|perm1|, p requires 0 <= p < |perm1| => perm0[perm1[p]]);
    forall p, q | 0 <= p < q < |perm| ensures perm[p] != perm[q] {
      if perm1[p] < perm1[q] { assert perm0[perm1[p]] != perm0[perm1[q]]; } else { assert perm0[perm1[q]] != perm0[perm1[p]]; }
    }
  }

  /** Sorts the first `n` items of `syms0` by key, using `syms1`, and returns the array that holds them. */
  method RadixSortSyms(n: nat, syms0: array<SymFreq>, syms1: array<SymFreq>) returns (sorted: array<SymFreq>, ghost perm: seq<nat>)
    requires syms0 != syms1 && n <= syms0.Length && n <= syms1.Length
    requires forall i :: 0 <= i < n ==> syms0[i].key < 65536
    modifies syms0, syms1
    ensures sorted == syms0 || sorted == syms1
    ensures SortedKeys(sorted[..n]) && Rearranged(old(syms0[..n]), sorted[..n], perm)
  {
    hide *;
    ghost var s := syms0[..n];
    assert |s| == n && forall i :: 0 <= i < |s| ==> s[i].key < 65536;
    var hist := Histogram(syms0, n);
    ghost var perm0 := Pass(syms0, syms1, n, 0, hist);
    PassRearranges(s, 0, syms1[..n], perm0);
    if n == hist[256] {
      assert hist[256 * 1 + 0] == Same(s, 1, 0, n);
      OnePass(s, syms1[..n], perm0);
      sorted, perm := syms1, perm0;
    } else {
      ghost var mid := syms1[..n];
      PassedItems(s, 0, mid, perm0);
      SameTotals(mid, s);
      ghost var perm1 := Pass(syms1, syms0, n, 1, hist);
      PassRearranges(mid, 1, syms0[..n], perm1);
      TwoPasses(s, mid, syms0[..n], perm0, perm1);
      sorted := syms0;
      perm := RearrangeTwice(s, mid, syms0[..n], perm0, perm1);
    }
  }

  lemma RearrangedSum(s: seq<SymFreq>, out: seq<SymFreq>, perm: seq<nat>)
    requires Rearranged(s, out, perm)
    ensures KeySum(out) == KeySum(s)
  {
    SameItems(s, out, perm);
    SameTotals(out, s);
  }
}
