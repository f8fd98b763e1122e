/** Code sizes and codes for one alphabet of a block: collect, sort, measure, limit, assign. */
module HuffmanTable {
  import opened Bits
  import opened WeightedLengths
  import opened CanonicalCode
  import opened RadixSort
  import opened CodeSizeLimit
  import CodeCost
  import HP = HuffmanPlan
  import MR = MinimumRedundancy
  import InflateTables

  lemma TimesInjective(a: nat, b: nat, h: real)
    requires h > 0.0 && Times(a, h) == Times(b, h)
    ensures a == b
  {
    var lo, hi := if a < b then a else b, if a < b then b else a;
    if lo < hi { TimesMonotone(lo + 1, hi, h); }
  }

  /** Lengths whose Kraft sum is one fill the room exactly. */
  lemma CompleteLengths(l: seq<nat>)
    requires Kraft(l) == 1.0 && Sized(l, 32)
    ensures Scaled(l, 32) == Pow2(32)
  {
    KraftIsScaled(l, 32);
    HalfTimes(32, 0);
    assert Half(0) == 1.0;
    hide Half, Pow2;
    TimesInjective(Scaled(l, 32), Pow2(32), Half(32));
  }

  /** The used symbols among the first `k`, in order. */
  ghost predicate Collected(freq: seq<nat>, s: seq<SymFreq>, k: nat) {
    && k <= |freq|
    && (forall p :: 0 <= p < |s| ==> s[p].symIndex < k && freq[s[p].symIndex] == s[p].key > 0)
    && (forall p, q :: 0 <= p < q < |s| ==> s[p].symIndex < s[q].symIndex)
    && (forall i :: 0 <= i < k && freq[i] > 0 ==> SymFreq(freq[i], i) in s)
  }

  method CollectSyms(freq: seq<nat>, syms0: array<SymFreq>) returns (n: nat)
    requires |freq| <= syms0.Length && forall i :: 0 <= i < |freq| ==> freq[i] < 65536
    modifies syms0
    ensures n <= |freq| && Collected(freq, syms0[..n], |freq|) && KeySum(syms0[..n]) == Sum(freq)
  {
    hide Collected, KeySum, Sum;
    NoneCollected(freq);
    assert syms0[..0] == [] && freq[..0] == [];
    n := 0;
    var i := 0;
    while i < |freq|
      invariant n <= i <= |freq| && Collected(freq, syms0[..n], i) && KeySum(syms0[..n]) == Sum(freq[..i])
    {
      ghost var s := syms0[..n];
      SumSnoc(freq, i);
      if freq[i] != 0 {
        syms0[n] := SymFreq(freq[i], i);
        assert syms0[..n + 1] == s + [SymFreq(freq[i], i)];
        CollectOne(freq, s, i);
        n := n + 1;
      } else {
        CollectNone(freq, s, i);
      }
      i := i + 1;
    }
    assert freq[..i] == freq;
  }

  lemma NoneCollected(freq: seq<nat>)
    ensures Collected(freq, [], 0) && KeySum([]) == 0 == Sum([])
  {
  }

  lemma SumSnoc(f: seq<nat>, i: nat)
    requires i < |f|
    ensures Sum(f[..i + 1]) == Sum(f[..i]) + f[i]
  {
    assert f[..i + 1] == f[..i] + [f[i]];
    SumConcat(f[..i], [f[i]]);
    assert Sum([f[i]]) == f[i] + Sum([]);
  }

  lemma CollectOne(freq: seq<nat>, s: seq<SymFreq>, i: nat)
    requires i < |freq| && freq[i] > 0 && Collected(freq, s, i)
    ensures Collected(freq, s + [SymFreq(freq[i], i)], i + 1)
    ensures KeySum(s + [SymFreq(freq[i], i)]) == KeySum(s) + freq[i]
  {
    assert (s + [SymFreq(freq[i], i)])[..|s|] == s;
  }

  lemma CollectNone(freq: seq<nat>, s: seq<SymFreq>, i: nat)
    requires i < |freq| && freq[i] == 0 && Collected(freq, s, i)
    ensures Collected(freq, s, i + 1)
  {
  }

  /** The used symbols in sorted order: each exactly once. */
  ghost predicate Ordered(freq: seq<nat>, s: seq<SymFreq>) {
    && (forall p :: 0 <= p < |s| ==> s[p].symIndex < |freq| && freq[s[p].symIndex] == s[p].key > 0)
    && (forall p, q :: 0 <= p < q < |s| ==> s[p].symIndex != s[q].symIndex)
    && (forall i :: 0 <= i < |freq| && freq[i] > 0 ==> SymFreq(freq[i], i) in s)
  }

  lemma SortedIsOrdered(freq: seq<nat>, s: seq<SymFreq>, out: seq<SymFreq>, perm: seq<nat>)
    requires Collected(freq, s, |freq|) && Rearranged(s, out, perm)
    ensures Ordered(freq, out)
  {
    forall p, q | 0 <= p < q < |out| ensures out[p].symIndex != out[q].symIndex {
      assert perm[p] != perm[q];
    }
    forall i | 0 <= i < |freq| && freq[i] > 0 ensures SymFreq(freq[i], i) in out {
      var x :| 0 <= x < |s| && s[x] == SymFreq(freq[i], i);
      var p := Onto(perm, x);
      assert out[p] == s[x];
    }
  }

  ghost function Keys(s: seq<SymFreq>): (k: seq<nat>)
    ensures |k| == |s| && forall i :: 0 <= i < |s| ==> k[i] == s[i].key
  {
    seq(|s|, i requires 0 <= i < |s| => s[i].key)
  }

  lemma {:induction false} KeysSum(s: seq<SymFreq>)
    ensures Sum(Keys(s)) == KeySum(s)
  {
    if s != [] {
      var n := |s| - 1;
      KeysSum(s[..n]);
      assert Keys(s) == Keys(s[..n]) + [s[n].key];
      SumConcat(Keys(s[..n]), [s[n].key]);
      assert Sum([s[n].key]) == s[n].key + Sum([]);
    }
  }

  /** The code lengths of the sorted symbols and how many there are of each. */
  method MeasureLengths(syms: array<SymFreq>, n: nat) returns (num: array<int>, ghost lens: seq<nat>)
    requires n <= syms.Length && SortedKeys(syms[..n]) && Sum(Keys(syms[..n])) < 65536
    requires forall i :: 0 <= i < n ==> syms[i].key >= 1
    ensures fresh(num) && num.Length == 33 && |lens| == n && Counted(lens, num[..], 32)
    ensures (forall i :: 0 <= i < n ==> 1 <= lens[i] <= 22) && Descending(lens)
    ensures n == 1 ==> lens == [1]
    ensures n >= 2 ==> MR.OptimalLengths(Keys(syms[..n]), lens) && MR.Rare(Keys(syms[..n]), lens)
  {
    hide *;
    var a := CopyKeys(syms, n);
    SortedAscend(syms[..n]);
    MR.CalculateMinimumRedundancy(a);
    lens := a[..];
    IsDescending(lens);
    num := CountLengths(a);
  }

  lemma IsDescending(l: seq<nat>)
    requires forall i, j :: 0 <= i <= j < |l| ==> l[i] >= l[j]
    ensures Descending(l)
  {
  }

  lemma SortedAscend(s: seq<SymFreq>)
    requires SortedKeys(s)
    ensures HP.Ascending(Keys(s))
  {
  }

  method CopyKeys(syms: array<SymFreq>, n: nat) returns (a: array<nat>)
    requires n <= syms.Length
    ensures fresh(a) && a[..] == Keys(syms[..n]) && a.Length == n
  {
    a := new nat[n];
    var i := 0;
    while i < n
      invariant i <= n && forall t :: 0 <= t < i ==> a[t] == syms[t].key
    {
      a[i] := syms[i].key;
      i := i + 1;
    }
  }

  lemma {:induction false} OccursSnoc(l: seq<nat>, x: nat, v: nat)
    ensures Occurs(l + [x], v) == Occurs(l, v) + if x == v then 1 else 0
  {
    if l == [] {
      assert l + [x] == [x];
      assert Occurs([x], v) == Occurs([], v) + if x == v then 1 else 0;
    } else {
      OccursSnoc(l[1..], x, v);
      assert (l + [x])[1..] == l[1..] + [x];
    }
  }

  method CountLengths(a: array<nat>) returns (num: array<int>)
    requires forall i :: 0 <= i < a.Length ==> a[i] <= 32
    ensures fresh(num) && num.Length == 33 && Counted(a[..], num[..], 32)
  {
    num := new int[33](_ => 0);
    var i := 0;
    while i < a.Length
      invariant i <= a.Length && forall v: nat :: v < 33 ==> num[v] == Occurs(a[..i], v)
    {
      assert a[..i + 1] == a[..i] + [a[i]];
      forall v: nat ensures Occurs(a[..i + 1], v) == Occurs(a[..i], v) + if a[i] == v then 1 else 0 {
        OccursSnoc(a[..i], a[i], v);
      }
      num[a[i]] := num[a[i]] + 1;
      i := i + 1;
    }
    assert a[..i] == a[..];
  }

  lemma {:induction false} CountUpdate(sizes: seq<nat>, len: nat, k: nat, t: nat, v: nat)
    requires k <= |sizes| && t < |sizes|
    ensures Count(sizes[t := v], len, k)
         == Count(sizes, len, k) as int + (if t < k && v == len then 1 else 0) - (if t < k && sizes[t] == len then 1 else 0)
  {
    if k > 0 { CountUpdate(sizes, len, k - 1, t, v); }
  }

  lemma {:induction false} UsedUpdate(sizes: seq<nat>, k: nat, t: nat, v: nat)
    requires k <= |sizes| && t < |sizes| && sizes[t] == 0 && v > 0
    ensures UsedCount(sizes[t := v], k) == UsedCount(sizes, k) + if t < k then 1 else 0
  {
    if k > 0 { UsedUpdate(sizes, k - 1, t, v); }
  }

  /** While sizes are handed out: symbols from `j` up have theirs, `l` symbols still get size `i`. */
  ghost predicate Handing(freq: seq<nat>, s: seq<SymFreq>, num: seq<int>, limit: nat, sizes: seq<nat>, j: nat, i: nat, l: int) {
    && Ordered(freq, s) && |sizes| == |freq| && j <= |s|
    && Counts(num) && 1 <= i <= limit <= 15 && 0 <= l <= num[i] && Codes(num, limit) - Codes(num, i) + l == j
    && (forall p :: 0 <= p < |s| ==> if p < j then sizes[s[p].symIndex] == 0 else 1 <= sizes[s[p].symIndex] <= i)
    && (forall t :: 0 <= t < |freq| && freq[t] == 0 ==> sizes[t] == 0)
    && (forall e: nat :: 1 <= e < i ==> Total(sizes, e) == num[e])
    && Total(sizes, i) == num[i] - l
    && (forall e: nat :: e > i ==> Total(sizes, e) == 0)
    && UsedCount(sizes, |sizes|) == |s| - j
  }

  lemma HandOne(freq: seq<nat>, s: seq<SymFreq>, num: seq<int>, limit: nat, sizes: seq<nat>, j: nat, i: nat, l: int)
    requires Handing(freq, s, num, limit, sizes, j, i, l) && l > 0
    ensures 0 < j <= |s| && s[j - 1].symIndex < |sizes|
    ensures Handing(freq, s, num, limit, sizes[s[j - 1].symIndex := i], j - 1, i, l - 1)
  {
    hide Codes, UsedCount, Count;
    CodesMonotone(num, i, limit);
    var t := s[j - 1].symIndex;
    forall p | 0 <= p < |s| && p != j - 1 ensures s[p].symIndex != t {
      assert if p < j - 1 then s[p].symIndex != s[j - 1].symIndex else s[j - 1].symIndex != s[p].symIndex;
    }
    forall e: nat ensures Total(sizes[t := i], e) == Total(sizes, e) as int + (if e == i then 1 else 0) - (if e == 0 then 1 else 0) {
      CountUpdate(sizes, e, |sizes|, t, i);
    }
    var handed := sizes[t := i];
    forall e: nat | e > i ensures Total(handed, e) == 0 {
      assert Total(sizes, e) == 0;
      CountUpdate(sizes, e, |sizes|, t, i);
    }
    UsedUpdate(sizes, |sizes|, t, i);
  }

  /** The symbols from `j` up have got the sizes meant for them. */
  ghost predicate Given(freq: seq<nat>, s: seq<SymFreq>, fin: seq<nat>, sizes: seq<nat>, j: nat) {
    && Ordered(freq, s) && |sizes| == |freq| && |fin| == |s|
    && forall p :: j <= p < |s| ==> sizes[s[p].symIndex] == fin[p]
  }

  lemma NoneGiven(freq: seq<nat>, s: seq<SymFreq>, fin: seq<nat>, sizes: seq<nat>)
    requires Ordered(freq, s) && |sizes| == |freq| && |fin| == |s|
    ensures Given(freq, s, fin, sizes, |s|)
  {
  }

  lemma GiveOne(freq: seq<nat>, s: seq<SymFreq>, fin: seq<nat>, sizes: seq<nat>, j: nat)
    requires Given(freq, s, fin, sizes, j) && 0 < j <= |s|
    ensures s[j - 1].symIndex < |sizes| && Given(freq, s, fin, sizes[s[j - 1].symIndex := fin[j - 1]], j - 1)
  {
  }

  /** The next symbol in line is meant to have the size that is being handed out. */
  lemma NextInLine(freq: seq<nat>, s: seq<SymFreq>, num: seq<int>, limit: nat, sizes: seq<nat>, j: nat, i: nat, l: int, fin: seq<nat>)
    requires Handing(freq, s, num, limit, sizes, j, i, l) && l > 0
    requires Counted(fin, num, limit) && Sized(fin, limit) && Descending(fin) && |fin| == |s|
    ensures 0 < j <= |s| && fin[j - 1] == i
  {
    hide Codes, UsedCount, Count, Total, Ordered, Occurs;
    CodesMonotone(num, i, limit);
    CodesAre(fin, num, limit, limit);
    CodesAre(fin, num, limit, i);
    CodesAre(fin, num, limit, i - 1);
    AllUpTo(fin, limit);
    UpToStep(fin, i);
    LastUpTo(fin, i, j - 1);
    LastUpTo(fin, i - 1, j - 1);
  }

  lemma HandNext(freq: seq<nat>, s: seq<SymFreq>, num: seq<int>, limit: nat, sizes: seq<nat>, j: nat, i: nat)
    requires Handing(freq, s, num, limit, sizes, j, i, 0) && i < limit
    ensures Handing(freq, s, num, limit, sizes, j, i + 1, num[i + 1])
  {
  }

  lemma {:induction false} NothingCounted(sizes: seq<nat>, k: nat)
    requires k <= |sizes| && forall t :: 0 <= t < k ==> sizes[t] == 0
    ensures UsedCount(sizes, k) == 0 && forall e: nat :: e >= 1 ==> Count(sizes, e, k) == 0
  {
    if k > 0 { NothingCounted(sizes, k - 1); }
  }

  lemma HandStart(freq: seq<nat>, s: seq<SymFreq>, num: seq<int>, limit: nat, sizes: seq<nat>)
    requires Ordered(freq, s) && |sizes| == |freq| && (forall t :: 0 <= t < |sizes| ==> sizes[t] == 0)
    requires Counts(num) && 1 <= limit <= 15 && Codes(num, limit) == |s|
    ensures Handing(freq, s, num, limit, sizes, |s|, 1, num[1])
  {
    NothingCounted(sizes, |sizes|);
    assert Codes(num, 1) == Codes(num, 0) + num[1];
  }

  /** Hands the limited code sizes out, the shortest to the most frequent symbols. */
  method HandOutSizes(ghost freq: seq<nat>, syms: array<SymFreq>, n: nat, num: array<int>, limit: nat, sizes: array<nat>, ghost fin: seq<nat>)
    requires n <= syms.Length && num.Length == 33 && sizes.Length == |freq| && Ordered(freq, syms[..n])
    requires Counts(num[..]) && 1 <= limit <= 15 && Codes(num[..], limit) == n
    requires Counted(fin, num[..], limit) && Sized(fin, limit) && Descending(fin) && |fin| == n
    requires forall t :: 0 <= t < sizes.Length ==> sizes[t] == 0
    modifies sizes
    ensures Handing(freq, syms[..n], num[..], limit, sizes[..], 0, limit, 0) && Given(freq, syms[..n], fin, sizes[..], 0)
  {
    hide *;
    ghost var s, c := syms[..n], num[..];
    HandStart(freq, s, c, limit, sizes[..]);
    NoneGiven(freq, s, fin, sizes[..]);
    var i: nat, j: nat := 1, n;
    while true
      invariant 1 <= i <= limit && Handing(freq, s, c, limit, sizes[..], j, i, num[i]) && Given(freq, s, fin, sizes[..], j)
      decreases limit - i
    {
      var l := num[i];
      while l > 0
        invariant Handing(freq, s, c, limit, sizes[..], j, i, l) && Given(freq, s, fin, sizes[..], j)
      {
        HandOne(freq, s, c, limit, sizes[..], j, i, l);
        NextInLine(freq, s, c, limit, sizes[..], j, i, l, fin);
        GiveOne(freq, s, fin, sizes[..], j);
        ghost var before := sizes[..];
        j := j - 1;
        sizes[syms[j].symIndex] := i;
        assert sizes[..] == before[s[j].symIndex := i];
        l := l - 1;
      }
      HandingLeft(freq, s, c, limit, sizes[..], j, i, l);
      if i == limit {
        HandedOut(freq, s, c, limit, sizes[..], j);
        return;
      }
      HandNext(freq, s, c, limit, sizes[..], j, i);
      i := i + 1;
    }
  }

  lemma HandingLeft(freq: seq<nat>, s: seq<SymFreq>, num: seq<int>, limit: nat, sizes: seq<nat>, j: nat, i: nat, l: int)
    requires Handing(freq, s, num, limit, sizes, j, i, l) && l <= 0
    ensures l == 0
  {
  }

  lemma HandedOut(freq: seq<nat>, s: seq<SymFreq>, num: seq<int>, limit: nat, sizes: seq<nat>, j: nat)
    requires Handing(freq, s, num, limit, sizes, j, limit, 0)
    ensures j == 0
  {
  }

  /** Sizes with the counts of a complete code make a complete code. */
  lemma {:induction false} FirstIsRoom(sizes: seq<nat>, num: seq<int>, limit: nat, l: nat)
    requires |num| == 33 && 1 <= l <= limit <= 32 && forall e: nat :: 1 <= e <= limit ==> Total(sizes, e) == num[e]
    ensures First(sizes, l + 1) == 2 * Room(num, l, l)
  {
    hide Count;
    assert Pow2(0) == 1;
    assert First(sizes, l + 1) == 2 * (First(sizes, l) + Total(sizes, l));
    if l > 1 {
      FirstIsRoom(sizes, num, limit, l - 1);
      RoomScaled(num, l - 1, 1, l - 1);
      assert Pow2(1) == 2;
    } else {
      assert First(sizes, 1) == 0;
      assert Room(num, 1, 0) == 0;
    }
  }

  lemma {:induction false} FirstBeyond(sizes: seq<nat>, limit: nat, l: nat)
    requires 1 <= limit <= l && First(sizes, limit + 1) == Pow2(limit + 1)
    requires forall e: nat :: e > limit ==> Total(sizes, e) == 0
    ensures First(sizes, l + 1) == Pow2(l + 1)
    decreases l
  {
    if l > limit {
      FirstBeyond(sizes, limit, l - 1);
      hide Count;
      assert First(sizes, l + 1) == 2 * (First(sizes, l) + Total(sizes, l));
    }
  }

  /** What the table says about which symbols it codes. */
  ghost predicate CodesUsed(freq: seq<nat>, sizes: seq<nat>, limit: nat) {
    && |sizes| == |freq|
    && (forall t :: 0 <= t < |freq| ==> sizes[t] <= limit && (sizes[t] > 0 <==> freq[t] > 0))
  }

  lemma HandedAccepted(freq: seq<nat>, s: seq<SymFreq>, num: seq<int>, limit: nat, sizes: seq<nat>)
    requires Handing(freq, s, num, limit, sizes, 0, limit, 0)
    requires |s| >= 2 ==> Room(num, limit, limit) == Pow2(limit)
    ensures CodesUsed(freq, sizes, limit) && Accepted(sizes)
    ensures UsedCount(sizes, |sizes|) >= 2 ==> Complete(sizes)
  {
    forall t | 0 <= t < |freq| ensures sizes[t] <= limit && (sizes[t] > 0 <==> freq[t] > 0) {
      if freq[t] > 0 {
        var p :| 0 <= p < |s| && s[p] == SymFreq(freq[t], t);
      }
    }
    if |s| >= 2 { HandedComplete(freq, s, num, limit, sizes); }
  }

  lemma HandedComplete(freq: seq<nat>, s: seq<SymFreq>, num: seq<int>, limit: nat, sizes: seq<nat>)
    requires Handing(freq, s, num, limit, sizes, 0, limit, 0)
    requires Room(num, limit, limit) == Pow2(limit)
    ensures First(sizes, 16) == 65536
  {
    FirstIsRoom(sizes, num, limit, limit);
    FirstBeyond(sizes, limit, 15);
    Pow2Sixteen();
  }

  /** `next_code[i] = j = ((j + num_codes[i - 1]) << 1)`: the first code of every size. */
  method FirstCodes(ghost sizes: seq<nat>, num: array<int>, limit: nat) returns (nextCode: array<nat>)
    requires num.Length == 33 && 1 <= limit <= 15 && forall e: nat :: 1 <= e <= limit ==> Total(sizes, e) == num[e]
    ensures fresh(nextCode) && nextCode.Length == 33 && forall l :: 1 <= l <= limit ==> nextCode[l] == First(sizes, l)
  {
    hide Count, First, Total;
    nextCode := new nat[33](_ => 0);
    FirstOne(sizes);
    var j, i := 0, 2;
    while i <= limit
      invariant 2 <= i <= limit + 1 && j == First(sizes, i - 1)
      invariant forall l :: 1 <= l < i ==> nextCode[l] == First(sizes, l)
    {
      FirstNext(sizes, i);
      j := 2 * (j + num[i - 1]);
      nextCode[i] := j;
      i := i + 1;
    }
  }

  lemma FirstOne(sizes: seq<nat>)
    ensures First(sizes, 1) == 0
  {
  }

  lemma FirstNext(sizes: seq<nat>, i: nat)
    requires i >= 2
    ensures First(sizes, i) == 2 * (First(sizes, i - 1) + Total(sizes, i - 1))
  {
  }

  /** The codes are the canonical code words, lowest bit first. */
  ghost predicate CanonicalCodes(sizes: seq<nat>, codes: seq<nat>) {
    |codes| == |sizes| && forall s: nat :: Used(sizes, s) ==> codes[s] == ToNat(Code(sizes, s))
  }

  /** Numbers the symbols of each size in order and reverses each code for sending. */
  method AssignCodes(sizes: array<nat>, nextCode: array<nat>, limit: nat) returns (codes: array<nat>)
    requires nextCode.Length == 33 && sizes != nextCode && 1 <= limit <= 15
    requires forall t :: 0 <= t < sizes.Length ==> sizes[t] <= limit
    requires forall l :: 1 <= l <= limit ==> nextCode[l] == First(sizes[..], l)
    modifies nextCode
    ensures fresh(codes) && CanonicalCodes(sizes[..], codes[..])
  {
    hide *;
    codes := new nat[sizes.Length](_ => 0);
    ghost var z := sizes[..];
    NoneAssigned(z, codes[..], nextCode[..], limit);
    var i := 0;
    while i < sizes.Length
      invariant i <= sizes.Length && sizes[..] == z && Assigned(z, codes[..], nextCode[..], limit, i)
    {
      var codeSize := sizes[i];
      ghost var c, nc := codes[..], nextCode[..];
      AssignedOne(z, c, nc, limit, i);
      if codeSize != 0 {
        var code := nextCode[codeSize];
        nextCode[codeSize] := nextCode[codeSize] + 1;
        codes[i] := InflateTables.ReverseCode(code, codeSize);
        assert codes[..] == c[i := codes[i]] && nextCode[..] == nc[codeSize := nc[codeSize] + 1];
      }
      i := i + 1;
    }
    AllAssigned(z, codes[..], nextCode[..], limit);
  }

  ghost predicate Assigned(z: seq<nat>, codes: seq<nat>, nextCode: seq<nat>, limit: nat, i: nat) {
    && i <= |z| == |codes| && |nextCode| == 33 && 1 <= limit <= 15
    && (forall t :: 0 <= t < |z| ==> z[t] <= limit)
    && (forall l :: 1 <= l <= limit ==> nextCode[l] == First(z, l) + Count(z, l, i))
    && (forall s: nat :: s < i && Used(z, s) ==> codes[s] == ToNat(Code(z, s)))
  }

  lemma NoneAssigned(z: seq<nat>, codes: seq<nat>, nextCode: seq<nat>, limit: nat)
    requires |codes| == |z| && |nextCode| == 33 && 1 <= limit <= 15
    requires forall t :: 0 <= t < |z| ==> z[t] <= limit
    requires forall l :: 1 <= l <= limit ==> nextCode[l] == First(z, l)
    ensures Assigned(z, codes, nextCode, limit, 0)
  {
  }

  lemma AssignedOne(z: seq<nat>, codes: seq<nat>, nextCode: seq<nat>, limit: nat, i: nat)
    requires Assigned(z, codes, nextCode, limit, i) && i < |z|
    ensures z[i] < 33
    ensures z[i] == 0 ==> Assigned(z, codes, nextCode, limit, i + 1)
    ensures z[i] != 0 ==> Assigned(z, codes[i := ToNat(MsbBits(nextCode[z[i]], z[i]))],
                                   nextCode[z[i] := nextCode[z[i]] + 1], limit, i + 1)
  {
    hide First, ToNat, Code;
    CountNext(z, i);
    CodeIs(z, i);
  }

  lemma AllAssigned(z: seq<nat>, codes: seq<nat>, nextCode: seq<nat>, limit: nat)
    requires Assigned(z, codes, nextCode, limit, |z|)
    ensures CanonicalCodes(z, codes)
  {
  }

  lemma CountNext(z: seq<nat>, i: nat)
    requires i < |z|
    ensures forall l: nat :: Count(z, l, i + 1) == Count(z, l, i) + if z[i] == l then 1 else 0
  {
  }

  lemma CodeIs(z: seq<nat>, i: nat)
    requires i < |z|
    ensures Code(z, i) == MsbBits(First(z, z[i]) + Count(z, z[i], i), z[i])
  {
  }

  lemma {:induction false} WeightUpdate(w: seq<nat>, l: seq<nat>, i: nat, x: nat)
    requires |w| == |l| && i < |w|
    ensures Cost(w[i := x], l) == Cost(w, l) - w[i] * l[i] + x * l[i]
  {
    var w' := w[i := x];
    if i == 0 { assert w'[1..] == w[1..]; } else {
      WeightUpdate(w[1..], l[1..], i - 1, x);
      assert w'[1..] == w[1..][i - 1 := x];
    }
  }

  /** The lengths that `z` gives to the sorted symbols. */
  ghost function Picked(z: seq<nat>, s: seq<SymFreq>): (l: seq<nat>)
    requires forall p :: 0 <= p < |s| ==> s[p].symIndex < |z|
    ensures |l| == |s| && forall p :: 0 <= p < |s| ==> l[p] == z[s[p].symIndex]
  {
    seq(|s|, p requires 0 <= p < |s| => z[s[p].symIndex])
  }

  lemma {:induction false} NoCost(w: seq<nat>, l: seq<nat>)
    requires |w| == |l| && forall i :: 0 <= i < |w| ==> w[i] == 0
    ensures Cost(w, l) == 0
  {
    if w != [] { NoCost(w[1..], l[1..]); }
  }

  lemma WithoutLast(freq: seq<nat>, s: seq<SymFreq>)
    requires Ordered(freq, s) && s != []
    ensures var n := |s| - 1; s[n].symIndex < |freq| && freq[s[n].symIndex] == s[n].key && Ordered(freq[s[n].symIndex := 0], s[..n])
  {
    var n := |s| - 1;
    var t := s[n].symIndex;
    forall i | 0 <= i < |freq| && freq[t := 0][i] > 0 ensures SymFreq(freq[i], i) in s[..n] {
      var p :| 0 <= p < |s| && s[p] == SymFreq(freq[i], i);
      assert s[..n][p] == SymFreq(freq[i], i);
    }
  }

  lemma NoSymbols(freq: seq<nat>)
    requires Ordered(freq, [])
    ensures forall i :: 0 <= i < |freq| ==> freq[i] == 0
  {
  }

  lemma PickedRange(freq: seq<nat>, s: seq<SymFreq>)
    requires Ordered(freq, s)
    ensures forall p :: 0 <= p < |s| ==> s[p].symIndex < |freq|
  {
  }

  /** Counted over the alphabet or over the sorted symbols, the cost is the same. */
  lemma {:induction false} CostPicked(freq: seq<nat>, s: seq<SymFreq>, z: seq<nat>)
    requires Ordered(freq, s) && |z| == |freq|
    ensures (forall p :: 0 <= p < |s| ==> s[p].symIndex < |z|) && Cost(freq, z) == Cost(Keys(s), Picked(z, s))
    decreases |s|
  {
    hide Ordered, Cost;
    PickedRange(freq, s);
    if s == [] {
      NoSymbols(freq);
      NoCost(freq, z);
      NoCost(Keys(s), Picked(z, s));
    } else {
      var n := |s| - 1;
      WithoutLast(freq, s);
      CostPicked(freq[s[n].symIndex := 0], s[..n], z);
      WeightUpdate(freq, z, s[n].symIndex, 0);
      assert Keys(s) == Keys(s[..n]) + [s[n].key] && Picked(z, s) == Picked(z, s[..n]) + [z[s[n].symIndex]];
      CostConcat(Keys(s[..n]), [s[n].key], Picked(z, s[..n]), [z[s[n].symIndex]]);
      CostOne(s[n].key, z[s[n].symIndex]);
    }
  }

  lemma CostOne(w: nat, l: nat)
    ensures Cost([w], [l]) == w * l && 0 * l == 0
  {
    assert Cost([w], [l]) == w * l + Cost([], []);
  }

  /** The Kraft sum of the symbols in use. */
  ghost function KraftOf(freq: seq<nat>, z: seq<nat>): real
    requires |z| == |freq|
  {
    if z == [] then 0.0 else (if freq[0] > 0 then Half(z[0]) else 0.0) + KraftOf(freq[1..], z[1..])
  }

  lemma {:induction false} KraftAtMost(freq: seq<nat>, z: seq<nat>)
    requires |z| == |freq|
    ensures KraftOf(freq, z) <= Kraft(z)
  {
    if z != [] { KraftAtMost(freq[1..], z[1..]); }
  }

  lemma {:induction false} KraftDrop(freq: seq<nat>, z: seq<nat>, i: nat)
    requires |z| == |freq| && i < |z| && freq[i] > 0
    ensures KraftOf(freq, z) == KraftOf(freq[i := 0], z) + Half(z[i])
  {
    var f' := freq[i := 0];
    if i == 0 { assert f'[1..] == freq[1..]; } else {
      KraftDrop(freq[1..], z[1..], i - 1);
      assert f'[1..] == freq[1..][i - 1 := 0];
    }
  }

  lemma {:induction false} NoKraft(freq: seq<nat>, z: seq<nat>)
    requires |z| == |freq| && forall i :: 0 <= i < |freq| ==> freq[i] == 0
    ensures KraftOf(freq, z) == 0.0
  {
    if z != [] { NoKraft(freq[1..], z[1..]); }
  }

  lemma {:induction false} KraftPicked(freq: seq<nat>, s: seq<SymFreq>, z: seq<nat>)
    requires Ordered(freq, s) && |z| == |freq|
    ensures (forall p :: 0 <= p < |s| ==> s[p].symIndex < |z|) && KraftOf(freq, z) == Kraft(Picked(z, s))
    decreases |s|
  {
    hide KraftOf, Half;
    if s == [] {
      NoSymbols(freq);
      NoKraft(freq, z);
    } else {
      var n := |s| - 1;
      PickedRange(freq, s);
      WithoutLast(freq, s);
      KraftPicked(freq[s[n].symIndex := 0], s[..n], z);
      KraftDrop(freq, z, s[n].symIndex);
      assert Picked(z, s) == Picked(z, s[..n]) + [z[s[n].symIndex]];
      KraftConcat(Picked(z, s[..n]), [z[s[n].symIndex]]);
      assert Kraft([z[s[n].symIndex]]) == Half(z[s[n].symIndex]) + Kraft([]);
    }
  }

  /** With the limit of fifteen bits, the sizes cost at most `n` parts in 270 of the symbols more
      than any sizes that satisfy Kraft's inequality. */
  ghost predicate NearBest(freq: seq<nat>, sizes: seq<nat>) {
    |sizes| == |freq| && forall other: seq<nat> :: Rival(freq, other) ==> Near(freq, sizes, other)
  }

  ghost predicate Rival(freq: seq<nat>, other: seq<nat>) {
    |other| == |freq| && Kraft(other) <= 1.0 && forall i :: 0 <= i < |other| ==> other[i] >= 1
  }

  ghost predicate Near(freq: seq<nat>, sizes: seq<nat>, other: seq<nat>)
    requires |sizes| == |freq| == |other|
  {
    270 * Cost(freq, sizes) <= 270 * Cost(freq, other) + |freq| * Sum(freq)
  }

  /** No sizes that satisfy Kraft's inequality cost less. */
  ghost predicate Best(freq: seq<nat>, sizes: seq<nat>) {
    |sizes| == |freq| && forall other: seq<nat> :: Rival(freq, other) ==> NoMore(freq, sizes, other)
  }

  ghost predicate NoMore(freq: seq<nat>, sizes: seq<nat>, other: seq<nat>)
    requires |sizes| == |freq| == |other|
  {
    Cost(freq, sizes) <= Cost(freq, other)
  }

  /** With so little weight, no optimal code is longer than the limit. */
  lemma Shallow(keys: seq<nat>, lens: seq<nat>, limit: nat)
    requires MR.Rare(keys, lens) && Sum(keys) < HP.Fib(limit + 2) && forall i :: 0 <= i < |lens| ==> lens[i] >= 1
    requires forall i :: 0 <= i < |keys| ==> keys[i] >= 1
    ensures Sized(lens, limit)
  {
    hide Sum, HP.Fib;
    forall i | 0 <= i < |lens| ensures lens[i] <= limit {
      if lens[i] > limit {
        HP.FibMonotone(limit + 2, lens[i] + 1);
        MulMonotone(HP.Fib(lens[i] + 1), 1, keys[i]);
      }
    }
  }

  /** Sizes that are the optimal lengths are the best. */
  lemma HandedBest(freq: seq<nat>, s: seq<SymFreq>, lens: seq<nat>, sizes: seq<nat>)
    requires Given(freq, s, lens, sizes, 0) && (|s| >= 2 ==> MR.OptimalLengths(Keys(s), lens)) && (|s| == 1 ==> lens == [1])
    ensures Best(freq, sizes)
  {
    hide *;
    GivenPicked(freq, s, lens, sizes);
    CostPicked(freq, s, sizes);
    forall other: seq<nat> | Rival(freq, other) ensures |other| == |freq| && NoMore(freq, sizes, other) {
      BestOne(freq, s, lens, sizes, other);
    }
    IsBest(freq, sizes);
  }

  lemma IsBest(freq: seq<nat>, sizes: seq<nat>)
    requires |sizes| == |freq| && forall other: seq<nat> :: Rival(freq, other) ==> |other| == |freq| && NoMore(freq, sizes, other)
    ensures Best(freq, sizes)
  {
  }

  lemma BestOne(freq: seq<nat>, s: seq<SymFreq>, lens: seq<nat>, sizes: seq<nat>, other: seq<nat>)
    requires Ordered(freq, s) && |lens| == |s| && (|s| >= 2 ==> MR.OptimalLengths(Keys(s), lens)) && (|s| == 1 ==> lens == [1])
    requires |sizes| == |freq| && Rival(freq, other) && Cost(freq, sizes) == Cost(Keys(s), lens)
    ensures |other| == |freq| && NoMore(freq, sizes, other)
  {
    hide Ordered, Cost, Kraft, Sum, KraftOf, Sized;
    CostPicked(freq, s, other);
    KraftPicked(freq, s, other);
    KraftAtMost(freq, other);
    if |s| < 2 { FewNear(Keys(s), lens, Picked(other, s)); }
  }

  lemma GivenPicked(freq: seq<nat>, s: seq<SymFreq>, fin: seq<nat>, sizes: seq<nat>)
    requires Given(freq, s, fin, sizes, 0)
    ensures Ordered(freq, s) && |sizes| == |freq| && |fin| == |s|
    ensures (forall p :: 0 <= p < |s| ==> s[p].symIndex < |sizes|) && Picked(sizes, s) == fin
  {
  }

  /** A lone symbol's code of one bit, or no code at all, is as short as any. */
  lemma FewNear(keys: seq<nat>, fin: seq<nat>, l: seq<nat>)
    requires |keys| == |fin| == |l| && (keys == [] || (|keys| == 1 && fin == [1] && l[0] >= 1))
    ensures Cost(keys, fin) <= Cost(keys, l)
  {
    if |keys| == 1 {
      assert keys == [keys[0]] && l == [l[0]];
      CostOne(keys[0], 1);
      CostOne(keys[0], l[0]);
      MulMonotone(keys[0], 1, l[0]);
    }
  }

  ghost predicate Measured(keys: seq<nat>, lens: seq<nat>, fin: seq<nat>, light: nat) {
    && |lens| == |fin| == |keys|
    && (|keys| <= 1 ==> fin == lens) && (|keys| == 1 ==> lens == [1])
    && (|keys| >= 2 ==> Sized(lens, 32) && MR.OptimalLengths(keys, lens) && MR.Rare(keys, lens) && Limited(lens, fin, 15, light))
  }

  lemma HandedNear(freq: seq<nat>, s: seq<SymFreq>, lens: seq<nat>, fin: seq<nat>, light: nat, sizes: seq<nat>)
    requires Given(freq, s, fin, sizes, 0) && Measured(Keys(s), lens, fin, light) && |s| <= |freq| && Sum(Keys(s)) == Sum(freq)
    ensures NearBest(freq, sizes)
  {
    hide *;
    GivenPicked(freq, s, fin, sizes);
    CostPicked(freq, s, sizes);
    forall other: seq<nat> | Rival(freq, other) ensures |other| == |freq| && Near(freq, sizes, other) {
      NearOne(freq, s, lens, fin, light, sizes, other);
    }
    IsNearBest(freq, sizes);
  }

  lemma IsNearBest(freq: seq<nat>, sizes: seq<nat>)
    requires |sizes| == |freq| && forall other: seq<nat> :: Rival(freq, other) ==> |other| == |freq| && Near(freq, sizes, other)
    ensures NearBest(freq, sizes)
  {
  }

  lemma NearOne(freq: seq<nat>, s: seq<SymFreq>, lens: seq<nat>, fin: seq<nat>, light: nat, sizes: seq<nat>, other: seq<nat>)
    requires Ordered(freq, s) && Measured(Keys(s), lens, fin, light) && |s| <= |freq| && Sum(Keys(s)) == Sum(freq)
    requires |sizes| == |freq| && Rival(freq, other) && |fin| == |s| && Cost(freq, sizes) == Cost(Keys(s), fin)
    ensures |other| == |freq| && Near(freq, sizes, other)
  {
    hide Ordered, MR.OptimalLengths, MR.Rare, Limited, Cost, Kraft, Sum, KraftOf, Sized;
    CostPicked(freq, s, other);
    KraftPicked(freq, s, other);
    KraftAtMost(freq, other);
    if |s| >= 2 {
      CodeCost.LimitedCost(Keys(s), lens, fin, light, Picked(other, s));
      MulMonotone(Sum(freq), |s|, |freq|);
    } else {
      FewNear(Keys(s), fin, Picked(other, s));
      MulMonotone(Sum(freq), 0, |freq|);
    }
  }

  /** Collects the used symbols and sorts them by frequency. */
  method SortedSyms(freq: seq<nat>) returns (syms: array<SymFreq>, n: nat)
    requires Sum(freq) < 65536
    ensures fresh(syms) && n <= |freq| && n <= syms.Length
    ensures Ordered(freq, syms[..n]) && SortedKeys(syms[..n]) && Sum(Keys(syms[..n])) == Sum(freq)
    ensures forall i :: 0 <= i < n ==> syms[i].key >= 1
  {
    hide *;
    EachBelowSum(freq);
    var syms0 := new SymFreq[|freq|](_ => SymFreq(0, 0));
    var syms1 := new SymFreq[|freq|](_ => SymFreq(0, 0));
    n := CollectSyms(freq, syms0);
    ghost var collected := syms0[..n];
    CollectedKeys(freq, collected);
    ghost var perm;
    syms, perm := RadixSortSyms(n, syms0, syms1);
    SortedIsOrdered(freq, collected, syms[..n], perm);
    RearrangedSum(collected, syms[..n], perm);
    KeysSum(syms[..n]);
    OrderedKeys(freq, syms[..n]);
  }

  /** Measures the sorted symbols' code lengths, limits them, and hands them out. */
  method FindSizes(freq: seq<nat>, syms: array<SymFreq>, n: nat, limit: nat) returns (sizes: array<nat>, num: array<int>)
    requires 1 <= limit <= 15 && n <= |freq| <= Pow2(limit) && n <= syms.Length && Sum(freq) < 65536
    requires Ordered(freq, syms[..n]) && SortedKeys(syms[..n]) && Sum(Keys(syms[..n])) == Sum(freq)
    requires forall i :: 0 <= i < n ==> syms[i].key >= 1
    ensures fresh(sizes) && fresh(num) && sizes.Length == |freq| && num.Length == 33
    ensures Handing(freq, syms[..n], num[..], limit, sizes[..], 0, limit, 0)
    ensures n >= 2 ==> Room(num[..], limit, limit) == Pow2(limit)
    ensures limit == 15 ==> NearBest(freq, sizes[..])
    ensures Sum(freq) < HP.Fib(limit + 2) ==> Best(freq, sizes[..])
  {
    hide *;
    ghost var s := syms[..n];
    ghost var lens, fin, light;
    num, lens := MeasureLengths(syms, n);
    LengthsComplete(s, lens);
    fin, light := EnforceMaxCodeSize(num, n, limit, lens);
    FewCodes(num[..], n, limit, lens, fin, light);
    sizes := new nat[|freq|](_ => 0);
    HandOutSizes(freq, syms, n, num, limit, sizes, fin);
    if limit == 15 {
      IsMeasured(Keys(s), lens, fin, light);
      HandedNear(freq, s, lens, fin, light, sizes[..]);
    }
    if Sum(freq) < HP.Fib(limit + 2) {
      KeysPositive(s);
      if n >= 2 { Shallow(Keys(s), lens, limit); }
      HandedBest(freq, s, lens, sizes[..]);
    }
  }

  lemma KeysPositive(s: seq<SymFreq>)
    requires forall i :: 0 <= i < |s| ==> s[i].key >= 1
    ensures |Keys(s)| == |s| && forall i :: 0 <= i < |s| ==> Keys(s)[i] >= 1
  {
  }

  /** Builds the code of an alphabet from its symbol frequencies. */
  method OptimizeTable(freq: seq<nat>, limit: nat) returns (sizes: array<nat>, codes: array<nat>)
    requires 1 <= limit <= 15 && |freq| <= Pow2(limit) && Sum(freq) < 65536
    ensures fresh(sizes) && fresh(codes)
    ensures CodesUsed(freq, sizes[..], limit) && Accepted(sizes[..])
    ensures UsedCount(sizes[..], |sizes[..]|) >= 2 ==> Complete(sizes[..])
    ensures CanonicalCodes(sizes[..], codes[..])
    ensures limit == 15 ==> NearBest(freq, sizes[..])
    ensures Sum(freq) < HP.Fib(limit + 2) ==> Best(freq, sizes[..])
  {
    hide *;
    var syms, n := SortedSyms(freq);
    var num;
    sizes, num := FindSizes(freq, syms, n, limit);
    HandedAccepted(freq, syms[..n], num[..], limit, sizes[..]);
    HandedTotals(freq, syms[..n], num[..], limit, sizes[..]);
    var nextCode := FirstCodes(sizes[..], num, limit);
    codes := AssignCodes(sizes, nextCode, limit);
  }

  lemma IsMeasured(keys: seq<nat>, lens: seq<nat>, fin: seq<nat>, light: nat)
    requires |lens| == |fin| == |keys| && (|keys| <= 1 ==> fin == lens) && (|keys| == 1 ==> lens == [1]) && Sized(lens, 32)
    requires |keys| >= 2 ==> MR.OptimalLengths(keys, lens) && MR.Rare(keys, lens) && Limited(lens, fin, 15, light)
    ensures Measured(keys, lens, fin, light)
  {
  }

  lemma {:induction false} EachBelowSum(freq: seq<nat>)
    ensures forall i :: 0 <= i < |freq| ==> freq[i] <= Sum(freq)
  {
    if freq != [] { EachBelowSum(freq[1..]); }
  }

  lemma CollectedKeys(freq: seq<nat>, s: seq<SymFreq>)
    requires Collected(freq, s, |freq|)
    ensures forall i :: 0 <= i < |s| ==> s[i].symIndex < |freq| && s[i].key == freq[s[i].symIndex]
  {
  }

  lemma OrderedKeys(freq: seq<nat>, s: seq<SymFreq>)
    requires Ordered(freq, s)
    ensures forall i :: 0 <= i < |s| ==> s[i].key >= 1
  {
  }

  lemma LengthsComplete(s: seq<SymFreq>, lens: seq<nat>)
    requires |lens| == |s| && forall i :: 0 <= i < |lens| ==> 1 <= lens[i] <= 22
    requires |s| >= 2 ==> MR.OptimalLengths(Keys(s), lens)
    ensures Sized(lens, 32) && (|s| >= 2 ==> Scaled(lens, 32) == Pow2(32))
  {
    hide Scaled, Pow2, Kraft, Cost;
    if |s| >= 2 { CompleteLengths(lens); }
  }

  /** A lone symbol has size one, which every limit allows. */
  lemma FewCodes(num: seq<int>, n: nat, limit: nat, lens: seq<nat>, fin: seq<nat>, light: nat)
    requires 1 <= limit <= 15 && |lens| == n
    requires n <= 1 ==> Counted(lens, num, 32) && fin == lens && (n == 1 ==> lens == [1])
    requires n > 1 ==> Counts(num) && Codes(num, limit) == n && Counted(fin, num, limit) && Limited(lens, fin, limit, light)
    ensures Counts(num) && Codes(num, limit) == n
    ensures Counted(fin, num, limit) && Sized(fin, limit) && Descending(fin) && |fin| == n
  {
    hide Scaled, Codes, Pow2;
    if n <= 1 {
      CountsOf(lens, num);
      CountedRoom(lens, num, limit);
    }
  }

  lemma HandedTotals(freq: seq<nat>, s: seq<SymFreq>, num: seq<int>, limit: nat, sizes: seq<nat>)
    requires Handing(freq, s, num, limit, sizes, 0, limit, 0)
    ensures |sizes| == |freq| && forall e: nat :: 1 <= e <= limit ==> Total(sizes, e) == num[e]
    ensures forall t :: 0 <= t < |sizes| ==> sizes[t] <= limit
  {
    hide Count, Codes;
    forall t | 0 <= t < |freq| ensures sizes[t] <= limit {
      if freq[t] > 0 {
        var p :| 0 <= p < |s| && s[p] == SymFreq(freq[t], t);
      }
    }
  }
}
