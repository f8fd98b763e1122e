/** The bit-level reading of a dynamic block's header gives back the code sizes that were sent. */
module HeaderMeaning {
  import opened Bits
  import opened CanonicalCode
  import opened CodeSizeRle
  import opened BlockHeader
  import opened InflateSpec

  /** The code word at the front is the symbol read. */
  lemma SymbolNext(z: Sizes, s: nat, rest: BitString)
    requires Accepted(z) && Used(z, s)
    ensures ReadSymbol(z, Code(z, s) + rest) == Parsed(s, rest)
  {
    hide Code, Accepted;
    var bits := Code(z, s) + rest;
    assert Begins(z, bits, s);
    var p := ReadSymbol(z, bits);
    UniquePrefix(z, s, p.value, bits);
    CodeSize(z, s);
    assert bits[z[s]..] == rest;
  }

  lemma CodeSize(z: Sizes, s: nat)
    requires Used(z, s)
    ensures s < |z| && |Code(z, s)| == z[s]
  {
  }

  lemma SmallNumbers()
    ensures Pow2(2) == 4 && Pow2(3) == 8 && Pow2(4) == 16 && Pow2(5) == 32 && Pow2(7) == 128
  {
    assert Pow2(7) == 128;
  }

  /** The first `k` sizes sent have been put in their places; the rest are zero. */
  ghost predicate Placed(lens: seq<nat>, z: seq<nat>, k: nat) {
    |lens| == 19 && |z| == 19 && forall i: nat :: i < 19 ==> lens[Swizzle(i)] == if i < k then z[Swizzle(i)] else 0
  }

  lemma PlaceOne(lens: seq<nat>, z: seq<nat>, k: nat)
    requires Placed(lens, z, k) && k < 19
    ensures Placed(lens[Swizzle(k) := z[Swizzle(k)]], z, k + 1)
  {
    hide Swizzle;
    SwizzlePermutes();
  }

  lemma NonePlaced(lens: seq<nat>, z: seq<nat>)
    requires |lens| == 19 && |z| == 19 && forall i :: 0 <= i < 19 ==> lens[i] == 0
    ensures Placed(lens, z, 0)
  {
  }

  lemma AllPlaced(lens: seq<nat>, z: seq<nat>, n: nat)
    requires Placed(lens, z, n) && forall i: nat :: n <= i < 19 ==> z[Swizzle(i)] == 0
    ensures lens == z
  {
    hide Swizzle;
    SwizzlePermutes();
    forall s: nat | s < 19 ensures lens[s] == z[s] {
      assert Swizzle(Place(s)) == s;
    }
  }

  lemma LensStep(z: Sizes, i: nat, n: nat, tail: BitString)
    requires |z| == 19 && i < n <= 19
    ensures LensBits(z, i, n) + tail == LowBits(z[Swizzle(i)], 3) + (LensBits(z, i + 1, n) + tail)
  {
  }

  lemma LensEnd(z: Sizes, n: nat, tail: BitString)
    requires |z| == 19 && n <= 19
    ensures LensBits(z, n, n) + tail == tail
  {
  }

  /** Some header's items for these sizes: what a well-formed stream holds at this point. */
  ghost predicate Wanted(items: seq<Item>, lens: Sizes, total: nat) {
    AllSendable(items, lens) && RepeatsSomething(items) && |Unpacked(items)| == total
  }

  lemma AllButLast(items: seq<Item>)
    requires AllValid(items) && RepeatsSomething(items) && items != []
    ensures var n := |items| - 1;
            AllValid(items[..n]) && RepeatsSomething(items[..n]) && |Unpacked(items)| >= |Unpacked(items[..n])| + 1
  {
    hide Meaning;
    var n := |items| - 1;
    FrontRepeats(items, n);
    assert items[n] in items;
    MeaningGrows(Unpacked(items[..n]), items[n]);
  }

  /** Every further item adds at least one size. */
  lemma {:induction false} ItemsAdd(items: seq<Item>, k: nat)
    requires AllValid(items) && RepeatsSomething(items) && k <= |items|
    ensures |Unpacked(items[..k])| + (|items| - k) <= |Unpacked(items)|
  {
    hide *;
    if k == |items| {
      assert items[..k] == items;
    } else {
      var n := |items| - 1;
      AllButLast(items);
      ItemsAdd(items[..n], k);
      assert items[..n][..k] == items[..k];
    }
  }

  lemma NextItem(items: seq<Item>, lens: Sizes, total: nat, k: nat, tail: BitString)
    requires Wanted(items, lens, total) && k <= |items| && AllSendable(items[k..], lens)
    ensures |Unpacked(items[..k])| <= total && (|Unpacked(items[..k])| == total <==> k == |items|)
    ensures k < |items| ==> AllSendable(items[k + 1..], lens) && Sendable(items[k], lens)
    ensures k < |items| ==> ItemsBits(items[k..], lens) + tail == ItemBits(items[k], lens) + (ItemsBits(items[k + 1..], lens) + tail)
    ensures k < |items| ==> Unpacked(items[..k + 1]) == Unpacked(items[..k]) + Meaning(Unpacked(items[..k]), items[k])
    ensures k < |items| && items[k].Run? && items[k].symbol == REPEAT ==> Unpacked(items[..k]) != []
  {
    hide Code, LowBits, Sendable, ItemBits, Meaning;
    SendableValid(items, lens);
    ItemsAdd(items, k);
    assert items[..|items|] == items;
    if k < |items| {
      assert items[k..][0] == items[k] && items[k..][1..] == items[k + 1..];
      assert items[..k + 1][..k] == items[..k] && items[..k + 1][k] == items[k];
    }
  }

  lemma SendableValid(items: seq<Item>, lens: Sizes)
    requires AllSendable(items, lens)
    ensures AllValid(items)
  {
    forall i | 0 <= i < |items| ensures ValidItem(items[i]) {
      assert Sendable(items[i], lens);
    }
  }

  lemma ItemSymbol(t: Item, lens: Sizes, after: BitString)
    requires Sendable(t, lens) && |lens| == 19
    ensures Used(lens, SymbolOf(t)) && ValidItem(t)
    ensures t.Size? ==> ItemBits(t, lens) + after == Code(lens, SymbolOf(t)) + after && SymbolOf(t) == t.size <= 15
    ensures t.Run? ==> ItemBits(t, lens) + after == Code(lens, SymbolOf(t)) + (LowBits(t.extra, ExtraBits(t.symbol)) + after)
    ensures t.Run? ==> 16 <= SymbolOf(t) == t.symbol <= 18 && t.extra < Pow2(ExtraBits(t.symbol))
  {
    hide Code, LowBits, Pow2;
    SmallNumbers();
  }

  lemma RunMeaning(before: seq<nat>, t: Item)
    requires ValidItem(t) && t.Run? && (t.symbol == REPEAT ==> before != [])
    ensures Meaning(before, t) == Rep(if t.symbol == REPEAT then before[|before| - 1] else 0, t.extra + RunBase(t.symbol))
  {
  }

  lemma SizeMeaning(before: seq<nat>, t: Item)
    requires t.Size?
    ensures Meaning(before, t) == [t.size] && SymbolOf(t) == t.size
  {
  }

  lemma StartItems(items: seq<Item>, z: Sizes, total: nat)
    requires Wanted(items, z, total)
    ensures AllSendable(items, z) && items[0..] == items && Unpacked(items[..0]) == []
  {
  }

  /** The sizes of the code-length code. */
  lemma {:induction false} LengthsMean(z: Sizes, i: nat, n: nat, lens: Sizes, tail: BitString)
    requires i <= n <= 19 && Placed(lens, z, i) && (forall s :: 0 <= s < 19 ==> z[s] <= 7)
    requires forall k: nat :: n <= k < 19 ==> z[Swizzle(k)] == 0
    ensures ReadLengths(i, n, lens, LensBits(z, i, n) + tail) == Parsed(z, tail)
    decreases n - i
  {
    hide LensBits, LowBits, Pow2, Swizzle, ReadNumber;
    SwizzleRange();
    if i == n {
      AllPlaced(lens, z, n);
      LensEnd(z, n, tail);
    } else {
      var v, rest := z[Swizzle(i)], LensBits(z, i + 1, n) + tail;
      SmallNumbers();
      LensStep(z, i, n, tail);
      NumberIs(3, v, LensBits(z, i, n) + tail, rest);
      PlaceOne(lens, z, i);
      LengthsMean(z, i + 1, n, lens[Swizzle(i) := v], tail);
    }
  }

  lemma SwizzleRange()
    ensures forall i: nat :: Swizzle(i) < 19
  {
  }

  /** One item. */
  lemma ItemMeans(t: Item, z: Sizes, got: Sizes, after: BitString)
    requires Sendable(t, z) && |z| == 19 && Accepted(z) && (t.Run? && t.symbol == REPEAT ==> got != [])
    ensures var p := ReadRun(z, got, ItemBits(t, z) + after); p.Parsed? && p.value == got + Meaning(got, t) && p.rest == after
  {
    hide Code, LowBits, Pow2, Accepted, ReadSymbol, ReadNumber, Sendable, ItemBits, Meaning, Rep, RunBase, ExtraBits;
    ItemSymbol(t, z, after);
    match t {
      case Size(s) =>
        SymbolNext(z, s, after);
        SizeMeaning(got, t);
        OneSize(got, s);
      case Run(sym, e) =>
        var rest := LowBits(e, ExtraBits(sym)) + after;
        SymbolNext(z, sym, rest);
        NumberIs(ExtraBits(sym), e, rest, after);
        RunMeaning(got, t);
    }
  }

  lemma OneSize(got: Sizes, x: nat)
    requires x <= 15
    ensures Extended(got, x, 1) == got + [x]
  {
    assert Rep(x, 1) == [x];
  }

  /** All items from the `k`-th on. */
  lemma {:induction false} RunsMean(items: seq<Item>, z: Sizes, total: nat, k: nat, tail: BitString)
    requires Wanted(items, z, total) && |z| == 19 && Accepted(z) && k <= |items| && AllSendable(items[k..], z)
    requires forall i :: 0 <= i < |Unpacked(items)| ==> Unpacked(items)[i] <= 15
    ensures ReadRuns(z, total, Got(items, k), ItemsBits(items[k..], z) + tail) == Parsed(Got(items, |items|), tail)
    decreases |items| - k
  {
    hide Code, ItemsBits, ItemBits, Unpacked, Accepted, ReadRun, Wanted, Sendable, Meaning, AllSendable;
    NextItem(items, z, total, k, tail);
    GotIs(items, k);
    if k == |items| {
      EndItems(z, items, tail);
    } else {
      GotIs(items, k + 1);
      var after := ItemsBits(items[k + 1..], z) + tail;
      ItemMeans(items[k], z, Got(items, k), after);
      RunsMean(items, z, total, k + 1, tail);
    }
  }

  /** What the first `k` items stand for, as sizes. */
  ghost function Got(items: seq<Item>, k: nat): Sizes
    requires k <= |items|
  {
    if forall i :: 0 <= i < |Unpacked(items[..k])| ==> Unpacked(items[..k])[i] <= 15 then Unpacked(items[..k]) else []
  }

  lemma {:induction false} GotIs(items: seq<Item>, k: nat)
    requires k <= |items| && forall i :: 0 <= i < |Unpacked(items)| ==> Unpacked(items)[i] <= 15
    ensures Got(items, k) == Unpacked(items[..k])
  {
    UnpackedStarts(items, k);
  }

  lemma {:induction false} UnpackedStarts(items: seq<Item>, k: nat)
    requires k <= |items|
    ensures Unpacked(items[..k]) <= Unpacked(items)
  {
    hide Meaning;
    if k == |items| {
      assert items[..k] == items;
    } else {
      UnpackedStarts(items[..|items| - 1], k);
      assert items[..|items| - 1][..k] == items[..k];
    }
  }

  lemma EndItems(z: Sizes, items: seq<Item>, tail: BitString)
    ensures AllSendable(items[|items|..], z) && ItemsBits(items[|items|..], z) + tail == tail && items[..|items|] == items
  {
  }

  /** What follows the three counts. */
  ghost function AfterCounts(h: Header, tail: BitString): BitString
    requires ValidHeader(h)
  {
    LensBits(h.lens, 0, h.numLens) + (ItemsBits(h.items, h.lens) + tail)
  }

  lemma HeaderParts(h: Header, tail: BitString)
    requires ValidHeader(h)
    ensures 257 <= h.numLit <= 286 && 1 <= h.numDist <= 30 && 4 <= h.numLens <= 19
    ensures |h.lens| == 19 && Accepted(h.lens) && forall s :: 0 <= s < 19 ==> h.lens[s] <= 7
    ensures forall i: nat :: h.numLens <= i < 19 ==> h.lens[Swizzle(i)] == 0
    ensures |h.lit| == 288 && |h.dist| == 32 && Wanted(h.items, h.lens, h.numLit + h.numDist)
    ensures AllSendable(h.items, h.lens) && Unpacked(h.items) == h.lit[..h.numLit] + h.dist[..h.numDist]
    ensures AfterCounts(h, tail) == LensBits(h.lens, 0, h.numLens) + (ItemsBits(h.items, h.lens) + tail)
  {
    hide LowBits, LensBits, ItemsBits, Accepted, Unpacked, RepeatsSomething, Swizzle;
  }

  lemma Regroup(a: BitString, b: BitString, c: BitString, d: BitString, e: BitString, tail: BitString)
    ensures ((a + (b + c)) + (d + e)) + tail == a + (b + (c + (d + (e + tail))))
  {
  }

  lemma HeaderOrder(h: Header, tail: BitString)
    requires ValidHeader(h)
    ensures 257 <= h.numLit <= 286 && 1 <= h.numDist <= 30 && 4 <= h.numLens <= 19
    ensures HeaderBits(h) + tail
         == LowBits(h.numLit - 257, 5) + (LowBits(h.numDist - 1, 5) + (LowBits(h.numLens - 4, 4) + AfterCounts(h, tail)))
  {
    hide LowBits, LensBits, ItemsBits, ValidHeader;
    HeaderParts(h, tail);
    Regroup(LowBits(h.numLit - 257, 5), LowBits(h.numDist - 1, 5), LowBits(h.numLens - 4, 4),
            LensBits(h.lens, 0, h.numLens), ItemsBits(h.items, h.lens), tail);
  }

  lemma HeaderTrims(h: Header)
    requires ValidHeader(h)
    ensures h.numLit <= |h.lit| == 288 && h.numDist <= |h.dist| == 32 && h.numDist <= 32
    ensures SameCodes(h.lit[..h.numLit], h.lit) && SameCodes(h.dist[..h.numDist], h.dist)
    ensures Accepted(h.lit[..h.numLit]) && Accepted(h.dist[..h.numDist])
  {
    hide Accepted, SameCodes, Swizzle, Unpacked, RepeatsSomething, AllSendable;
    CutCodes(h.lit, h.numLit);
    CutCodes(h.dist, h.numDist);
  }

  lemma CountsMean(h: Header, tail: BitString)
    requires ValidHeader(h)
    ensures 257 <= h.numLit <= 286 && 1 <= h.numDist <= 30 && 4 <= h.numLens <= 19
    ensures ReadTables(HeaderBits(h) + tail) == ReadBoth(h.numLit, h.numDist, h.numLens, AfterCounts(h, tail))
  {
    hide LowBits, Pow2, ValidHeader, HeaderBits, AfterCounts, ReadNumber, ReadBoth;
    HeaderOrder(h, tail);
    SmallNumbers();
    var a, b, c := h.numLit - 257, h.numDist - 1, h.numLens - 4;
    var r3 := AfterCounts(h, tail);
    var r2 := LowBits(c, 4) + r3;
    var r1 := LowBits(b, 5) + r2;
    NumberIs(5, a, LowBits(a, 5) + r1, r1);
    NumberIs(5, b, r1, r2);
    NumberIs(4, c, r2, r3);
  }

  /** The whole header. */
  lemma HeaderMeans(h: Header, tail: BitString)
    requires ValidHeader(h)
    ensures h.numLit <= |h.lit| && h.numDist <= |h.dist|
    ensures ReadTables(HeaderBits(h) + tail) == Parsed(Tables(h.lit[..h.numLit], h.dist[..h.numDist]), tail)
  {
    hide LensBits, ItemsBits, Accepted, Unpacked, RepeatsSomething, Swizzle, ReadLengths, ReadRuns, ReadTables, ValidHeader, Wanted, AllSendable;
    HeaderParts(h, tail);
    CountsMean(h, tail);
    NonePlaced(NoSizes(), h.lens);
    LengthsMean(h.lens, 0, h.numLens, NoSizes(), ItemsBits(h.items, h.lens) + tail);
    var total := h.numLit + h.numDist;
    StartItems(h.items, h.lens, total);
    var both: seq<nat> := h.lit[..h.numLit] + h.dist[..h.numDist];
    assert forall i :: 0 <= i < |both| ==> both[i] <= 15;
    RunsMean(h.items, h.lens, total, 0, tail);
    GotIs(h.items, 0);
    GotIs(h.items, |h.items|);
    assert h.items[..|h.items|] == h.items;
    assert both[..h.numLit] == h.lit[..h.numLit] && both[h.numLit..] == h.dist[..h.numDist];
  }

  /** Cutting unused symbols off the end of a code-size vector changes no code. */
  lemma {:induction false} CountCut(z: seq<nat>, n: nat, len: nat, k: nat)
    requires k <= n <= |z|
    ensures Count(z[..n], len, k) == Count(z, len, k)
  {
    if k > 0 { CountCut(z, n, len, k - 1); }
  }

  lemma {:induction false} UsedCut(z: seq<nat>, n: nat, k: nat)
    requires k <= n <= |z|
    ensures UsedCount(z[..n], k) == UsedCount(z, k)
  {
    if k > 0 { UsedCut(z, n, k - 1); }
  }

  lemma {:induction false} UsedTail(z: seq<nat>, n: nat, k: nat)
    requires n <= k <= |z| && forall s :: n <= s < |z| ==> z[s] == 0
    ensures UsedCount(z, k) == UsedCount(z, n)
  {
    if k > n { UsedTail(z, n, k - 1); }
  }

  lemma {:induction false} CountTail(z: seq<nat>, n: nat, len: nat, k: nat)
    requires n <= k <= |z| && len > 0 && forall s :: n <= s < |z| ==> z[s] == 0
    ensures Count(z, len, k) == Count(z, len, n)
  {
    if k > n { CountTail(z, n, len, k - 1); }
  }

  lemma {:induction false} FirstCut(z: seq<nat>, n: nat, len: nat)
    requires n <= |z| && forall s :: n <= s < |z| ==> z[s] == 0
    ensures First(z[..n], len) == First(z, len)
  {
    if len > 1 {
      FirstCut(z, n, len - 1);
      CountCut(z, n, len - 1, n);
      CountTail(z, n, len - 1, |z|);
    }
  }

  /** `cut` gives every used symbol of `full` the same code. */
  ghost predicate SameCodes(cut: Sizes, full: Sizes) {
    forall s: nat :: Used(full, s) ==> Used(cut, s) && Code(cut, s) == Code(full, s)
  }

  lemma CutCodes(z: Sizes, n: nat)
    requires n <= |z| && forall s :: n <= s < |z| ==> z[s] == 0
    ensures SameCodes(z[..n], z) && (Accepted(z) ==> Accepted(z[..n]))
  {
    hide First, Count, UsedCount, MsbBits;
    FirstCut(z, n, 16);
    UsedCut(z, n, n);
    UsedTail(z, n, |z|);
    forall s: nat | Used(z, s) ensures Used(z[..n], s) && Code(z[..n], s) == Code(z, s) {
      FirstCut(z, n, z[s]);
      CountCut(z, n, z[s], s);
    }
  }
}
