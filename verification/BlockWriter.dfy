/** Writing the blocks of a compressed stream: dynamic header, static tables, and body. */
module BlockWriter {
  import opened Bits
  import opened CanonicalCode
  import opened WeightedLengths
  import opened CodeSizeRle
  import opened BlockFormat
  import opened BlockHeader
  import opened BitWriter
  import opened LzBuffer
  import opened HuffmanTable
  import opened BlockSize

  /** The number of symbols to send: trailing unused symbols are cut, but not below `least`. */
  method CountCodes(sizes: array<nat>, most: nat, least: nat) returns (n: nat)
    requires least <= most <= sizes.Length
    ensures least <= n <= most
    ensures forall s :: n <= s < most ==> sizes[s] == 0
    ensures n > least ==> sizes[n - 1] != 0
  {
    n := most;
    while n > least
      invariant least <= n <= most
      invariant forall s :: n <= s < most ==> sizes[s] == 0
    {
      if sizes[n - 1] != 0 { break; }
      n := n - 1;
    }
  }

  /** The same for the code-length code, in sending order and not below four. */
  method CountLens(lens: array<nat>) returns (n: nat)
    requires lens.Length == 19
    ensures 4 <= n <= 19 && forall i: nat :: n <= i < 19 ==> lens[Swizzle(i)] == 0
    ensures n == 4 || lens[Swizzle(n - 1)] != 0
  {
    n := 19;
    while n > 0
      invariant n <= 19 && forall i: nat :: n <= i < 19 ==> lens[Swizzle(i)] == 0
    {
      if lens[Swizzle(n - 1)] != 0 { break; }
      n := n - 1;
    }
    if n < 4 { n := 4; }
  }

  /** A table the writer can send with: canonical codes of accepted sizes. */
  ghost predicate Table(sizes: seq<nat>, codes: seq<nat>) {
    && (forall s :: 0 <= s < |sizes| ==> sizes[s] <= 15)
    && Accepted(sizes) && CanonicalCodes(sizes, codes)
  }

  lemma CodeNumberBits(sizes: seq<nat>, codes: seq<nat>, s: nat)
    requires Table(sizes, codes) && Used(sizes, s)
    ensures |codes| == |sizes| && codes[s] < Pow2(sizes[s]) && LowBits(codes[s], sizes[s]) == Code(sizes, s)
  {
    hide Code;
    ToNatBound(Code(sizes, s));
    LowBitsOfToNat(Code(sizes, s), 0);
  }

  method PutCode(w: Writer, sizes: array<nat>, codes: array<nat>, s: nat)
    requires w.Valid() && Table(sizes[..], codes[..]) && Used(sizes[..], s)
    modifies w
    ensures w.Valid() && w.sent == old(w.sent) + Code(sizes[..], s)
    ensures old(w.out) <= w.out
  {
    hide Table, LowBits, Code, Pow2;
    CodeNumberBits(sizes[..], codes[..], s);
    w.PutBits(codes[s], sizes[s]);
  }

  method PutItem(w: Writer, sizes: array<nat>, codes: array<nat>, sym: nat, extra: nat, ghost t: Item)
    requires w.Valid() && Table(sizes[..], codes[..]) && Sendable(t, sizes[..])
    requires sym == SymbolOf(t) && (t.Run? ==> extra == t.extra)
    modifies w
    ensures w.Valid() && w.sent == old(w.sent) + ItemBits(t, sizes[..])
    ensures old(w.out) <= w.out
  {
    hide Table, LowBits, Code, Pow2, w.Valid;
    PutCode(w, sizes, codes, sym);
    if sym >= 16 {
      ExtraFits(t);
      w.PutBits(extra, ExtraBits(sym));
    }
  }

  lemma ExtraFits(t: Item)
    requires ValidItem(t) && t.Run?
    ensures t.extra < Pow2(ExtraBits(t.symbol)) && t.symbol >= 16
  {
    assert Pow2(2) == 4 && Pow2(3) == 8 && Pow2(7) == 128;
  }

  lemma {:induction false} FlatFront(items: seq<Item>)
    requires items != []
    ensures Flat(items) == ItemBytes(items[0]) + Flat(items[1..])
  {
    hide ItemBytes;
    var n := |items| - 1;
    if n == 0 {
      assert items[..0] == [] && items[1..] == [] && Flat([]) == [];
    } else {
      var front, rest := items[..n], items[1..];
      FlatFront(front);
      assert front[0] == items[0] && front[1..] == rest[..n - 1] && rest[n - 1] == items[n];
      assert Flat(rest) == Flat(front[1..]) + ItemBytes(items[n]);
      assert Flat(items) == Flat(front) + ItemBytes(items[n]);
    }
  }

  /** Sends the run-length coded sizes. */
  method SendItems(w: Writer, sizes: array<nat>, codes: array<nat>, packed: seq<nat>, ghost items: seq<Item>, ghost z: Sizes)
    requires w.Valid() && sizes[..] == z && Table(z, codes[..]) && AllSendable(items, z) && packed == Flat(items)
    modifies w
    ensures w.Valid() && w.sent == old(w.sent) + ItemsBits(items, z)
    ensures old(w.out) <= w.out
  {
    hide Table, LowBits, Code, Pow2, w.Valid, ItemBits, Flat;
    ghost var left := items;
    var i := 0;
    while i < |packed|
      invariant i <= |packed| && packed[i..] == Flat(left) && AllSendable(left, z) && w.Valid()
      invariant w.sent + ItemsBits(left, z) == old(w.sent) + ItemsBits(items, z)
      invariant old(w.out) <= w.out
    {
      NextItem(left, packed, i);
      var sym := packed[i];
      var extra := 0;
      i := i + 1;
      if sym >= 16 {
        extra := packed[i];
        i := i + 1;
      }
      PutItem(w, sizes, codes, sym, extra, left[0]);
      left := left[1..];
    }
    NoneLeft(left);
  }

  lemma NextItem(left: seq<Item>, packed: seq<nat>, i: nat)
    requires i < |packed| && packed[i..] == Flat(left) && forall k :: 0 <= k < |left| ==> ValidItem(left[k])
    ensures left != [] && packed[i] == SymbolOf(left[0])
    ensures left[0].Run? <==> packed[i] >= 16
    ensures left[0].Run? ==> i + 1 < |packed| && packed[i + 1] == left[0].extra && packed[i + 2..] == Flat(left[1..])
    ensures left[0].Size? ==> packed[i + 1..] == Flat(left[1..])
  {
    assert Flat([]) == [];
    if left != [] {
      FlatFront(left);
      assert ValidItem(left[0]);
      var b := ItemBytes(left[0]);
      assert packed[i..][..|b|] == b && packed[i..][|b|..] == packed[i + |b|..];
    }
  }

  lemma NoneLeft(left: seq<Item>)
    requires Flat(left) == []
    ensures left == []
  {
    if left != [] { FlatFront(left); }
  }

  /** Sends the sizes of the code-length code. */
  method SendLens(w: Writer, lens: array<nat>, n: nat)
    requires w.Valid() && lens.Length == 19 && n <= 19 && forall s :: 0 <= s < 19 ==> lens[s] <= 7
    modifies w
    ensures w.Valid() && w.sent == old(w.sent) + LensBits(lens[..], 0, n)
    ensures old(w.out) <= w.out
  {
    hide LowBits, w.Valid;
    assert Pow2(3) == 8;
    var i := 0;
    while i < n
      invariant i <= n && w.Valid() && old(w.out) <= w.out
      invariant w.sent + LensBits(lens[..], i, n) == old(w.sent) + LensBits(lens[..], 0, n)
    {
      w.PutBits(lens[Swizzle(i)], 3);
      i := i + 1;
    }
  }

  lemma CountEndOfBlock(ts: seq<Token>, lit: seq<nat>, dist: seq<nat>)
    requires ValidTokens(ts) && Tally(ts, lit, dist)
    ensures |lit| == 288 && BlockTally(ts, lit[256 := 1], dist)
  {
    hide LitCount, DistCount, Sum;
    NeverSent(ts, 256);
    SumBump(lit, 256);
    assert lit[256 := lit[256] + 1] == lit[256 := 1];
  }

  /** Every symbol a token needs got a code, and no symbol above the formats' limits did. */
  lemma TablesCover(ts: seq<Token>, lf: seq<nat>, df: seq<nat>, lit: Sizes, dist: Sizes)
    requires ValidTokens(ts) && BlockTally(ts, lf, df) && CodesUsed(lf, lit, 15) && CodesUsed(df, dist, 15)
    ensures |lit| == 288 && |dist| == 32 && AllCoded(ts, lit, dist)
    ensures lit[286] == 0 && lit[287] == 0 && dist[30] == 0 && dist[31] == 0
  {
    hide LitCount, DistCount, Sum, LenSym, DistSym;
    NeverSent(ts, 286);
    NeverSent(ts, 287);
    NeverSent(ts, 30);
    NeverSent(ts, 31);
    forall i | 0 <= i < |ts| ensures Coded(ts[i], lit, dist) {
      TallyCovers(ts, i);
      if ts[i].Match? { DistanceRoundTrip(ts[i].dist - 1); }
    }
  }

  ghost predicate Trimmed(z: seq<nat>, n: nat) {
    n <= |z| && forall s :: n <= s < |z| ==> z[s] == 0
  }

  /** The pieces make a header a decoder accepts. */
  lemma MakesHeader(h: Header, counts: seq<nat>)
    requires |h.lit| == 288 && |h.dist| == 32 && |h.lens| == 19
    requires 257 <= h.numLit <= 286 && 1 <= h.numDist <= 30 && 4 <= h.numLens <= 19
    requires Trimmed(h.lit, h.numLit) && Trimmed(h.dist, h.numDist)
    requires forall i: nat :: h.numLens <= i < 19 ==> h.lens[Swizzle(i)] == 0
    requires Accepted(h.lit) && Accepted(h.dist) && Accepted(h.lens) && CodesUsed(counts, h.lens, 7)
    requires RepeatsSomething(h.items) && AllValid(h.items) && Tallied(h.items, counts)
    requires Unpacked(h.items) == h.lit[..h.numLit] + h.dist[..h.numDist]
    ensures ValidHeader(h)
  {
    hide Accepted, RepeatsSomething, Unpacked, Swizzle, Sum;
    forall i | 0 <= i < |h.items| ensures Sendable(h.items[i], h.lens) {
      assert ValidItem(h.items[i]);
      assert counts[SymbolOf(h.items[i])] > 0;
    }
  }

  lemma HeaderRanges(h: Header)
    requires ValidHeader(h)
    ensures 257 <= h.numLit <= 286 && 1 <= h.numDist <= 30 && 4 <= h.numLens <= 19
    ensures |h.lens| == 19 && AllSendable(h.items, h.lens)
    ensures forall s :: 0 <= s < 19 ==> h.lens[s] <= 7
  {
    hide Accepted, RepeatsSomething, Unpacked, Swizzle;
  }

  lemma HeaderSmall(h: Header)
    requires ValidHeader(h)
    ensures 0 <= h.numLit - 257 < Pow2(5) && 0 <= h.numDist - 1 < Pow2(5) && 0 <= h.numLens - 4 < Pow2(4)
    ensures |h.lens| == 19 && AllSendable(h.items, h.lens) && h.numLens <= 19
    ensures HeaderBits(h) == LowBits(h.numLit - 257, 5) + (LowBits(h.numDist - 1, 5) + LowBits(h.numLens - 4, 4))
              + (LensBits(h.lens, 0, h.numLens) + ItemsBits(h.items, h.lens))
  {
    hide ValidHeader, LowBits, LensBits, ItemsBits, AllSendable;
    HeaderRanges(h);
    assert Pow2(5) == 32 && Pow2(4) == 16;
  }

  /** Sends the block type and the header. */
  method SendHeader(w: Writer, ghost h: Header, numLit: nat, numDist: nat, numLens: nat, packed: seq<nat>,
    lens: array<nat>, codes: array<nat>)
    requires w.Valid() && ValidHeader(h) && h.numLit == numLit && h.numDist == numDist && h.numLens == numLens
    requires packed == Flat(h.items) && lens[..] == h.lens && Table(h.lens, codes[..])
    modifies w
    ensures w.Valid() && w.sent == old(w.sent) + (LowBits(2, 2) + HeaderBits(h))
    ensures old(w.out) <= w.out
  {
    hide *;
    HeaderSmall(h);
    HeaderRanges(h);
    ShortPowers();
    w.PutBits(2, 2);
    w.PutBits(numLit - 257, 5);
    w.PutBits(numDist - 1, 5);
    w.PutBits(numLens - 4, 4);
    SendLens(w, lens, numLens);
    SendItems(w, lens, codes, packed, h.items, h.lens);
  }

  lemma ShortPowers()
    ensures Pow2(0) == 1 && Pow2(1) == 2 && Pow2(2) == 4 && Pow2(3) == 8
    ensures Pow2(15) == 32768 && Pow2(7) == 128
  {
    Pow2Sixteen();
    assert Pow2(7) == 128;
  }

  lemma UsedSizes(freq: seq<nat>, sizes: seq<nat>, limit: nat)
    requires CodesUsed(freq, sizes, limit) && limit <= 15
    ensures |sizes| == |freq| && forall s :: 0 <= s < |sizes| ==> sizes[s] <= limit
  {
  }

  lemma MakesTable(sizes: Sizes, codes: seq<nat>)
    requires Accepted(sizes) && CanonicalCodes(sizes, codes)
    ensures Table(sizes, codes)
  {
  }

  lemma BlockTallySums(ts: seq<Token>, lit: seq<nat>, dist: seq<nat>)
    requires ValidTokens(ts) && BlockTally(ts, lit, dist)
    ensures |lit| == 288 && |dist| == 32 && Sum(lit) == |ts| + 1 && Sum(dist) <= |ts|
  {
  }

  lemma TalliedSum(items: seq<Item>, counts: seq<nat>)
    requires Tallied(items, counts)
    ensures |counts| == 19 && Sum(counts) == |items|
  {
  }

  /** The literal/length and distance tables of a block: the end-of-block symbol is counted once. */
  method BlockTables(litFreq: array<nat>, distFreq: array<nat>, ghost ts: seq<Token>)
    returns (lit: array<nat>, litCodes: array<nat>, dist: array<nat>, distCodes: array<nat>)
    requires litFreq != distFreq && ValidTokens(ts) && |ts| < 65535 && Tally(ts, litFreq[..], distFreq[..])
    modifies litFreq
    ensures fresh(lit) && fresh(litCodes) && fresh(dist) && fresh(distCodes) && lit.Length == 288 && dist.Length == 32
    ensures lit[286] == 0 && lit[287] == 0 && dist[30] == 0 && dist[31] == 0
    ensures (forall s :: 0 <= s < 288 ==> lit[s] <= 15) && (forall s :: 0 <= s < 32 ==> dist[s] <= 15)
    ensures Accepted(lit[..]) && Accepted(dist[..]) && AllCoded(ts, lit[..], dist[..])
    ensures NearStatic(ts, lit[..], dist[..]) && BestCodes(ts, lit[..], dist[..])
    ensures Table(lit[..], litCodes[..]) && Table(dist[..], distCodes[..])
  {
    hide *;
    ShortPowers();
    CountEndOfBlock(ts, litFreq[..], distFreq[..]);
    ghost var lf := litFreq[..];
    litFreq[256] := 1;
    assert litFreq[..] == lf[256 := 1];
    BlockTallySums(ts, litFreq[..], distFreq[..]);
    lit, litCodes := OptimizeTable(litFreq[..], 15);
    dist, distCodes := OptimizeTable(distFreq[..], 15);
    UsedSizes(litFreq[..], lit[..], 15);
    UsedSizes(distFreq[..], dist[..], 15);
    TablesCover(ts, litFreq[..], distFreq[..], lit[..], dist[..]);
    BestIsNearStatic(ts, litFreq[..], distFreq[..], lit[..], dist[..]);
    AreBest(ts, litFreq[..], distFreq[..], lit[..], dist[..]);
    MakesTable(lit[..], litCodes[..]);
    MakesTable(dist[..], distCodes[..]);
  }

  lemma AreBest(ts: seq<Token>, lf: seq<nat>, df: seq<nat>, zl: Sizes, zd: Sizes)
    requires ValidTokens(ts) && BlockTally(ts, lf, df) && NearBest(lf, zl) && NearBest(df, zd)
    requires (Sum(lf) < HuffmanPlan.Fib(15 + 2) ==> Best(lf, zl)) && (Sum(df) < HuffmanPlan.Fib(15 + 2) ==> Best(df, zd))
    ensures BestCodes(ts, zl, zd)
  {
    hide BestCodes, NearBest, Best, Sum, HuffmanPlan.Fib, BlockTally;
    TallyOnce(ts, lf, df, zl, zd);
  }

  /** `tdefl_start_dynamic_block`: builds both codes from the counts and sends the header. */
  method StartDynamicBlock(w: Writer, litFreq: array<nat>, distFreq: array<nat>, ghost ts: seq<Token>)
    returns (lit: array<nat>, litCodes: array<nat>, dist: array<nat>, distCodes: array<nat>, ghost h: Header)
    requires w.Valid() && litFreq != distFreq && ValidTokens(ts) && |ts| < 65535 && Tally(ts, litFreq[..], distFreq[..])
    modifies w, litFreq
    ensures w.Valid() && ValidHeader(h) && h.lit == lit[..] && h.dist == dist[..] && |h.lit| == 288 && |h.dist| == 32
    ensures AllCoded(ts, h.lit, h.dist) && NearStatic(ts, h.lit, h.dist) && BestCodes(ts, h.lit, h.dist) && ShortHeader(h)
    ensures Table(h.lit, litCodes[..]) && Table(h.dist, distCodes[..])
    ensures w.sent == old(w.sent) + (LowBits(2, 2) + HeaderBits(h))
    ensures old(w.out) <= w.out
  {
    hide *;
    ShortPowers();
    lit, litCodes, dist, distCodes := BlockTables(litFreq, distFreq, ts);
    var numLit := CountCodes(lit, 286, 257);
    var numDist := CountCodes(dist, 30, 1);
    var packed, counts;
    ghost var items;
    packed, counts, items := PackCodeSizes(lit[..numLit] + dist[..numDist]);
    TalliedSum(items, counts);
    var lens, lensCodes := OptimizeTable(counts, 7);
    UsedSizes(counts, lens[..], 7);
    var numLens := CountLens(lens);
    h := Header(lit[..], dist[..], lens[..], numLit, numDist, numLens, items);
    TrimmedTo(lit[..], numLit);
    TrimmedTo(dist[..], numDist);
    MakesHeader(h, counts);
    IsShort(h);
    MakesTable(h.lens, lensCodes[..]);
    SendHeader(w, h, numLit, numDist, numLens, packed, lens, lensCodes);
  }

  lemma IsShort(h: Header)
    requires ValidHeader(h) && h.items == RunByRun(h.lit[..h.numLit] + h.dist[..h.numDist])
    requires (h.numLit > 257 ==> h.lit[h.numLit - 1] != 0) && (h.numDist > 1 ==> h.dist[h.numDist - 1] != 0)
    requires h.numLens == 4 || h.lens[Swizzle(h.numLens - 1)] != 0
    ensures ShortHeader(h)
  {
    hide RunByRun, Unpacked;
  }

  lemma TrimmedTo(z: seq<nat>, n: nat)
    requires n <= |z| && forall s :: n <= s < |z| ==> z[s] == 0
    ensures Trimmed(z, n)
  {
  }

  lemma {:induction false} FlagBitsAt(g: seq<Token>, i: nat)
    requires i < |g|
    ensures FlagBits(g)[i] == g[i].Match?
  {
    if i < |g| - 1 { FlagBitsAt(g[..|g| - 1], i); }
  }

  lemma FlagBitsFront(g: seq<Token>)
    requires g != []
    ensures FlagBits(g) == [g[0].Match?] + FlagBits(g[1..])
  {
    forall i | 0 <= i < |g| ensures FlagBits(g)[i] == g[i].Match? { FlagBitsAt(g, i); }
    forall i | 0 <= i < |g| - 1 ensures FlagBits(g[1..])[i] == g[1..][i].Match? { FlagBitsAt(g[1..], i); }
  }

  /** Where the reading of the packed codes stands: `flags` is a marker bit above the flags of
      the codes still pending in the open group. */
  ghost predicate Reading(buf: seq<Byte>, pending: seq<Token>, rest: seq<Token>, flags: nat, left: nat) {
    && ValidTokens(pending) && ValidTokens(rest)
    && |pending| <= left <= 8 && (rest != [] ==> |pending| == left)
    && buf == CodeBytes(pending) + Packed(rest) && flags == Pow2(left) + ToNat(FlagBits(pending))
  }

  lemma StartReading(ts: seq<Token>)
    requires ValidTokens(ts)
    ensures Reading(Packed(ts), [], ts, 1, 0)
  {
    assert CodeBytes([]) + Packed(ts) == Packed(ts);
    assert Pow2(0) == 1 && ToNat(FlagBits([])) == 0;
  }

  lemma TokenBytesSome(t: Token)
    requires ValidToken(t)
    ensures |TokenBytes(t)| > 0
  {
  }

  lemma PackedFront(rest: seq<Token>)
    requires ValidTokens(rest)
    ensures var g := GroupSize(rest);
            if rest == [] then Packed(rest) == []
            else Packed(rest) == GroupBytes(rest[..g]) + Packed(rest[g..]) && (rest[g..] != [] ==> g == 8)
  {
    var g := GroupSize(rest);
    if |rest| <= 8 { assert rest[g..] == [] && rest[..g] == rest; }
  }

  lemma CodeBytesFront(g: seq<Token>)
    requires ValidTokens(g)
    ensures if g == [] then CodeBytes(g) == [] else CodeBytes(g) == TokenBytes(g[0]) + CodeBytes(g[1..])
  {
  }

  lemma DoneReading(pending: seq<Token>, rest: seq<Token>, flags: nat, left: nat)
    requires Reading([], pending, rest, flags, left)
    ensures pending == [] && rest == []
  {
    hide CodeBytes, Packed, TokenBytes, GroupBytes;
    PackedFront(rest);
    CodeBytesFront(pending);
    if pending != [] {
      TokenBytesSome(pending[0]);
    } else if rest != [] {
      GroupIs(rest[..GroupSize(rest)]);
    }
  }

  lemma MarkerBit(pending: seq<Token>, left: nat)
    requires |pending| <= left
    ensures Pow2(left) + ToNat(FlagBits(pending)) == 1 <==> left == 0
  {
    if left == 0 {
      assert FlagBits([]) == [] && ToNat([]) == 0 && Pow2(0) == 1;
    } else {
      assert Pow2(left) >= 2;
    }
  }

  lemma FlagsLeft(buf: seq<Byte>, pending: seq<Token>, rest: seq<Token>, flags: nat, left: nat)
    requires Reading(buf, pending, rest, flags, left) && buf != []
    ensures flags == 1 ==> pending == [] && rest != [] && ValidTokens(rest)
    ensures flags == 1 ==> Reading(buf[1..], rest[..GroupSize(rest)], rest[GroupSize(rest)..], buf[0] as int + 256, 8)
    ensures flags != 1 ==> pending != []
  {
    hide CodeBytes, Packed, TokenBytes, GroupBytes, ToNat, FlagBits, Pow2;
    MarkerBit(pending, left);
    CodeBytesFront(pending);
    if flags == 1 {
      PackedFront(rest);
      assert buf == Packed(rest);
      OpenGroup(rest);
    }
    PackedFront(rest);
  }

  lemma OpenGroup(rest: seq<Token>)
    requires ValidTokens(rest) && rest != []
    ensures var buf, g := Packed(rest), GroupSize(rest);
            buf != [] && Reading(buf[1..], rest[..g], rest[g..], buf[0] as int + 256, 8)
  {
    hide *;
    var g := GroupSize(rest);
    GroupValid(rest);
    PackedFront(rest);
    GroupIs(rest[..g]);
    Pow2Eight();
    assert Packed(rest)[1..] == CodeBytes(rest[..g]) + Packed(rest[g..]);
    MakeReading(Packed(rest)[1..], rest[..g], rest[g..], Packed(rest)[0] as int + 256, 8);
  }

  lemma GroupValid(rest: seq<Token>)
    requires ValidTokens(rest) && rest != []
    ensures var g := GroupSize(rest); ValidTokens(rest[..g]) && ValidTokens(rest[g..]) && 1 <= g <= 8 && (rest[g..] != [] ==> g == 8)
  {
  }

  lemma MakeReading(buf: seq<Byte>, pending: seq<Token>, rest: seq<Token>, flags: nat, left: nat)
    requires ValidTokens(pending) && ValidTokens(rest)
    requires |pending| <= left <= 8 && (rest != [] ==> |pending| == left)
    requires buf == CodeBytes(pending) + Packed(rest) && flags == Pow2(left) + ToNat(FlagBits(pending))
    ensures Reading(buf, pending, rest, flags, left)
  {
    hide CodeBytes, Packed, ToNat, FlagBits, Pow2;
  }

  lemma Pow2Eight()
    ensures Pow2(8) == 256
  {
  }

  function GroupSize(rest: seq<Token>): (g: nat)
    ensures g <= |rest| && g <= 8 && (rest != [] ==> g > 0)
  {
    if |rest| <= 8 then |rest| else 8
  }

  lemma HalfFlags(g: seq<Token>, left: nat)
    requires g != [] && left > 0
    ensures (Pow2(left) + ToNat(FlagBits(g))) % 2 == BitValue(g[0].Match?)
    ensures (Pow2(left) + ToNat(FlagBits(g))) / 2 == Pow2(left - 1) + ToNat(FlagBits(g[1..]))
  {
    hide FlagBits;
    FlagBitsFront(g);
    assert FlagBits(g)[1..] == FlagBits(g[1..]);
  }

  /** The lowest flag tells what the next code is; shifting it out leaves the reading in order. */
  lemma ReadCode(buf: seq<Byte>, pending: seq<Token>, rest: seq<Token>, flags: nat, left: nat)
    requires Reading(buf, pending, rest, flags, left) && pending != []
    ensures ValidToken(pending[0]) && left > 0 && flags % 2 == BitValue(pending[0].Match?)
    ensures var n := |TokenBytes(pending[0])|;
            n <= |buf| && buf[..n] == TokenBytes(pending[0]) && Reading(buf[n..], pending[1..], rest, flags / 2, left - 1)
  {
    hide CodeBytes, Packed, TokenBytes, GroupBytes, ToNat, FlagBits, Pow2;
    HalfFlags(pending, left);
    CodeBytesFront(pending);
    var b := TokenBytes(pending[0]);
    assert buf == b + (CodeBytes(pending[1..]) + Packed(rest));
    assert buf[|b|..] == CodeBytes(pending[1..]) + Packed(rest);
  }

  /** Sends one token: its code or codes, with their extra bits. */
  method SendLiteral(w: Writer, lit: array<nat>, litCodes: array<nat>, b: Byte, ghost zl: Sizes, ghost zd: Sizes)
    requires w.Valid() && lit[..] == zl && |zl| == 288 && |zd| == 32 && Table(zl, litCodes[..])
    requires Coded(Literal(b), zl, zd)
    modifies w
    ensures w.Valid() && w.sent == old(w.sent) + TokenBits(Literal(b), zl, zd)
    ensures old(w.out) <= w.out
  {
    hide Code, Table, w.Valid;
    PutCode(w, lit, litCodes, b);
  }

  method SendMatch(w: Writer, lit: array<nat>, litCodes: array<nat>, dist: array<nat>, distCodes: array<nat>,
    l: nat, d: nat, ghost zl: Sizes, ghost zd: Sizes)
    requires w.Valid() && lit[..] == zl && |zl| == 288 && |zd| == 32 && Table(zl, litCodes[..])
    requires dist[..] == zd && Table(zd, distCodes[..])
    requires l < 256 && d < 32768 && Coded(Match(l + 3, d + 1), zl, zd)
    modifies w
    ensures w.Valid() && w.sent == old(w.sent) + TokenBits(Match(l + 3, d + 1), zl, zd)
    ensures old(w.out) <= w.out
  {
    hide Code, Table, w.Valid, LenSym, LenExtra, DistSym, DistExtra, Pow2, LowBits;
    DistanceRoundTrip(d);
    PutCode(w, lit, litCodes, LenSym(l));
    ModBelow(l, Pow2(LenExtra(l)));
    w.PutBits(l % Pow2(LenExtra(l)), LenExtra(l));
    PutCode(w, dist, distCodes, DistSym(d));
    ModBelow(d, Pow2(DistExtra(d)));
    w.PutBits(d % Pow2(DistExtra(d)), DistExtra(d));
  }

  lemma ModBelow(n: nat, p: nat)
    requires p > 0
    ensures n % p < p
  {
  }

  lemma BodyStep(ts: seq<Token>, k: nat, zl: Sizes, zd: Sizes)
    requires |zl| == 288 && |zd| == 32 && AllCoded(ts, zl, zd) && k < |ts|
    ensures ValidTokens(ts[k..]) && ValidTokens(ts[k + 1..]) && ValidToken(ts[k]) && Coded(ts[k], zl, zd)
    ensures BodyBits(ts[k..], zl, zd) == TokenBits(ts[k], zl, zd) + BodyBits(ts[k + 1..], zl, zd)
  {
    assert ts[k..][1..] == ts[k + 1..];
  }

  lemma BodyEnd(ts: seq<Token>, zl: Sizes, zd: Sizes)
    requires |zl| == 288 && |zd| == 32 && AllCoded(ts, zl, zd)
    ensures ValidTokens([]) && BodyBits([], zl, zd) == Code(zl, 256) && Used(zl, 256)
  {
  }

  lemma ReadNext(all: seq<Byte>, pos: nat, ts: seq<Token>, k: nat, pending: seq<Token>, rest: seq<Token>, flags: nat, left: nat)
    requires pos <= |all| && k <= |ts| && Reading(all[pos..], pending, rest, flags, left) && pending != []
    requires pending + rest == ts[k..]
    ensures k < |ts| && ValidToken(ts[k]) && left > 0
    ensures (flags % 2 != 0) == ts[k].Match? && pending[1..] + rest == ts[k + 1..]
    ensures var n := |TokenBytes(ts[k])|;
            0 < n <= |all| - pos && all[pos..pos + n] == TokenBytes(ts[k])
            && Reading(all[pos + n..], pending[1..], rest, flags / 2, left - 1)
  {
    hide Reading, TokenBytes, ValidToken;
    ReadCode(all[pos..], pending, rest, flags, left);
    assert ts[k] == ts[k..][0] == pending[0];
    assert ts[k + 1..] == ts[k..][1..] == pending[1..] + rest;
    TokenBytesSome(ts[k]);
    var n := |TokenBytes(ts[k])|;
    assert all[pos..][n..] == all[pos + n..] && all[pos..][..n] == all[pos..pos + n];
  }

  /** The match length and distance as the reader takes them out of the buffer. */
  function LengthCode(b: seq<Byte>): nat
    requires |b| == 3
  {
    b[0]
  }

  function DistanceCode(b: seq<Byte>): nat
    requires |b| == 3
  {
    b[1] as int + 256 * b[2] as int
  }

  lemma MatchBytes(t: Token)
    requires ValidToken(t)
    ensures t.Literal? ==> TokenBytes(t) == [t.byte]
    ensures t.Match? ==> |TokenBytes(t)| == 3 && LengthCode(TokenBytes(t)) < 256 && DistanceCode(TokenBytes(t)) < 32768
    ensures t.Match? ==> t == Match(LengthCode(TokenBytes(t)) + 3, DistanceCode(TokenBytes(t)) + 1)
  {
  }

  /** Sends the code at `pos` and returns the position of the next. */
  method SendCode(w: Writer, buf: array<Byte>, pos: nat, isMatch: bool, lit: array<nat>, litCodes: array<nat>,
    dist: array<nat>, distCodes: array<nat>, ghost t: Token, ghost zl: Sizes, ghost zd: Sizes) returns (next: nat)
    requires w.Valid() && |zl| == 288 && |zd| == 32 && ValidToken(t) && Coded(t, zl, zd) && isMatch == t.Match?
    requires lit[..] == zl && Table(zl, litCodes[..]) && dist[..] == zd && Table(zd, distCodes[..])
    requires pos + |TokenBytes(t)| <= buf.Length && buf[pos..pos + |TokenBytes(t)|] == TokenBytes(t)
    modifies w
    ensures w.Valid() && w.sent == old(w.sent) + TokenBits(t, zl, zd)
    ensures old(w.out) <= w.out && next == pos + |TokenBytes(t)|
  {
    hide Table, w.Valid, TokenBytes, TokenBits, Coded;
    MatchBytes(t);
    if isMatch {
      var matchLen, matchDist := LengthCode(buf[pos..pos + 3]), DistanceCode(buf[pos..pos + 3]);
      next := pos + 3;
      SendMatch(w, lit, litCodes, dist, distCodes, matchLen, matchDist, zl, zd);
    } else {
      var b := buf[pos];
      assert buf[pos..pos + 1] == [b];
      next := pos + 1;
      SendLiteral(w, lit, litCodes, b, zl, zd);
    }
  }

  lemma Slice(buf: array<Byte>, end: nat, lo: nat, hi: nat)
    requires lo <= hi <= end <= buf.Length
    ensures buf[lo..hi] == buf[..end][lo..hi]
  {
  }

  /** A new flag byte when the last one is used up, with a marker above its eight bits. */
  method NextFlags(buf: array<Byte>, end: nat, pos: nat, flags: nat, ghost pending: seq<Token>, ghost rest: seq<Token>, ghost left: nat)
    returns (pos': nat, flags': nat, ghost pending': seq<Token>, ghost rest': seq<Token>, ghost left': nat)
    requires pos < end <= buf.Length && Reading(buf[..end][pos..], pending, rest, flags, left)
    ensures pos <= pos' <= end && Reading(buf[..end][pos'..], pending', rest', flags', left')
    ensures pending' != [] && pending' + rest' == pending + rest
  {
    hide *;
    pos', flags', pending', rest', left' := pos, flags, pending, rest, left;
    ghost var all := buf[..end];
    FlagsLeft(all[pos..], pending, rest, flags, left);
    if flags == 1 {
      assert all[pos..][1..] == all[pos + 1..];
      flags' := buf[pos] as int + 256;
      pos' := pos + 1;
      ghost var g := GroupSize(rest);
      pending', rest', left' := rest[..g], rest[g..], 8;
      GroupThere(rest);
    }
  }

  lemma GroupThere(rest: seq<Token>)
    requires rest != []
    ensures rest[..GroupSize(rest)] != []
  {
  }

  /** `tdefl_compress_lz_codes`: reads the packed codes back and sends the block's body. */
  method CompressLzCodes(w: Writer, buf: array<Byte>, end: nat, lit: array<nat>, litCodes: array<nat>,
    dist: array<nat>, distCodes: array<nat>, ghost ts: seq<Token>, ghost zl: Sizes, ghost zd: Sizes)
    requires w.Valid() && end <= buf.Length && ValidTokens(ts) && buf[..end] == Packed(ts)
    requires lit[..] == zl && |zl| == 288 && Table(zl, litCodes[..]) && dist[..] == zd && |zd| == 32 && Table(zd, distCodes[..])
    requires AllCoded(ts, zl, zd)
    modifies w
    ensures w.Valid() && w.sent == old(w.sent) + BodyBits(ts, zl, zd)
    ensures old(w.out) <= w.out
  {
    hide *;
    var pos: nat, flags: nat := 0, 1;
    ghost var k: nat, left: nat, pending, rest := 0, 0, [], ts;
    ghost var all := buf[..end];
    StartReading(ts);
    assert all[0..] == all && ts[0..] == ts;
    while pos < end
      invariant pos <= end && k <= |ts| && w.Valid() && old(w.out) <= w.out && Reading(all[pos..], pending, rest, flags, left)
      invariant pending + rest == ts[k..] && ValidTokens(ts[k..]) && buf[..end] == all
      invariant w.sent + BodyBits(ts[k..], zl, zd) == old(w.sent) + BodyBits(ts, zl, zd)
      decreases |ts| - k
    {
      pos, flags, pending, rest, left := NextFlags(buf, end, pos, flags, pending, rest, left);
      ReadNext(all, pos, ts, k, pending, rest, flags, left);
      BodyStep(ts, k, zl, zd);
      Slice(buf, end, pos, pos + |TokenBytes(ts[k])|);
      pos := SendCode(w, buf, pos, flags % 2 != 0, lit, litCodes, dist, distCodes, ts[k], zl, zd);
      flags := flags / 2;
      pending, left, k := pending[1..], left - 1, k + 1;
    }
    assert all[pos..] == [];
    DoneReading(pending, rest, flags, left);
    assert ts[k..] == [];
    BodyEnd(ts, zl, zd);
    PutCode(w, lit, litCodes, 256);
  }

  /** Codes for given sizes (`static_table`): count the sizes, then assign as usual. */
  method StaticTable(sizes: array<nat>) returns (codes: array<nat>)
    requires forall t :: 0 <= t < sizes.Length ==> 1 <= sizes[t] <= 15
    ensures fresh(codes) && CanonicalCodes(sizes[..], codes[..])
  {
    var num := new int[33](_ => 0);
    var i := 0;
    while i < sizes.Length
      invariant i <= sizes.Length && forall e: nat :: e < 33 ==> num[e] == Count(sizes[..], e, i)
    {
      num[sizes[i]] := num[sizes[i]] + 1;
      i := i + 1;
    }
    hide Count, First;
    var nextCode := HuffmanTable.FirstCodes(sizes[..], num, 15);
    codes := AssignCodes(sizes, nextCode, 15);
  }

  /** `tdefl_start_static_block` */
  method StartStaticBlock(w: Writer)
    returns (lit: array<nat>, litCodes: array<nat>, dist: array<nat>, distCodes: array<nat>)
    requires w.Valid()
    modifies w
    ensures w.Valid() && lit[..] == StaticLit() && dist[..] == StaticDist()
    ensures Table(StaticLit(), litCodes[..]) && Table(StaticDist(), distCodes[..])
    ensures w.sent == old(w.sent) + LowBits(1, 2)
    ensures old(w.out) <= w.out
  {
    hide LowBits, w.Valid, Complete, CanonicalCodes;
    lit := new nat[288];
    var i := 0;
    while i < 288
      modifies lit
      invariant i <= 288 && forall j :: 0 <= j < i ==> lit[j] == StaticLitSize(j)
    {
      lit[i] := StaticLitSize(i);
      i := i + 1;
    }
    dist := new nat[32](_ => 5);
    assert lit[..] == StaticLit() && dist[..] == StaticDist();
    litCodes := StaticTable(lit);
    distCodes := StaticTable(dist);
    StaticComplete();
    ShortPowers();
    w.PutBits(1, 2);
  }

  /** Every token can be sent with the static codes. */
  lemma StaticCodes(ts: seq<Token>)
    requires ValidTokens(ts)
    ensures AllCoded(ts, StaticLit(), StaticDist())
  {
    forall i | 0 <= i < |ts| ensures Coded(ts[i], StaticLit(), StaticDist()) {
      if ts[i].Match? { DistanceRoundTrip(ts[i].dist - 1); }
    }
  }
}
