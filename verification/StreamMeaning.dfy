/** What the bit-level reading makes of a stream of valid blocks: exactly what the blocks play. */
module StreamMeaning {
  import opened Bits
  import opened CanonicalCode
  import opened HuffmanDecode
  import opened BlockFormat
  import opened BlockHeader
  import opened DeflateStream
  import opened InflateSpec
  import opened HeaderMeaning

  /** The first token's effect comes first. */
  lemma {:induction false} ExpandFront(out: seq<Byte>, ts: seq<Token>)
    requires ts != []
    ensures Expand(out, ts) == Expand(Expand(out, ts[..1]), ts[1..])
    ensures Fits(out, ts) <==> Fits(out, ts[..1]) && Fits(Expand(out, ts[..1]), ts[1..])
  {
    hide Copy;
    var n := |ts| - 1;
    if n == 0 {
      assert ts[..1] == ts && ts[1..] == [];
    } else {
      ExpandFront(out, ts[..n]);
      assert ts[..n][..1] == ts[..1] && ts[..n][1..] == ts[1..][..n - 1];
    }
  }

  lemma ExpandOne(out: seq<Byte>, t: Token)
    ensures Fits(out, [t]) <==> (t.Match? ==> 1 <= t.dist <= |out|)
    ensures t.Literal? ==> Expand(out, [t]) == out + [t.byte]
    ensures t.Match? && 1 <= t.dist <= |out| ==> Expand(out, [t]) == Copy(out, t.dist, t.len)
  {
    hide Copy;
    assert [t][..0] == [];
  }

  /** The decoder's vectors give the tokens' symbols the same codes. */
  ghost predicate Suits(t: Tables, lit: Sizes, dist: Sizes) {
    Proper(t) && Accepted(t.lit) && Accepted(t.dist) && |lit| == 288 && |dist| == 32 && SameCodes(t.lit, lit) && SameCodes(t.dist, dist)
  }

  lemma SymbolHere(z: Sizes, full: Sizes, s: nat, rest: BitString)
    requires Accepted(z) && SameCodes(z, full) && Used(full, s)
    ensures ReadSymbol(z, Code(full, s) + rest) == Parsed(s, rest)
  {
    hide Code, Accepted;
    SymbolNext(z, s, rest);
  }

  lemma BodyFirst(ts: seq<Token>, lit: Sizes, dist: Sizes, tail: BitString)
    requires |lit| == 288 && |dist| == 32 && AllCoded(ts, lit, dist) && ts != []
    ensures ValidToken(ts[0]) && Coded(ts[0], lit, dist) && AllCoded(ts[1..], lit, dist) && ValidTokens(ts[1..])
    ensures BodyBits(ts, lit, dist) + tail == TokenBits(ts[0], lit, dist) + (BodyBits(ts[1..], lit, dist) + tail)
  {
    hide TokenBits, Coded;
  }

  lemma BodyLast(lit: Sizes, dist: Sizes, tail: BitString)
    requires |lit| == 288 && |dist| == 32 && AllCoded([], lit, dist)
    ensures Used(lit, 256) && BodyBits([], lit, dist) + tail == Code(lit, 256) + tail
  {
  }

  /** The bits of a match, piece by piece, and what the tables make of the numbers. */
  lemma MatchPieces(t: Token, lit: Sizes, dist: Sizes, rest: BitString)
    requires ValidToken(t) && t.Match? && |lit| == 288 && |dist| == 32 && Coded(t, lit, dist)
    ensures var l, d := t.len - 3, t.dist - 1;
            && 0 <= l < 256 && 0 <= d < 32768 && 257 <= LenSym(l) <= 285 && DistSym(d) < 30
            && Used(lit, LenSym(l)) && Used(dist, DistSym(d))
            && LengthExtra(LenSym(l) - 257) == LenExtra(l) && LengthBase(LenSym(l) - 257) + l % Pow2(LenExtra(l)) == t.len
            && DistanceExtra(DistSym(d)) == DistExtra(d) && DistanceBase(DistSym(d)) + d % Pow2(DistExtra(d)) == t.dist
            && TokenBits(t, lit, dist) + rest
               == Code(lit, LenSym(l)) + (LowBits(l % Pow2(LenExtra(l)), LenExtra(l))
                  + (Code(dist, DistSym(d)) + (LowBits(d % Pow2(DistExtra(d)), DistExtra(d)) + rest)))
  {
    hide Code, LowBits, Pow2, LenSym, LenExtra, DistSym, DistExtra, LengthBase, LengthExtra, DistanceBase, DistanceExtra;
    LengthRoundTrip(t.len - 3);
    DistanceRoundTrip(t.dist - 1);
    var l, d := t.len - 3, t.dist - 1;
    Chain(Code(lit, LenSym(l)), LowBits(l % Pow2(LenExtra(l)), LenExtra(l)), Code(dist, DistSym(d)), LowBits(d % Pow2(DistExtra(d)), DistExtra(d)), rest);
  }

  lemma Chain(a: BitString, b: BitString, c: BitString, d: BitString, rest: BitString)
    ensures (a + b + (c + d)) + rest == a + (b + (c + (d + rest)))
  {
  }

  lemma ModBelow(n: nat, k: nat)
    ensures Pow2(k) > 0 && n % Pow2(k) < Pow2(k)
  {
  }

  /** A match is read as the copy it stands for. */
  lemma MatchMeans(t: Tables, m: Token, lit: Sizes, dist: Sizes, out: seq<Byte>, capacity: nat, rest: BitString)
    requires Suits(t, lit, dist) && ValidToken(m) && m.Match? && Coded(m, lit, dist)
    requires 1 <= m.dist <= |out| && |out| + m.len <= capacity
    ensures ReadCodes(t, out, capacity, TokenBits(m, lit, dist) + rest) == ReadCodes(t, Copy(out, m.dist, m.len), capacity, rest)
  {
    hide Code, LowBits, Pow2, LenSym, LenExtra, DistSym, DistExtra, LengthBase, LengthExtra, DistanceBase, DistanceExtra, Accepted, SameCodes,
      ReadSymbol, ReadNumber, TokenBits, Coded, Copy, ReadSpecial, ReadCodes;
    MatchPieces(m, lit, dist, rest);
    var l, d := m.len - 3, m.dist - 1;
    var v, x := l % Pow2(LenExtra(l)), d % Pow2(DistExtra(d));
    var r3 := LowBits(x, DistExtra(d)) + rest;
    var r2 := Code(dist, DistSym(d)) + r3;
    var r1 := LowBits(v, LenExtra(l)) + r2;
    SymbolHere(t.lit, lit, LenSym(l), r1);
    ModBelow(l, LenExtra(l));
    NumberIs(LenExtra(l), v, r1, r2);
    SymbolHere(t.dist, dist, DistSym(d), r3);
    ModBelow(d, DistExtra(d));
    NumberIs(DistExtra(d), x, r3, rest);
    CodesStep(t, out, capacity, Code(lit, LenSym(l)) + r1);
    SpecialStep(t, LenSym(l), out, capacity, r1);
  }

  lemma SpecialStep(t: Tables, sym: nat, out: seq<Byte>, capacity: nat, bits: BitString)
    requires Proper(t) && 257 <= sym <= 287
    ensures var p := ReadCopy(t.dist, sym, out, capacity, bits);
            ReadSpecial(t, sym, out, capacity, bits) == if p.Parsed? then ReadCodes(t, p.value, capacity, p.rest) else p
  {
    hide ReadCopy, ReadCodes;
  }

  /** A block's body is read as what its tokens stand for. */
  lemma {:induction false} TokensMean(t: Tables, ts: seq<Token>, lit: Sizes, dist: Sizes, out: seq<Byte>, capacity: nat, tail: BitString)
    requires Suits(t, lit, dist) && AllCoded(ts, lit, dist) && Fits(out, ts) && |Expand(out, ts)| <= capacity
    ensures ReadCodes(t, out, capacity, BodyBits(ts, lit, dist) + tail) == Parsed(Expand(out, ts), tail)
    decreases |ts|
  {
    hide *;
    SuitsParts(t, lit, dist);
    if ts == [] {
      BodyLast(lit, dist, tail);
      SymbolHere(t.lit, lit, 256, tail);
      CodesStep(t, out, capacity, Code(lit, 256) + tail);
      EndOfBlock(t, out, capacity, tail);
      ExpandNone(out);
    } else {
      var m, next := ts[0], Expand(out, ts[..1]);
      BodyFirst(ts, lit, dist, tail);
      ExpandFront(out, ts);
      assert ts[..1] == [m];
      ExpandOne(out, m);
      var rest := BodyBits(ts[1..], lit, dist) + tail;
      FirstLength(out, m, next);
      if m.Literal? {
        LiteralPieces(m, lit, dist);
        SymbolHere(t.lit, lit, m.byte, rest);
        CodesStep(t, out, capacity, Code(lit, m.byte) + rest);
      } else {
        MatchMeans(t, m, lit, dist, out, capacity, rest);
      }
      TokensMean(t, ts[1..], lit, dist, next, capacity, tail);
    }
  }

  lemma SuitsParts(t: Tables, lit: Sizes, dist: Sizes)
    requires Suits(t, lit, dist)
    ensures Proper(t) && Accepted(t.lit) && Accepted(t.dist) && |lit| == 288 && |dist| == 32 && SameCodes(t.lit, lit) && SameCodes(t.dist, dist)
  {
  }

  lemma EndOfBlock(t: Tables, out: seq<Byte>, capacity: nat, bits: BitString)
    requires Proper(t)
    ensures ReadSpecial(t, 256, out, capacity, bits) == Parsed(out, bits)
  {
  }

  lemma ExpandNone(out: seq<Byte>)
    ensures Expand(out, []) == out
  {
  }

  lemma FirstLength(out: seq<Byte>, m: Token, next: seq<Byte>)
    requires next == Expand(out, [m])
    ensures m.Literal? ==> |next| == |out| + 1
    ensures m.Match? && 1 <= m.dist <= |out| ==> |next| == |out| + m.len
  {
    ExpandOne(out, m);
  }

  lemma LiteralPieces(m: Token, lit: Sizes, dist: Sizes)
    requires |lit| == 288 && |dist| == 32 && ValidToken(m) && m.Literal? && Coded(m, lit, dist)
    ensures Used(lit, m.byte) && m.byte < 256 && TokenBits(m, lit, dist) == Code(lit, m.byte)
  {
  }

  lemma StoredOrder(bytes: seq<Byte>, tail: BitString)
    requires |bytes| < 65536
    ensures StoredBits(bytes) + tail == LowBits(|bytes|, 16) + (LowBits(65535 - |bytes|, 16) + (ByteBits(bytes) + tail))
  {
    hide LowBits, ByteBits;
  }

  lemma SkipsPadding(at: nat, stream: BitString, body: BitString, tail: BitString)
    requires (at + |stream|) % 8 == 0 && stream == LowBits(0, Padding(at)) + body + tail
    ensures stream[|stream| % 8..] == body + tail
  {
    hide LowBits;
    PaddingIs(at, |stream|);
    assert stream == LowBits(0, Padding(at)) + (body + tail);
  }

  lemma PaddingIs(at: nat, n: nat)
    requires (at + n) % 8 == 0
    ensures Padding(at) == n % 8
  {
  }

  function TypeOf(b: Body): (t: nat)
    ensures t < 3
  {
    match b case Stored(_) => 0 case Static(_) => 1 case Dynamic(_, _) => 2
  }

  /** What follows a block's first three bits. */
  ghost function AfterType(b: Body, at: nat): BitString
    requires ValidBody(b)
  {
    match b
    case Stored(bytes) => LowBits(0, Padding(at + 3)) + StoredBits(bytes)
    case Static(ts) => BodyBits(ts, StaticLit(), StaticDist())
    case Dynamic(h, ts) => HeaderBits(h) + BodyBits(ts, h.lit, h.dist)
  }

  lemma FirstThree(b: Block, at: nat, tail: BitString)
    requires ValidBody(b.body)
    ensures BitValue(b.last) + 2 * TypeOf(b.body) < Pow2(3)
    ensures BlockBits(b, at) + tail == LowBits(BitValue(b.last) + 2 * TypeOf(b.body), 3) + (AfterType(b.body, at) + tail)
  {
    hide LowBits, BlockBody, AfterType, Pow2, TypeOf;
    ThreeBits(b.last, TypeOf(b.body));
    BodyFront(b.body, at);
    var x, y := LowBits(TypeOf(b.body), 2), AfterType(b.body, at);
    assert ([b.last] + (x + y)) + tail == ([b.last] + x) + (y + tail);
  }

  lemma ThreeBits(last: bool, t: nat)
    requires t < 3
    ensures BitValue(last) + 2 * t < Pow2(3) && LowBits(BitValue(last) + 2 * t, 3) == [last] + LowBits(t, 2)
  {
    HeaderMeaning.SmallNumbers();
  }

  lemma BodyFront(b: Body, at: nat)
    requires ValidBody(b)
    ensures BlockBody(b, at + 1) == LowBits(TypeOf(b), 2) + AfterType(b, at)
  {
    hide LowBits, BodyBits, HeaderBits, StoredBits, StaticLit, StaticDist, ValidHeader, AllCoded, ValidTokens, Padding;
  }

  lemma AllValidTokens(ts: seq<Token>, lit: Sizes, dist: Sizes)
    requires |lit| == 288 && |dist| == 32 && AllCoded(ts, lit, dist)
    ensures ValidTokens(ts)
  {
  }

  lemma StaticCoded(ts: seq<Token>)
    requires ValidTokens(ts)
    ensures AllCoded(ts, StaticLit(), StaticDist())
  {
    forall i | 0 <= i < |ts| ensures Coded(ts[i], StaticLit(), StaticDist()) {
      if ts[i].Match? { DistanceRoundTrip(ts[i].dist - 1); }
    }
  }

  /** Bytes as they stand are read back. */
  lemma {:induction false} BytesBack(bytes: seq<Byte>, tail: BitString)
    ensures |ByteBits(bytes)| == 8 * |bytes| && BytesOf(ByteBits(bytes) + tail, |bytes|) == bytes
  {
    hide LowBits;
    ByteBitsLength(bytes);
    if bytes != [] {
      BytesBack(bytes[1..], tail);
      var bits := ByteBits(bytes) + tail;
      EightLow(bytes[0]);
      assert bits[..8] == LowBits(bytes[0], 8) && bits[8..] == ByteBits(bytes[1..]) + tail;
    }
  }

  lemma EightLow(b: Byte)
    ensures |LowBits(b, 8)| == 8 && ToNat(LowBits(b, 8)) == b
  {
    ToNatOfLowBits(b, 8);
    assert Pow2(8) == 256;
  }

  lemma StoredMeans(bytes: seq<Byte>, at: nat, out: seq<Byte>, capacity: nat, tail: BitString)
    requires |bytes| < 65536 && |out| + |bytes| <= capacity
    requires (at + |LowBits(0, Padding(at)) + StoredBits(bytes) + tail|) % 8 == 0
    ensures ReadStored(out, capacity, LowBits(0, Padding(at)) + StoredBits(bytes) + tail) == Parsed(out + bytes, tail)
  {
    hide LowBits, Pow2, ByteBits, StoredBits, Padding, BytesOf, ReadNumber;
    var bits := LowBits(0, Padding(at)) + StoredBits(bytes) + tail;
    SkipsPadding(at, bits, StoredBits(bytes), tail);
    StoredOrder(bytes, tail);
    var n := |bytes|;
    var r2 := ByteBits(bytes) + tail;
    var r1 := LowBits(65535 - n, 16) + r2;
    Sixteen();
    NumberIs(16, n, LowBits(n, 16) + r1, r1);
    NumberIs(16, 65535 - n, r1, r2);
    BytesBack(bytes, tail);
    assert r2[8 * n..] == tail;
  }

  lemma Sixteen()
    ensures Pow2(16) == 65536
  {
    Pow2Sixteen();
  }

  ghost predicate Fitting(b: Body, out: seq<Byte>, capacity: nat) {
    ValidBody(b) && FitsBody(out, b) && |Effect(out, b)| <= capacity
  }

  lemma {:induction false} MessagePrefix(blocks: seq<Block>, k: nat)
    requires ValidBlocks(blocks) && k <= |blocks|
    ensures ValidBlocks(blocks[..k]) && Message(blocks[..k]) <= Message(blocks)
    ensures Played(blocks[..k]) <= Played(blocks)
  {
    hide BlockBits, Effect;
    if k < |blocks| {
      var most := blocks[..|blocks| - 1];
      MessagePrefix(most, k);
      assert most[..k] == blocks[..k];
    } else {
      assert blocks[..k] == blocks;
    }
  }

  /** Where block `i` sits in a stream of bits, and what it adds to the output. */
  lemma BlockAt(blocks: seq<Block>, i: nat, bits: BitString)
    requires Whole(blocks) && i < |blocks| && Message(blocks) <= bits
    ensures ValidBlocks(blocks[..i]) && ValidBlocks(blocks[..i + 1]) && ValidBody(blocks[i].body)
    ensures |Message(blocks[..i])| <= |Message(blocks[..i + 1])| <= |bits|
    ensures bits[|Message(blocks[..i])|..] == BlockBits(blocks[i], |Message(blocks[..i])|) + bits[|Message(blocks[..i + 1])|..]
    ensures Played(blocks[..i + 1]) == Effect(Played(blocks[..i]), blocks[i].body)
    ensures Fitting(blocks[i].body, Played(blocks[..i]), |Played(blocks)|)
    ensures blocks[i].last <==> i + 1 == |blocks|
  {
    hide BlockBits, ValidBody, FitsBody, Effect;
    MessagePrefix(blocks, i);
    MessagePrefix(blocks, i + 1);
    assert blocks[..i + 1][..i] == blocks[..i];
    var a, b := Message(blocks[..i]), Message(blocks[..i + 1]);
    assert b == a + BlockBits(blocks[i], |a|);
    assert bits == b + bits[|b|..];
  }

  /** A block after its type. */
  lemma ContentMeans(b: Body, at: nat, out: seq<Byte>, capacity: nat, tail: BitString)
    requires Fitting(b, out, capacity) && (at + 3 + |AfterType(b, at) + tail|) % 8 == 0
    ensures ReadContent(TypeOf(b), out, capacity, AfterType(b, at) + tail) == Parsed(Effect(out, b), tail)
  {
    hide LowBits, Padding, StoredBits, BodyBits, HeaderBits, Accepted, ReadStored, ReadCodes, ReadTables, Fits, Expand, AllCoded, StaticLit, StaticDist,
      ValidHeader, ValidTokens, SameCodes;
    match b {
      case Stored(bytes) =>
        StoredMeans(bytes, at + 3, out, capacity, tail);
      case Static(ts) =>
        StaticCoded(ts);
        StaticSuits();
        TokensMean(StaticTables(), ts, StaticLit(), StaticDist(), out, capacity, tail);
      case Dynamic(h, ts) =>
        HeaderTrims(h);
        AllValidTokens(ts, h.lit, h.dist);
        var body := BodyBits(ts, h.lit, h.dist) + tail;
        HeaderMeans(h, body);
        assert HeaderBits(h) + BodyBits(ts, h.lit, h.dist) + tail == HeaderBits(h) + body;
        TokensMean(Tables(h.lit[..h.numLit], h.dist[..h.numDist]), ts, h.lit, h.dist, out, capacity, tail);
    }
  }

  lemma StaticSuits()
    ensures Suits(StaticTables(), StaticLit(), StaticDist())
  {
    hide Complete, Code, StaticLit, StaticDist;
    StaticComplete();
  }

  lemma BlockMeans(b: Block, at: nat, out: seq<Byte>, capacity: nat, tail: BitString)
    requires Fitting(b.body, out, capacity) && (at + |BlockBits(b, at) + tail|) % 8 == 0
    ensures ReadBlock(out, capacity, BlockBits(b, at) + tail) == Parsed(Read(b.last, Effect(out, b.body)), tail)
  {
    hide LowBits, Pow2, AfterType, BlockBits, ReadContent, ReadNumber, Effect, FitsBody, ValidBody, TypeOf;
    FittingBody(b.body, out, capacity);
    FirstThree(b, at, tail);
    var v, rest := BitValue(b.last) + 2 * TypeOf(b.body), AfterType(b.body, at) + tail;
    ThreeLong(v);
    NumberIs(3, v, LowBits(v, 3) + rest, rest);
    ContentMeans(b.body, at, out, capacity, tail);
    LastAndType(b.last, TypeOf(b.body));
  }

  lemma FittingBody(b: Body, out: seq<Byte>, capacity: nat)
    requires Fitting(b, out, capacity)
    ensures ValidBody(b)
  {
  }

  lemma ThreeLong(v: nat)
    ensures |LowBits(v, 3)| == 3
  {
  }

  lemma LastAndType(last: bool, t: nat)
    requires t < 3
    ensures var v := BitValue(last) + 2 * t; (v % 2 == 1) == last && v / 2 == t
  {
  }

  /** From any block on, the stream is read as what the blocks play. */
  lemma {:induction false} MessageMeans(blocks: seq<Block>, i: nat, bits: BitString, capacity: nat)
    requires Whole(blocks) && i < |blocks| && Message(blocks) <= bits && |bits| % 8 == 0 && |Played(blocks)| <= capacity
    ensures ValidBlocks(blocks[..i]) && |Message(blocks[..i])| <= |bits|
    ensures ReadBlocks(Played(blocks[..i]), capacity, bits[|Message(blocks[..i])|..]) == Parsed(Played(blocks), bits[|Message(blocks)|..])
    decreases |blocks| - i
  {
    hide Message, Played, BlockBits, ReadBlock, Effect, FitsBody, ValidBody, Whole;
    BlockAt(blocks, i, bits);
    var at := |Message(blocks[..i])|;
    var rest := bits[|Message(blocks[..i + 1])|..];
    FittingMore(blocks[i].body, Played(blocks[..i]), |Played(blocks)|, capacity);
    BlockMeans(blocks[i], at, Played(blocks[..i]), capacity, rest);
    if i + 1 == |blocks| {
      assert blocks[..i + 1] == blocks;
    } else {
      MessageMeans(blocks, i + 1, bits, capacity);
    }
  }

  lemma FittingMore(b: Body, out: seq<Byte>, c: nat, capacity: nat)
    requires Fitting(b, out, c) && c <= capacity
    ensures Fitting(b, out, capacity)
  {
  }

  /** The stream of these blocks, whatever follows it. */
  lemma StreamMeans(blocks: seq<Block>, bits: BitString, capacity: nat)
    requires Whole(blocks) && Message(blocks) <= bits && |bits| % 8 == 0 && |Played(blocks)| <= capacity
    ensures ReadBlocks([], capacity, bits) == Parsed(Played(blocks), bits[|Message(blocks)|..])
  {
    hide BlockBits, ReadBlocks, Effect, FitsBody, ValidBody, AllFit;
    MessageMeans(blocks, 0, bits, capacity);
    assert blocks[..0] == [] && bits[0..] == bits;
  }

  lemma {:induction false} ZeroBits(len: nat)
    ensures MsbBits(0, len) == seq(len, _ => false)
  {
    if len > 0 { ZeroBits(len - 1); }
  }

  /** The code word of a lone symbol is all zeros. */
  lemma LoneCode(z: Sizes, s: nat)
    requires UsedCount(z, |z|) == 1 && Used(z, s)
    ensures Code(z, s) == seq(z[s], _ => false) && forall t: nat :: Used(z, t) ==> t == s
  {
    SoleUsed(z, |z|, s);
    FirstZero(z, z[s]);
    NoneOfSize(z, z[s], s);
    ZeroBits(z[s]);
  }

  lemma {:induction false} CountUsed(z: Sizes, len: nat, k: nat)
    requires k <= |z| && len > 0
    ensures Count(z, len, k) <= UsedCount(z, k)
  {
    if k > 0 { CountUsed(z, len, k - 1); }
  }

  lemma LoneIncomplete(z: Sizes, s: nat)
    requires UsedCount(z, |z|) == 1 && Used(z, s)
    ensures !Complete(z)
  {
    var len := z[s];
    LoneCode(z, s);
    forall t | 0 <= t < |z| && t != s ensures z[t] == 0 { assert !Used(z, t); }
    FirstZero(z, len);
    CountUsed(z, len, |z|);
    forall e: nat | len + 1 <= e < 16 ensures Total(z, e) == 0 { NoneOfSize(z, e, |z|); }
    hide Count, Code, UsedCount;
    StaticFirst(z, len);
    FirstDoubles(z, len + 1, 16);
    Pow2Monotone(15 - len, 14);
    HalfSize();
    Bits.MulMonotone(Pow2(15 - len), First(z, len + 1), 2);
  }

  lemma HalfSize()
    ensures Pow2(14) == 16384
  {
    Pow2Sixteen();
    assert Pow2(16) == 2 * Pow2(15) == 4 * Pow2(14);
  }

  /** A code without symbols reads every bit string of fifteen bits or more as symbol 0, and takes none. */
  lemma EmptyReads(z: Sizes, bits: BitString)
    requires UsedCount(z, |z|) == 0
    ensures ReadSymbol(z, bits) == if |bits| >= 15 then Parsed(0, bits) else Bad
  {
    forall s: nat ensures !Used(z, s) { if Used(z, s) { SoleUsed(z, |z|, s); } }
    forall t | 0 <= t < |z| ensures z[t] == 0 { assert !Used(z, t); }
    FirstZero(z, 16);
    hide Code, Stray;
    assert !exists p: BitString :: Internal(z, p);
    assert bits[0..] == bits;
  }

  /** What bits are read as that begin with `k` zeros, by a code whose only symbol has `z[s]` bits: the
      symbol when there are so many zeros; else symbol 0, from the zeros and the one after them if a
      long code has led into the tree, and from no bits at all otherwise. */
  lemma LoneReads(z: Sizes, s: nat, bits: BitString, k: nat)
    requires UsedCount(z, |z|) == 1 && Used(z, s)
    requires k <= |bits| && (forall i :: 0 <= i < k ==> !bits[i]) && (k < |bits| ==> bits[k])
    ensures ReadSymbol(z, bits) ==
      if z[s] <= k then Parsed(s, bits[z[s]..])
      else if 10 <= k < |bits| then Parsed(0, bits[k + 1..])
      else if |bits| >= 15 then Parsed(0, bits)
      else Bad
  {
    hide Code, Complete, UsedCount, Stray;
    LoneCode(z, s);
    LoneIncomplete(z, s);
    LoneBegins(z, s, bits, k);
    if k < z[s] { LoneStray(z, s, bits, k); }
    assert bits[0..] == bits;
  }

  lemma LoneBegins(z: Sizes, s: nat, bits: BitString, k: nat)
    requires Used(z, s) && Code(z, s) == seq(z[s], _ => false) && forall t: nat :: Used(z, t) ==> t == s
    requires k <= |bits| && (forall i :: 0 <= i < k ==> !bits[i]) && (k < |bits| ==> bits[k])
    ensures Begins(z, bits, s) <==> z[s] <= k
    ensures forall t: nat :: Begins(z, bits, t) ==> t == s
  {
    hide Code;
    if z[s] <= k {
      assert bits[..z[s]] == Code(z, s);
    } else {
      assert !Code(z, s)[k];
    }
  }

  lemma LoneStray(z: Sizes, s: nat, bits: BitString, k: nat)
    requires Used(z, s) && Code(z, s) == seq(z[s], _ => false) && forall t: nat :: Used(z, t) ==> t == s
    requires k <= |bits| && (forall i :: 0 <= i < k ==> !bits[i]) && (k < |bits| ==> bits[k])
    requires k < z[s]
    ensures Stray(z, bits) == if 10 <= k < |bits| then k + 1 else 0
  {
    hide Code, Stray, Internal;
    forall n: nat | n <= |bits| ensures Internal(z, bits[..n]) <==> n <= k { ZerosInside(z, s, bits, k, n); }
    if 10 <= k < |bits| {
      assert StraysAt(z, bits, k + 1);
      StraysOnce(z, bits, k + 1, Stray(z, bits));
    }
  }

  lemma ZerosInside(z: Sizes, s: nat, bits: BitString, k: nat, n: nat)
    requires Used(z, s) && Code(z, s) == seq(z[s], _ => false) && forall t: nat :: Used(z, t) ==> t == s
    requires k <= |bits| && (forall i :: 0 <= i < k ==> !bits[i]) && (k < |bits| ==> bits[k])
    requires k < z[s] && n <= |bits|
    ensures Internal(z, bits[..n]) <==> n <= k
  {
    hide Code;
    if n <= k {
      assert bits[..n] < Code(z, s);
    } else if t :| Used(z, t) && bits[..n] < Code(z, t) {
      assert bits[..n][k] == Code(z, s)[k];
    }
  }
}
