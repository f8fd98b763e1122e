/** How many bits a block takes.  Whatever the tokens, a block with its own codes is never much
    larger than one with the static codes, so every block fits the output buffer. */
module BlockSize {
  import opened Bits
  import opened CanonicalCode
  import opened WeightedLengths
  import opened HuffmanDecode
  import opened CodeSizeRle
  import opened BlockFormat
  import opened BlockHeader
  import opened LzBuffer
  import opened HuffmanTable
  import opened DeflateStream
  import opened HashChains
  import HuffmanPlan

  /** The literal table counts the tokens' symbols and one end-of-block. */
  ghost predicate BlockTally(ts: seq<Token>, lit: seq<nat>, dist: seq<nat>)
    requires ValidTokens(ts)
  {
    && |lit| == 288 && |dist| == 32
    && (forall s: nat :: s < 288 && s != 256 ==> lit[s] == LitCount(ts, s))
    && (forall s: nat :: s < 32 ==> dist[s] == DistCount(ts, s))
    && lit[256] == 1 && Sum(lit) == |ts| + 1 && Sum(dist) <= |ts|
  }

  /** Eight times the space a token takes in the code buffer, flag included. */
  function Weight(ts: seq<Token>): nat {
    if ts == [] then 0 else (if ts[0].Literal? then 9 else 25) + Weight(ts[1..])
  }

  lemma {:induction false} WeightIs(g: seq<Token>)
    requires ValidTokens(g)
    ensures Weight(g) == 8 * |CodeBytes(g)| + |g|
  {
    if g != [] { WeightIs(g[1..]); }
  }

  lemma {:induction false} WeightSplit(ts: seq<Token>, n: nat)
    requires n <= |ts|
    ensures Weight(ts) == Weight(ts[..n]) + Weight(ts[n..])
  {
    if n == 0 {
      assert ts[..0] == [] && ts[0..] == ts;
    } else {
      WeightSplit(ts[1..], n - 1);
      assert ts[..n][1..] == ts[1..][..n - 1] && ts[1..][n - 1..] == ts[n..];
    }
  }

  lemma {:induction false} PackedWeight(ts: seq<Token>)
    requires ValidTokens(ts)
    ensures Weight(ts) <= 8 * |Packed(ts)|
  {
    if ts == [] {
    } else if |ts| <= 8 {
      GroupIs(ts);
      WeightIs(ts);
    } else {
      GroupIs(ts[..8]);
      WeightIs(ts[..8]);
      WeightSplit(ts, 8);
      PackedWeight(ts[8..]);
    }
  }

  /** The bits of a token under given code sizes. */
  ghost function Load(t: Token, zl: Sizes, zd: Sizes): nat
    requires ValidToken(t) && |zl| == 288 && |zd| == 32
  {
    match t
    case Literal(b) => zl[b]
    case Match(len, d) =>
      DistanceRoundTrip(d - 1);
      zl[LenSym(len - 3)] + LenExtra(len - 3) + zd[DistSym(d - 1)] + DistExtra(d - 1)
  }

  ghost function Loads(ts: seq<Token>, zl: Sizes, zd: Sizes): nat
    requires ValidTokens(ts) && |zl| == 288 && |zd| == 32
  {
    if ts == [] then 0 else Loads(ts[..|ts| - 1], zl, zd) + Load(ts[|ts| - 1], zl, zd)
  }

  lemma {:induction false} LoadsFront(ts: seq<Token>, zl: Sizes, zd: Sizes)
    requires ValidTokens(ts) && |zl| == 288 && |zd| == 32 && ts != []
    ensures Loads(ts, zl, zd) == Load(ts[0], zl, zd) + Loads(ts[1..], zl, zd)
  {
    hide Load;
    var n := |ts| - 1;
    if n > 0 {
      LoadsFront(ts[..n], zl, zd);
      assert ts[..n][1..] == ts[1..][..n - 1];
    } else {
      assert ts[..0] == [] && ts[1..] == [];
    }
  }

  lemma TokenLength(t: Token, zl: Sizes, zd: Sizes)
    requires ValidToken(t) && |zl| == 288 && |zd| == 32
    ensures |TokenBits(t, zl, zd)| == Load(t, zl, zd)
  {
    hide LowBits, DistExtra, DistSym, LenSym, LenExtra;
    CodeLengths(zl);
    CodeLengths(zd);
    hide Code;
    if t.Match? { DistanceRoundTrip(t.dist - 1); }
  }

  lemma CodeLengths(z: Sizes)
    ensures forall s: nat :: s < |z| ==> |Code(z, s)| == z[s]
  {
  }

  lemma {:induction false} BodyLength(ts: seq<Token>, zl: Sizes, zd: Sizes)
    requires ValidTokens(ts) && |zl| == 288 && |zd| == 32
    ensures |BodyBits(ts, zl, zd)| == Loads(ts, zl, zd) + zl[256]
  {
    hide Load, TokenBits;
    if ts == [] {
      CodeLengths(zl);
    } else {
      TokenLength(ts[0], zl, zd);
      LoadsFront(ts, zl, zd);
      BodyLength(ts[1..], zl, zd);
    }
  }

  /** The extra bits of the tokens, which no code can save. */
  ghost function Extras(ts: seq<Token>): nat
    requires ValidTokens(ts)
  {
    if ts == [] then 0 else
      Extras(ts[..|ts| - 1]) + match ts[|ts| - 1] case Literal(_) => 0 case Match(len, d) => LenExtra(len - 3) + DistExtra(d - 1)
  }

  ghost function LitCounts(ts: seq<Token>): (f: seq<nat>)
    requires ValidTokens(ts)
    ensures |f| == 288 && forall s: nat :: s < 288 ==> f[s] == LitCount(ts, s)
  {
    seq(288, s requires 0 <= s < 288 => LitCount(ts, s))
  }

  ghost function DistCounts(ts: seq<Token>): (f: seq<nat>)
    requires ValidTokens(ts)
    ensures |f| == 32 && forall s: nat :: s < 32 ==> f[s] == DistCount(ts, s)
  {
    seq(32, s requires 0 <= s < 32 => DistCount(ts, s))
  }

  lemma CountOne(ts: seq<Token>, t: Token)
    requires ValidTokens(ts) && ValidToken(t)
    ensures ValidTokens(ts + [t]) && LitSym(t) < 288
    ensures LitCounts(ts + [t]) == LitCounts(ts)[LitSym(t) := LitCounts(ts)[LitSym(t)] + 1]
    ensures if t.Literal? then DistCounts(ts + [t]) == DistCounts(ts)
            else DistSym(t.dist - 1) < 32
                 && DistCounts(ts + [t]) == DistCounts(ts)[DistSym(t.dist - 1) := DistCounts(ts)[DistSym(t.dist - 1)] + 1]
  {
    hide LenSym, DistSym;
    assert (ts + [t])[..|ts|] == ts;
    if t.Match? { DistanceRoundTrip(t.dist - 1); }
  }

  /** Token by token or symbol by symbol, the bits of the codes are the same. */
  lemma {:induction false} LoadsAreCosts(ts: seq<Token>, zl: Sizes, zd: Sizes)
    requires ValidTokens(ts) && |zl| == 288 && |zd| == 32
    ensures Loads(ts, zl, zd) == Cost(LitCounts(ts), zl) + Cost(DistCounts(ts), zd) + Extras(ts)
  {
    hide Cost, LenSym, DistSym, LenExtra, DistExtra, LitCount, DistCount, LitCounts, DistCounts;
    if ts == [] {
      NothingCounted();
      NoCost(LitCounts([]), zl);
      NoCost(DistCounts([]), zd);
    } else {
      var before, t := ts[..|ts| - 1], ts[|ts| - 1];
      LoadsAreCosts(before, zl, zd);
      assert before + [t] == ts;
      CountOne(before, t);
      var lf, df := LitCounts(before), DistCounts(before);
      WeightUpdate(lf, zl, LitSym(t), lf[LitSym(t)] + 1);
      OneMore(lf[LitSym(t)], zl[LitSym(t)]);
      if t.Match? {
        var d := DistSym(t.dist - 1);
        WeightUpdate(df, zd, d, df[d] + 1);
        OneMore(df[d], zd[d]);
      }
    }
  }

  lemma OneMore(a: nat, b: nat)
    ensures (a + 1) * b == a * b + b
  {
  }

  lemma NothingCounted()
    ensures (forall i :: 0 <= i < 288 ==> LitCounts([])[i] == 0) && forall i :: 0 <= i < 32 ==> DistCounts([])[i] == 0
  {
  }

  lemma TallyIs(ts: seq<Token>, lf: seq<nat>, df: seq<nat>)
    requires ValidTokens(ts) && BlockTally(ts, lf, df)
    ensures lf == LitCounts(ts)[256 := LitCounts(ts)[256] + 1] && df == DistCounts(ts) && LitCounts(ts)[256] == 0
  {
    hide LitCount, DistCount, Sum;
    NeverSent(ts, 256);
  }

  /** The size of a block's body from its symbol counts. */
  lemma BodyCost(ts: seq<Token>, lf: seq<nat>, df: seq<nat>, zl: Sizes, zd: Sizes)
    requires ValidTokens(ts) && BlockTally(ts, lf, df) && |zl| == 288 && |zd| == 32
    ensures |lf| == 288 && |df| == 32 && |BodyBits(ts, zl, zd)| == Cost(lf, zl) + Cost(df, zd) + Extras(ts)
  {
    hide *;
    BodyLength(ts, zl, zd);
    LoadsAreCosts(ts, zl, zd);
    TallyIs(ts, lf, df);
    WeightUpdate(LitCounts(ts), zl, 256, 1);
    OneMore(0, zl[256]);
  }

  lemma {:induction false} Stretch(z: seq<nat>, v: nat, b: nat, k: nat)
    requires k <= |z| && v <= b && (forall i :: 0 <= i < k ==> z[i] == v) && forall i :: 0 <= i < |z| ==> z[i] <= b
    ensures Scaled(z, b) == k * Pow2(b - v) + Scaled(z[k..], b)
  {
    hide Pow2;
    if k == 0 {
      assert z[0..] == z;
    } else {
      Stretch(z[1..], v, b, k - 1);
      assert z[1..][k - 1..] == z[k..];
      OneMore(k - 1, Pow2(b - v));
    }
  }

  lemma FullScale(z: seq<nat>, b: nat)
    requires (forall i :: 0 <= i < |z| ==> z[i] <= b) && Scaled(z, b) == Pow2(b)
    ensures Kraft(z) == 1.0
  {
    hide Half, Kraft, Scaled, Pow2, Times;
    KraftIsScaled(z, b);
    HalfTimes(b, 0);
    HalfOfNone();
  }

  lemma HalfOfNone()
    ensures Half(0) == 1.0
  {
  }

  /** The static codes are codes a block could have chosen for itself. */
  lemma StaticRivals(lf: seq<nat>, df: seq<nat>)
    requires |lf| == 288 && |df| == 32
    ensures Rival(lf, StaticLit()) && Rival(df, StaticDist())
  {
    hide Scaled, Kraft, Pow2;
    StaticScale();
    SmallPowers();
    var z, d := StaticLit(), StaticDist();
    FullScale(z, 9);
    FullScale(d, 5);
  }

  lemma StaticScale()
    ensures (forall i :: 0 <= i < 288 ==> StaticLit()[i] <= 9) && Scaled(StaticLit(), 9) == Pow2(9)
    ensures Scaled(StaticDist(), 5) == Pow2(5)
  {
    SizePowers();
    hide Pow2, StaticLit, StaticDist, Scaled;
    var z, d := StaticLit(), StaticDist();
    Between(z, 0, 144, 8, 9);
    Between(z, 144, 256, 9, 9);
    Between(z, 256, 280, 7, 9);
    Between(z, 280, 288, 8, 9);
    Between(d, 0, 32, 5, 5);
    NoScale(z, 9);
    NoScale(d, 5);
  }

  lemma Between(z: seq<nat>, lo: nat, hi: nat, v: nat, b: nat)
    requires lo <= hi <= |z| && v <= b && (forall i :: lo <= i < hi ==> z[i] == v) && forall i :: 0 <= i < |z| ==> z[i] <= b
    ensures Scaled(z[lo..], b) == (hi - lo) * Pow2(b - v) + Scaled(z[hi..], b)
  {
    hide Scaled;
    Stretch(z[lo..], v, b, hi - lo);
    assert z[lo..][hi - lo..] == z[hi..];
  }

  lemma NoScale(z: seq<nat>, b: nat)
    requires forall i :: 0 <= i < |z| ==> z[i] <= b
    ensures Scaled(z[|z|..], b) == 0 && z[0..] == z
  {
  }

  lemma SizePowers()
    ensures Pow2(0) == 1 && Pow2(1) == 2 && Pow2(2) == 4 && Pow2(5) == 32 && Pow2(9) == 512
  {
    assert Pow2(5) == 32;
  }

  /** What a block's own codes can cost over the static ones: 32 bits for every 27 tokens. */
  ghost predicate NearStatic(ts: seq<Token>, zl: Sizes, zd: Sizes)
    requires ValidTokens(ts) && |zl| == 288 && |zd| == 32
  {
    270 * |BodyBits(ts, zl, zd)| <= 270 * |BodyBits(ts, StaticLit(), StaticDist())| + 320 * |ts| + 288
  }

  /** A block's own codes are the best for its symbols when these are few, and nearly so otherwise. */
  ghost predicate BestCodes(ts: seq<Token>, zl: Sizes, zd: Sizes)
    requires ValidTokens(ts)
  {
    forall lf: seq<nat>, df: seq<nat> :: BlockTally(ts, lf, df) ==> BestFor(lf, zl) && BestFor(df, zd)
  }

  ghost predicate BestFor(f: seq<nat>, z: Sizes) {
    NearBest(f, z) && (Sum(f) < HuffmanPlan.Fib(17) ==> Best(f, z))
  }

  lemma TallyOnce(ts: seq<Token>, lf: seq<nat>, df: seq<nat>, zl: Sizes, zd: Sizes)
    requires ValidTokens(ts) && BlockTally(ts, lf, df) && BestFor(lf, zl) && BestFor(df, zd)
    ensures BestCodes(ts, zl, zd)
  {
    hide BestFor, Sum;
    forall lf': seq<nat>, df': seq<nat> | BlockTally(ts, lf', df') ensures lf' == lf && df' == df {}
  }

  lemma BestIsNearStatic(ts: seq<Token>, lf: seq<nat>, df: seq<nat>, zl: Sizes, zd: Sizes)
    requires ValidTokens(ts) && BlockTally(ts, lf, df) && NearBest(lf, zl) && NearBest(df, zd)
    ensures |zl| == 288 && |zd| == 32 && NearStatic(ts, zl, zd)
  {
    hide BodyBits, Cost, Extras, StaticLit, StaticDist, Rival, BlockTally;
    TallySums(ts, lf, df);
    BodyCost(ts, lf, df, zl, zd);
    BodyCost(ts, lf, df, StaticLit(), StaticDist());
    StaticRivals(lf, df);
    assert Near(lf, zl, StaticLit()) && Near(df, zd, StaticDist());
  }

  lemma TallySums(ts: seq<Token>, lf: seq<nat>, df: seq<nat>)
    requires ValidTokens(ts) && BlockTally(ts, lf, df)
    ensures |lf| == 288 && |df| == 32 && Sum(lf) == |ts| + 1 && Sum(df) <= |ts|
  {
  }

  lemma StaticLoad(t: Token)
    requires ValidToken(t)
    ensures Load(t, StaticLit(), StaticDist()) <= if t.Literal? then 9 else 31
  {
    hide LenSym, LenExtra, DistSym, DistExtra, StaticLit, StaticDist;
    if t.Match? { StaticSizes(t.len - 3, t.dist - 1); }
  }

  lemma StaticSizes(l: nat, d: nat)
    requires l < 256 && d < 32768
    ensures LenSym(l) < 288 && DistSym(d) < 32
    ensures StaticLit()[LenSym(l)] <= 8 && LenExtra(l) <= 5 && StaticDist()[DistSym(d)] == 5 && DistExtra(d) <= 13
  {
    hide DistSym, DistExtra, StaticLit, StaticDist;
    DistanceRoundTrip(d);
  }

  /** With the static codes, and with the surcharge of a block's own codes, a token takes little more
      than the bits it takes in the code buffer. */
  lemma {:induction false} StaticLoads(ts: seq<Token>)
    requires ValidTokens(ts)
    ensures 25 * (270 * Loads(ts, StaticLit(), StaticDist()) + 320 * |ts|) <= 8690 * Weight(ts)
  {
    hide StaticLit, StaticDist, Load;
    if ts != [] {
      StaticLoad(ts[0]);
      LoadsFront(ts, StaticLit(), StaticDist());
      StaticLoads(ts[1..]);
    }
  }

  lemma {:induction false} ItemsLength(items: seq<Item>, lens: Sizes)
    requires AllSendable(items, lens) && |lens| == 19 && forall s :: 0 <= s < 19 ==> lens[s] <= 7
    ensures |ItemsBits(items, lens)| <= 14 * |items|
  {
    if items != [] {
      ItemLength(items[0], lens);
      ItemsLength(items[1..], lens);
    }
  }

  lemma ItemLength(t: Item, lens: Sizes)
    requires Sendable(t, lens) && |lens| == 19 && forall s :: 0 <= s < 19 ==> lens[s] <= 7
    ensures |ItemBits(t, lens)| <= 14
  {
    CodeLengths(lens);
    hide Code, LowBits;
  }

  lemma {:induction false} LensLength(lens: Sizes, i: nat, n: nat)
    requires |lens| == 19 && i <= n <= 19
    ensures |LensBits(lens, i, n)| == 3 * (n - i)
    decreases n - i
  {
    if i < n { LensLength(lens, i + 1, n); }
  }

  /** A header takes at most 71 bits and fourteen for every code size. */
  lemma HeaderLength(h: Header)
    requires ValidHeader(h)
    ensures |HeaderBits(h)| <= 71 + 14 * 316
  {
    hide Unpacked, RepeatsSomething, Accepted, Swizzle, LowBits, ItemsBits, LensBits;
    assert |Unpacked(h.items)| == h.numLit + h.numDist;
    ItemsFew(h);
    ItemsLength(h.items, h.lens);
    LensLength(h.lens, 0, h.numLens);
  }

  lemma ItemsFew(h: Header)
    requires ValidHeader(h)
    ensures |h.items| <= |Unpacked(h.items)|
  {
    hide Unpacked, RepeatsSomething, Accepted, Swizzle;
    forall i | 0 <= i < |h.items| ensures ValidItem(h.items[i]) {
      assert Sendable(h.items[i], h.lens);
    }
    UnpackedGrows(h.items);
  }

  const BODY_BITS := 680000

  /** The bits a body takes besides its codes and extra bits. */
  lemma BodyParts(body: Body, at: nat)
    requires ValidBody(body)
    ensures match body
            case Stored(bytes) => |BlockBody(body, at)| <= 42 + 8 * |bytes|
            case Static(ts) => |BlockBody(body, at)| == 2 + |BodyBits(ts, StaticLit(), StaticDist())|
            case Dynamic(h, ts) => |BlockBody(body, at)| == 2 + |HeaderBits(h)| + |BodyBits(ts, h.lit, h.dist)|
  {
    hide BodyBits, HeaderBits, StaticLit, StaticDist, LowBits, ByteBits, ValidHeader;
    if body.Stored? { ByteBitsLength(body.bytes); }
  }

  /** The output buffer is large enough for any code buffer and for any stored block, so the check
      that a block fits never fails. */
  lemma SmallBody(body: Body, at: nat)
    requires ValidBody(body)
    requires !body.Stored? ==> |Packed(body.ts)| <= CODE_BUF_SIZE
    requires body.Stored? ==> |body.bytes| <= DICT_SIZE
    requires body.Dynamic? ==> NearStatic(body.ts, body.header.lit, body.header.dist)
    ensures |BlockBody(body, at)| <= BODY_BITS
  {
    hide BodyBits, HeaderBits, BlockBody, StaticLit, StaticDist, Packed, ValidHeader, Weight, Loads;
    BodyParts(body, at);
    if !body.Stored? {
      PackedWeight(body.ts);
      StaticLoads(body.ts);
      BodyLength(body.ts, StaticLit(), StaticDist());
      if body.Dynamic? { HeaderLength(body.header); }
    }
  }
}
