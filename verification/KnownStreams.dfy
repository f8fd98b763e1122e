/** Compressed streams byte by byte, one of each kind of block, and what they stand for. */
module KnownStreams {
  import opened Bits
  import opened CanonicalCode
  import opened HuffmanDecode
  import opened CodeSizeRle
  import opened BlockFormat
  import opened BlockHeader
  import opened DeflateStream
  import opened InflateSpec
  import opened StreamMeaning
  import opened DeflateLists

  /** The number whose lowest bit is the first bit of the bytes. */
  function Number(bytes: seq<Byte>): nat {
    if bytes == [] then 0 else bytes[0] + 256 * Number(bytes[1..])
  }

  /** Two numbers in a row. */
  lemma Join(a: nat, k: nat, b: nat, m: nat)
    requires a < Pow2(k)
    ensures LowBits(a, k) + LowBits(b, m) == LowBits(a + Pow2(k) * b, k + m)
  {
    hide LowBits, Pow2;
    var n := a + Pow2(k) * b;
    ModUnique(n, Pow2(k), b, a);
    LowBitsPrefix(n, k + m, k);
    LowBitsSuffix(n, k + m, k);
    ShrIsDiv(n, k);
    SameLow(n, a, k);
  }

  lemma SameLow(n: nat, a: nat, k: nat)
    requires n % Pow2(k) == a
    ensures LowBits(n, k) == LowBits(a, k)
  {
    hide LowBits, Pow2;
    var bits := LowBits(n, k);
    ToNatOfLowBits(n, k);
    LowBitsCount(n, k);
    assert Pow2(|bits|) * 0 == 0;
    LowBitsOfToNat(bits, 0);
  }

  lemma {:induction false} BytesNumber(bytes: seq<Byte>)
    ensures ByteBits(bytes) == LowBits(Number(bytes), 8 * |bytes|)
  {
    hide LowBits;
    if bytes == [] {
      LowBitsCount(0, 0);
    } else {
      BytesNumber(bytes[1..]);
      assert Pow2(8) == 256;
      Join(bytes[0], 8, Number(bytes[1..]), 8 * |bytes[1..]|);
    }
  }

  /** A stream of one block. */
  lemma OneBlock(body: Body, n: nat, m: nat, bytes: seq<Byte>, capacity: nat)
    requires ValidBody(body) && FitsBody([], body) && |Effect([], body)| <= capacity
    requires BlockBody(body, 1) == LowBits(n, m) && Number(bytes) == 1 + 2 * n && m + 1 <= 8 * |bytes|
    ensures |ByteBits(bytes)| == 8 * |bytes|
    ensures ReadBlocks([], capacity, ByteBits(bytes)) == Parsed(Effect([], body), ByteBits(bytes)[m + 1..])
  {
    hide LowBits, ByteBits, BlockBody, Effect, FitsBody, ValidBody, ReadBlocks, Number;
    var b := Block(true, body);
    AppendBlock([], b);
    assert [] + [b] == [b];
    EmptyMessage();
    assert Pow2(1) == 2;
    OneBit();
    Join(1, 1, n, m);
    BytesNumber(bytes);
    ByteBitsLength(bytes);
    LowBitsPrefix(1 + 2 * n, 8 * |bytes|, m + 1);
    LowBitsCount(n, m);
    assert Message([b]) == ByteBits(bytes)[..m + 1];
    assert Whole([b]);
    StreamMeans([b], ByteBits(bytes), capacity);
  }

  lemma OneBit()
    ensures LowBits(1, 1) == [true]
  {
  }

  lemma EmptyMessage()
    ensures ValidBlocks([]) && Message([]) == [] && Played([]) == [] && AllFit([])
  {
  }

  /** A stored block: "AA" as it stands. */
  lemma StoredStream(capacity: nat)
    requires capacity >= 2
    ensures ReadBlocks([], capacity, ByteBits([0x01, 0x02, 0x00, 0xFD, 0xFF, 0x41, 0x41])) == Parsed([65, 65], [])
  {
    hide LowBits, ByteBits, ReadBlocks, Number, BlockBody;
    var bytes: seq<Byte> := [0x01, 0x02, 0x00, 0xFD, 0xFF, 0x41, 0x41];
    StoredBody();
    StoredNumber();
    OneBlock(Stored([65, 65]), 0x20_A0FF_FE80_0100, 55, bytes, capacity);
    assert ByteBits(bytes)[56..] == [] && Effect([], Stored([65, 65])) == [65, 65];
  }

  lemma StoredBody()
    ensures BlockBody(Stored([65, 65]), 1) == LowBits(0x20_A0FF_FE80_0100, 55)
  {
    hide LowBits, Pow2, ByteBits;
    Powers();
    BytesNumber([65, 65]);
    assert Number([65, 65]) == 0x4141;
    Join(65533, 16, 0x4141, 16);
    Join(2, 16, 0x4141_FFFD, 32);
    Join(0, 5, 0x4141_FFFD_0002, 48);
    Join(0, 2, 0x4141_FFFD_0002 * 32, 53);
  }

  lemma StoredNumber()
    ensures Number([0x01, 0x02, 0x00, 0xFD, 0xFF, 0x41, 0x41]) == 1 + 2 * 0x20_A0FF_FE80_0100
  {
    hide Number;
    var bytes: seq<Byte> := [0x01, 0x02, 0x00, 0xFD, 0xFF, 0x41, 0x41];
    NumberEnd(bytes);
    NumberFrom(bytes, 6, 0);
    NumberFrom(bytes, 5, 0x41);
    NumberFrom(bytes, 4, 0x4141);
    NumberFrom(bytes, 3, 0x41_41FF);
    NumberFrom(bytes, 2, 0x4141_FFFD);
    NumberFrom(bytes, 1, 0x41_41FF_FD00);
    NumberFrom(bytes, 0, 0x4141_FFFD_0002);
  }

  /** One byte more in front. */
  lemma NumberFrom(bytes: seq<Byte>, i: nat, n: nat)
    requires i < |bytes| && Number(bytes[i + 1..]) == n
    ensures Number(bytes[i..]) == bytes[i] + 256 * n
  {
    assert bytes[i..][1..] == bytes[i + 1..];
  }

  lemma NumberEnd(bytes: seq<Byte>)
    ensures Number(bytes[|bytes|..]) == 0 && bytes[0..] == bytes
  {
  }

  /** A static block: six letters, and a match with extra bits in its length and its distance. */
  lemma StaticStream(capacity: nat)
    requires capacity >= 20
    ensures ReadBlocks([], capacity, ByteBits([0x4B, 0x4C, 0x4C, 0x4A, 0x4C, 0x4A, 0x42, 0x25, 0x01]))
      == Parsed([97, 97, 98, 97, 98, 98, 97, 97, 98, 97, 98, 98, 97, 97, 98, 97, 98, 98, 97, 97], [])
  {
    hide LowBits, ByteBits, ReadBlocks, Number, BlockBody, Effect, FitsBody;
    var bytes: seq<Byte> := [0x4B, 0x4C, 0x4C, 0x4A, 0x4C, 0x4A, 0x42, 0x25, 0x01];
    StaticBody();
    StaticNumber();
    SixAndMatchPlay();
    OneBlock(Static(SixAndMatch()), 0x92A1_2526_2526_2625, 71, bytes, capacity);
    assert ByteBits(bytes)[72..] == [];
  }

  function SixAndMatch(): seq<Token> {
    [Literal(97), Literal(97), Literal(98), Literal(97), Literal(98), Literal(98), Match(14, 6)]
  }

  lemma SixAndMatchPlay()
    ensures FitsBody([], Static(SixAndMatch()))
    ensures Effect([], Static(SixAndMatch()))
      == [97, 97, 98, 97, 98, 98, 97, 97, 98, 97, 98, 98, 97, 97, 98, 97, 98, 98, 97, 97]
  {
    hide Copy, Expand, Fits;
    var ts := SixAndMatch();
    SixPlay(ts);
    CopySix([97, 97, 98, 97, 98, 98]);
    LastPlays(ts);
  }

  lemma SixPlay(ts: seq<Token>)
    requires ts == SixAndMatch()
    ensures Fits([], ts[..6]) && Expand([], ts[..6]) == [97, 97, 98, 97, 98, 98]
  {
    hide Expand, Fits;
    EmptyPlays();
    assert ts[..0] == [];
    LetterPlays(ts, 0);
    LetterPlays(ts, 1);
    LetterPlays(ts, 2);
    LetterPlays(ts, 3);
    LetterPlays(ts, 4);
    LetterPlays(ts, 5);
  }

  lemma EmptyPlays()
    ensures Fits([], []) && Expand([], []) == []
  {
  }

  /** One literal more. */
  lemma LetterPlays(ts: seq<Token>, i: nat)
    requires i < |ts| && ts[i].Literal? && Fits([], ts[..i])
    ensures Fits([], ts[..i + 1]) && Expand([], ts[..i + 1]) == Expand([], ts[..i]) + [ts[i].byte]
  {
    assert ts[..i + 1][..i] == ts[..i];
  }

  lemma LastPlays(ts: seq<Token>)
    requires ts != [] && ts[|ts| - 1].Match? && Fits([], ts[..|ts| - 1])
    requires 1 <= ts[|ts| - 1].dist <= |Expand([], ts[..|ts| - 1])|
    ensures Fits([], ts) && Expand([], ts) == Copy(Expand([], ts[..|ts| - 1]), ts[|ts| - 1].dist, ts[|ts| - 1].len)
  {
  }

  /** A copy that overlaps what it writes. */
  lemma CopySix(six: seq<Byte>)
    requires |six| == 6
    ensures Copy(six, 6, 14) == six + six + six + six[..2]
  {
    assert Copy(six, 6, 2) == six + six[..2];
    assert Copy(six, 6, 4) == six + six[..4];
    assert Copy(six, 6, 6) == six + six;
    assert Copy(six, 6, 8) == six + six + six[..2];
    assert Copy(six, 6, 10) == six + six + six[..4];
    assert Copy(six, 6, 12) == six + six + six;
  }

  lemma StaticBody()
    ensures ValidBody(Static(SixAndMatch()))
    ensures BlockBody(Static(SixAndMatch()), 1) == LowBits(0x92A1_2526_2526_2625, 71)
  {
    hide LowBits, Pow2, BodyBits, MsbBits, StaticLit, StaticDist;
    var ts := SixAndMatch();
    Powers();
    LetterWords();
    MatchBits();
    assert ts[6..] == [Match(14, 6)];
    LetterBits(ts, 5, 0x49, 0x24A8, 21);
    LetterBits(ts, 4, 0x49, 0x24_A849, 29);
    LetterBits(ts, 3, 0x89, 0x24A8_4949, 37);
    LetterBits(ts, 2, 0x49, 0x24_A849_4989, 45);
    LetterBits(ts, 1, 0x89, 0x24A8_4949_8949, 53);
    LetterBits(ts, 0, 0x89, 0x24_A849_4989_4989, 61);
    assert ts[0..] == ts;
    Join(1, 2, 0x24A8_4949_8949_8989, 69);
  }

  /** One literal more in front. */
  lemma LetterBits(ts: seq<Token>, i: nat, r: nat, n: nat, m: nat)
    requires ValidTokens(ts) && i < |ts| && ts[i].Literal? && ts[i].byte < 144 && r < 256
    requires MsbBits(0x30 + ts[i].byte, 8) == LowBits(r, 8)
    requires BodyBits(ts[i + 1..], StaticLit(), StaticDist()) == LowBits(n, m)
    ensures BodyBits(ts[i..], StaticLit(), StaticDist()) == LowBits(r + 256 * n, m + 8)
  {
    hide LowBits, MsbBits, StaticLit, StaticDist, Code, Pow2;
    Powers();
    StaticWords(ts[i].byte);
    assert ts[i..][1..] == ts[i + 1..];
    Join(r, 8, n, m);
  }

  lemma MatchBits()
    ensures BodyBits([Match(14, 6)], StaticLit(), StaticDist()) == LowBits(0x24A8, 21)
  {
    hide LowBits, MsbBits, StaticLit, StaticDist, Code;
    MatchWords();
    BodyEnd();
    StaticWords(266);
    StaticWords(4);
    Powers();
    Join(1, 1, 0, 7);
    Join(4, 5, 1, 8);
    Join(1, 1, 0x24, 13);
    Join(0x28, 7, 0x49, 14);
  }

  lemma BodyEnd()
    ensures BodyBits([], StaticLit(), StaticDist()) == LowBits(0, 7)
  {
    StaticWords(256);
    MatchWords();
  }

  /** Code words as numbers whose lowest bit is sent first. */
  lemma MatchWords()
    ensures MsbBits(0, 7) == LowBits(0, 7) && MsbBits(10, 7) == LowBits(0x28, 7) && MsbBits(4, 5) == LowBits(4, 5)
  {
  }

  lemma LetterWords()
    ensures MsbBits(0x91, 8) == LowBits(0x89, 8) && MsbBits(0x92, 8) == LowBits(0x49, 8)
  {
    hide MsbBits, LowBits, Pow2;
    Powers();
    HalfWords();
    TwoWords(9, 4, 1, 4);
    Join(9, 4, 8, 4);
    TwoWords(9, 4, 2, 4);
    Join(9, 4, 4, 4);
  }

  lemma HalfWords()
    ensures MsbBits(9, 4) == LowBits(9, 4) && MsbBits(1, 4) == LowBits(8, 4) && MsbBits(2, 4) == LowBits(4, 4)
  {
  }

  /** Two code words in a row, as one. */
  lemma HalfOf(y: nat, b: nat)
    ensures (2 * y + b) / 2 == y + b / 2 && (2 * y + b) % 2 == b % 2
  {
  }

  lemma {:induction false} TwoWords(a: nat, n: nat, b: nat, k: nat)
    requires b < Pow2(k)
    ensures MsbBits(a * Pow2(k) + b, n + k) == MsbBits(a, n) + MsbBits(b, k)
  {
    if k == 0 {
      assert a * Pow2(0) == a;
    } else {
      TwoWords(a, n, b / 2, k - 1);
      assert a * Pow2(k) == 2 * (a * Pow2(k - 1));
      HalfOf(a * Pow2(k - 1), b);
    }
  }

  lemma StaticNumber()
    ensures Number([0x4B, 0x4C, 0x4C, 0x4A, 0x4C, 0x4A, 0x42, 0x25, 0x01]) == 1 + 2 * 0x92A1_2526_2526_2625
  {
    hide Number;
    var bytes: seq<Byte> := [0x4B, 0x4C, 0x4C, 0x4A, 0x4C, 0x4A, 0x42, 0x25, 0x01];
    NumberEnd(bytes);
    NumberFrom(bytes, 8, 0);
    NumberFrom(bytes, 7, 1);
    NumberFrom(bytes, 6, 0x125);
    NumberFrom(bytes, 5, 0x1_2542);
    NumberFrom(bytes, 4, 0x125_424A);
    NumberFrom(bytes, 3, 0x1_2542_4A4C);
    NumberFrom(bytes, 2, 0x125_424A_4C4A);
    NumberFrom(bytes, 1, 0x1_2542_4A4C_4A4C);
    NumberFrom(bytes, 0, 0x125_424A_4C4A_4C4C);
  }

  /** A block with its own codes, in which 65 and the end of block have one bit each: "AA". */
  lemma DynamicStream(capacity: nat)
    requires capacity >= 2
    ensures var p := ReadBlocks([], capacity, ByteBits([0x05, 0xC0, 0x81, 0x00, 0x00, 0x00, 0x00, 0x00, 0x90, 0x36, 0xFF, 0x53, 0x10]));
            p.Parsed? && p.value == [65, 65] && |p.rest| == 3
  {
    hide *;
    var bytes: seq<Byte> := [0x05, 0xC0, 0x81, 0x00, 0x00, 0x00, 0x00, 0x00, 0x90, 0x36, 0xFF, 0x53, 0x10];
    DynamicBody();
    DynamicNumber();
    TwoLetters();
    OneBlock(Dynamic(OwnHeader(), [Literal(65), Literal(65)]), 0x8_29FF_9B48_0000_0000_0040_E002, 100, bytes, capacity);
  }

  function Ones(n: nat, a: nat, b: nat): (z: Sizes)
    ensures |z| == n && forall i :: 0 <= i < n ==> z[i] == if i == a || i == b then 1 else 0
  {
    seq(n, i requires 0 <= i < n => if i == a || i == b then 1 else 0)
  }

  function OwnItems(): seq<Item> {
    [Run(18, 54), Size(1), Run(18, 127), Run(18, 41), Size(1), Size(1)]
  }

  function OwnHeader(): Header {
    Header(Ones(288, 65, 256), Ones(32, 0, 0), Ones(19, 1, 18), 257, 1, 18, OwnItems())
  }

  /** Two symbols of one bit each. */
  lemma TwoOnes(n: nat, a: nat, b: nat)
    requires a < b < n
    ensures Complete(Ones(n, a, b)) && Code(Ones(n, a, b), a) == [false] && Code(Ones(n, a, b), b) == [true]
  {
    hide Count, Total, First, Pow2, MsbBits, Ones;
    var z := Ones(n, a, b);
    forall len: nat | len > 0 ensures Total(z, len) == if len == 1 then 2 else 0 { OnesCount(n, a, b, len); }
    OnesCount(n, a, b, 1);
    OnesFirst(z);
    OneWords();
  }

  lemma OneWords()
    ensures MsbBits(0, 1) == [false] && MsbBits(1, 1) == [true]
  {
  }

  lemma OnesFirst(z: Sizes)
    requires forall len: nat :: len > 0 ==> Total(z, len) == if len == 1 then 2 else 0
    ensures First(z, 1) == 0 && First(z, 16) == 65536
  {
    hide Total, Pow2;
    FirstDoubles(z, 2, 16);
    StaticFirst(z, 1);
    FourteenBits();
  }

  lemma FourteenBits()
    ensures Pow2(14) == 16384
  {
    Pow2Add(7, 7);
    assert Pow2(7) == 128;
  }

  lemma OnesCount(n: nat, a: nat, b: nat, len: nat)
    requires a < b < n && len > 0
    ensures var z := Ones(n, a, b);
            Total(z, len) == (if len == 1 then 2 else 0) && Count(z, 1, a) == 0 && Count(z, 1, b) == 1
  {
    hide Count, Ones;
    var z := Ones(n, a, b);
    forall e: nat | e > 0
      ensures Count(z, e, a) == 0 && Count(z, e, b) == (if e == 1 then 1 else 0) && Count(z, e, n) == (if e == 1 then 2 else 0)
    {
      NoneCounted(z, e);
      CountStretch(z, 0, e, 0, a);
      CountStretch(z, 1, e, a, a + 1);
      CountStretch(z, 0, e, a + 1, b);
      CountStretch(z, 1, e, b, b + 1);
      CountStretch(z, 0, e, b + 1, n);
    }
  }

  lemma TwoLetters()
    ensures |Effect([], Dynamic(OwnHeader(), [Literal(65), Literal(65)]))| == 2
    ensures Effect([], Dynamic(OwnHeader(), [Literal(65), Literal(65)])) == [65, 65]
    ensures FitsBody([], Dynamic(OwnHeader(), [Literal(65), Literal(65)]))
  {
    var ts := [Literal(65), Literal(65)];
    hide Expand, Fits;
    EmptyPlays();
    assert ts[..0] == [] && ts[..2] == ts;
    LetterPlays(ts, 0);
    LetterPlays(ts, 1);
  }

  lemma OwnHeaderValid()
    ensures ValidHeader(OwnHeader())
  {
    hide Accepted, Used, Unpacked, Ones;
    OwnAccepted();
    OwnUnpacked();
    OwnSendable();
  }

  lemma OwnAccepted()
    ensures Accepted(Ones(288, 65, 256)) && Accepted(Ones(32, 0, 0)) && Accepted(Ones(19, 1, 18))
  {
    hide Complete;
    TwoOnes(288, 65, 256);
    TwoOnes(19, 1, 18);
    hide Ones;
    OneUsed(Ones(32, 0, 0), 32);
  }

  lemma {:induction false} OneUsed(z: Sizes, k: nat)
    requires k <= |z| && forall i :: 1 <= i < |z| ==> z[i] == 0
    ensures UsedCount(z, k) <= 1 && UsedCount(z, 0) == 0
  {
    if k > 1 { OneUsed(z, k - 1); }
  }

  lemma OwnSendable()
    ensures AllSendable(OwnItems(), Ones(19, 1, 18)) && RepeatsSomething(OwnItems())
  {
    hide Unpacked, Ones;
  }

  lemma OwnUnpacked()
    ensures Unpacked(OwnItems()) == Ones(288, 65, 256)[..257] + Ones(32, 0, 0)[..1]
  {
    hide Unpacked, Ones;
    var items := OwnItems();
    assert items[..0] == [] && items[..6] == items;
    UnpackOne(items, 0);
    UnpackOne(items, 1);
    UnpackOne(items, 2);
    UnpackOne(items, 3);
    UnpackOne(items, 4);
    UnpackOne(items, 5);
  }

  lemma UnpackOne(items: seq<Item>, i: nat)
    requires i < |items|
    ensures Unpacked(items[..i + 1]) == Unpacked(items[..i]) + Meaning(Unpacked(items[..i]), items[i])
    ensures Unpacked([]) == []
  {
    assert items[..i + 1][..i] == items[..i];
  }

  lemma DynamicBody()
    ensures ValidBody(Dynamic(OwnHeader(), [Literal(65), Literal(65)]))
    ensures BlockBody(Dynamic(OwnHeader(), [Literal(65), Literal(65)]), 1) == LowBits(0x8_29FF_9B48_0000_0000_0040_E002, 100)
  {
    hide LowBits, Pow2, HeaderBits, BodyBits, ValidHeader, Ones;
    OwnHeaderValid();
    TwoLetterBits();
    OwnHeaderBits(BodyBits([Literal(65), Literal(65)], Ones(288, 65, 256), Ones(32, 0, 0)));
    Powers();
    Join(2, 2, 0x2_0A7F_E6D2_0000_0000_0010_3800, 98);
  }

  lemma TwoLetterBits()
    ensures AllCoded([Literal(65), Literal(65)], Ones(288, 65, 256), Ones(32, 0, 0))
    ensures BodyBits([Literal(65), Literal(65)], Ones(288, 65, 256), Ones(32, 0, 0)) == LowBits(4, 3)
  {
    hide Code, Ones, LowBits;
    var z, d := Ones(288, 65, 256), Ones(32, 0, 0);
    TwoOnes(288, 65, 256);
    var two := [Literal(65), Literal(65)];
    assert two[1..] == [Literal(65)] && two[1..][1..] == [];
    ThreeBits();
  }

  lemma ThreeBits()
    ensures LowBits(4, 3) == [false, false, true]
  {
  }

  /** The header, in front of anything. */
  lemma OwnHeaderBits(tail: BitString)
    requires ValidHeader(OwnHeader()) && tail == LowBits(4, 3)
    ensures HeaderBits(OwnHeader()) + tail == LowBits(0x2_0A7F_E6D2_0000_0000_0010_3800, 98)
  {
    hide LowBits, Pow2, ValidHeader, Ones, LensBits, ItemsBits;
    var h := OwnHeader();
    OwnItemsBits(tail);
    OwnLensBits();
    Powers();
    FiftyFourBits();
    Join(0x8_0000_0000_0040, 54, 0x20A7_FE6D, 30);
    Join(14, 4, 0x8_29FF_9B48_0000_0000_0040, 84);
    Join(0, 5, 0x82_9FF9_B480_0000_0000_040E, 88);
    Join(0, 5, 0x1053_FF36_9000_0000_0000_81C0, 93);
    var sizes := LensBits(h.lens, 0, 18) + (ItemsBits(h.items, h.lens) + tail);
    assert HeaderBits(h) + tail == LowBits(0, 5) + (LowBits(0, 5) + (LowBits(14, 4) + sizes));
  }

  lemma OwnItemsBits(tail: BitString)
    requires AllSendable(OwnItems(), Ones(19, 1, 18)) && tail == LowBits(4, 3)
    ensures ItemsBits(OwnItems(), Ones(19, 1, 18)) + tail == LowBits(0x20A7_FE6D, 30)
  {
    hide *;
    var items := OwnItems();
    OwnItemsAre();
    NoItems(Ones(19, 1, 18));
    assert items[6..] == [] && [] + tail == tail;
    PlainItem(items, 5, tail, 4, 3);
    PlainItem(items, 4, tail, 8, 4);
    RunItem(items, 3, tail, 0x10, 5);
    RunItem(items, 2, tail, 0x1053, 13);
    PlainItem(items, 1, tail, 0x10_53FF, 21);
    RunItem(items, 0, tail, 0x20_A7FE, 22);
    assert items[0..] == items;
  }

  lemma OwnItemsAre()
    ensures OwnItems() == [Run(18, 54), Size(1), Run(18, 127), Run(18, 41), Size(1), Size(1)]
  {
  }

  lemma NoItems(lens: Sizes)
    ensures ItemsBits([], lens) == []
  {
  }

  /** One item more in front: a size, which has the code word 0, or a long run of zeros, which has 1. */
  lemma PlainItem(items: seq<Item>, i: nat, tail: BitString, n: nat, m: nat)
    requires i < |items| && items[i] == Size(1) && AllSendable(items, Ones(19, 1, 18))
    requires ItemsBits(items[i + 1..], Ones(19, 1, 18)) + tail == LowBits(n, m)
    ensures ItemsBits(items[i..], Ones(19, 1, 18)) + tail == LowBits(2 * n, m + 1)
  {
    hide Code, Ones;
    TwoOnes(19, 1, 18);
    ItemsFrom(items, i, tail);
  }

  lemma RunItem(items: seq<Item>, i: nat, tail: BitString, n: nat, m: nat)
    requires i < |items| && items[i].Run? && items[i].symbol == 18 && items[i].extra < 128 && AllSendable(items, Ones(19, 1, 18))
    requires ItemsBits(items[i + 1..], Ones(19, 1, 18)) + tail == LowBits(n, m)
    ensures ItemsBits(items[i..], Ones(19, 1, 18)) + tail == LowBits(1 + 2 * (items[i].extra + 128 * n), m + 8)
  {
    hide ItemsBits, ItemBits, Ones, LowBits, Code, Used;
    RunIs(items[i]);
    ItemsFrom(items, i, tail);
    RunBits(items[i].extra, n, m);
  }

  lemma RunIs(t: Item)
    requires t.Run? && t.symbol == 18 && t.extra < 128 && Sendable(t, Ones(19, 1, 18))
    ensures ItemBits(t, Ones(19, 1, 18)) == [true] + LowBits(t.extra, 7)
  {
    hide Code, Ones, LowBits;
    TwoOnes(19, 1, 18);
  }

  lemma RunBits(extra: nat, n: nat, m: nat)
    requires extra < 128
    ensures [true] + LowBits(extra, 7) + LowBits(n, m) == LowBits(1 + 2 * (extra + 128 * n), m + 8)
  {
    hide LowBits, Pow2;
    Powers();
    OneBit();
    Join(extra, 7, n, m);
    Join(1, 1, extra + 128 * n, m + 7);
  }

  lemma ItemsFrom(items: seq<Item>, i: nat, tail: BitString)
    requires i < |items| && AllSendable(items, Ones(19, 1, 18))
    ensures ItemsBits(items[i..], Ones(19, 1, 18)) + tail
      == ItemBits(items[i], Ones(19, 1, 18)) + (ItemsBits(items[i + 1..], Ones(19, 1, 18)) + tail)
  {
    hide ItemBits, Ones;
    assert items[i..][1..] == items[i + 1..];
  }

  lemma OwnLensBits()
    ensures LensBits(Ones(19, 1, 18), 0, 18) == LowBits(0x8_0000_0000_0040, 54)
  {
    hide LowBits, Pow2, LensBits;
    var z := Ones(19, 1, 18);
    LensEnd();
    ZeroLens(3);
    Powers();
    FortyTwoBits();
    LensFrom(2, 0x400_0000_0000, 45);
    LensFrom(1, 0x2000_0000_0001, 48);
    LensFrom(0, 0x1_0000_0000_0008, 51);
  }

  /** Fourteen sizes of nothing, and one. */
  lemma {:induction false} ZeroLens(i: nat)
    requires 3 <= i <= 17
    ensures LensBits(Ones(19, 1, 18), i, 18) == LowBits(Pow2(3 * (17 - i)), 3 * (18 - i))
    decreases 17 - i
  {
    hide LowBits, LensBits;
    if i == 17 {
      LensEnd();
      LensFrom(17, 0, 0);
    } else {
      ZeroLens(i + 1);
      LensFrom(i, Pow2(3 * (16 - i)), 3 * (17 - i));
      Eightfold(3 * (16 - i));
    }
  }

  lemma Eightfold(k: nat)
    ensures Pow2(k + 3) == 8 * Pow2(k)
  {
    assert Pow2(k + 2) == 2 * Pow2(k + 1);
  }

  /** One size more in front, of three bits. */
  lemma LensFrom(i: nat, n: nat, m: nat)
    requires i < 18 && LensBits(Ones(19, 1, 18), i + 1, 18) == LowBits(n, m)
    ensures LensBits(Ones(19, 1, 18), i, 18) == LowBits((if i == 2 || i == 17 then 1 else 0) + 8 * n, m + 3)
  {
    hide LowBits, Pow2, Ones;
    Powers();
    var lens, one := Ones(19, 1, 18), if i == 2 || i == 17 then 1 else 0;
    assert lens[Swizzle(i)] == one;
    assert LensBits(lens, i, 18) == LowBits(one, 3) + LensBits(lens, i + 1, 18);
    Join(one, 3, n, m);
  }

  lemma LensEnd()
    ensures LensBits(Ones(19, 1, 18), 18, 18) == LowBits(0, 0)
  {
  }

  lemma FortyTwoBits()
    ensures Pow2(42) == 0x400_0000_0000
  {
    Pow2Sixteen();
    Pow2Add(16, 16);
    Pow2Add(32, 10);
  }

  lemma FiftyFourBits()
    ensures Pow2(54) == 0x40_0000_0000_0000
  {
    FortyTwoBits();
    Pow2Add(2, 10);
    Pow2Sixteen();
    Pow2Add(42, 12);
  }

  lemma DynamicNumber()
    ensures Number([0x05, 0xC0, 0x81, 0x00, 0x00, 0x00, 0x00, 0x00, 0x90, 0x36, 0xFF, 0x53, 0x10]) == 1 + 2 * 0x8_29FF_9B48_0000_0000_0040_E002
  {
    hide *;
    var bytes: seq<Byte> := [0x05, 0xC0, 0x81, 0x00, 0x00, 0x00, 0x00, 0x00, 0x90, 0x36, 0xFF, 0x53, 0x10];
    DynamicTail(bytes);
    NumberFrom(bytes, 6, 0x1053_FF36_9000);
    NumberFrom(bytes, 5, 0x10_53FF_3690_0000);
    NumberFrom(bytes, 4, 0x1053_FF36_9000_0000);
    NumberFrom(bytes, 3, 0x10_53FF_3690_0000_0000);
    NumberFrom(bytes, 2, 0x1053_FF36_9000_0000_0000);
    NumberFrom(bytes, 1, 0x10_53FF_3690_0000_0000_0081);
    NumberFrom(bytes, 0, 0x1053_FF36_9000_0000_0000_81C0);
  }

  lemma DynamicTail(bytes: seq<Byte>)
    requires |bytes| == 13 && bytes[7..] == [0x00, 0x90, 0x36, 0xFF, 0x53, 0x10]
    ensures Number(bytes[7..]) == 0x1053_FF36_9000 && bytes[0..] == bytes
  {
    hide *;
    NumberEnd(bytes);
    assert bytes[8] == bytes[7..][1] && bytes[9] == bytes[7..][2] && bytes[10] == bytes[7..][3];
    assert bytes[11] == bytes[7..][4] && bytes[12] == bytes[7..][5];
    NumberFrom(bytes, 12, 0);
    NumberFrom(bytes, 11, 0x10);
    NumberFrom(bytes, 10, 0x1053);
    NumberFrom(bytes, 9, 0x10_53FF);
    NumberFrom(bytes, 8, 0x1053_FF36);
    NumberFrom(bytes, 7, 0x10_53FF_3690);
  }

  lemma Powers()
    ensures Pow2(1) == 2 && Pow2(2) == 4 && Pow2(3) == 8 && Pow2(4) == 16 && Pow2(5) == 32 && Pow2(7) == 128 && Pow2(8) == 256 && Pow2(16) == 65536
  {
    Pow2Sixteen();
    assert Pow2(5) == 32;
  }

  /** The fourth block type is refused, whatever follows. */
  lemma FourthType(last: bool, out: seq<Byte>, capacity: nat, rest: BitString)
    ensures ReadBlock(out, capacity, [last, true, true] + rest) == Bad
  {
    var bits := [last, true, true] + rest;
    assert bits[..3] == [last] + ([true] + [true]);
    ThreeFlags(last);
    hide ReadStored, ReadCodes, ReadTables;
  }

  lemma ThreeFlags(last: bool)
    ensures ToNat([last] + ([true] + [true])) == BitValue(last) + 6
  {
    assert ([last] + ([true] + [true]))[1..] == [true, true] && [true, true][1..] == [true];
  }

  /** A stored block whose second length is not the complement of the first is refused; any other has so many bytes. */
  lemma Complement(n: nat, c: nat, out: seq<Byte>, capacity: nat, rest: BitString)
    requires n < 65536 && c < 65536
    ensures ReadSized(out, capacity, LowBits(n, 16) + (LowBits(c, 16) + rest))
      == if n + c == 65535 then ReadBytes(n, out, capacity, rest) else Bad
  {
    hide LowBits, Pow2, ReadBytes, ReadNumber;
    Powers();
    NumberIs(16, n, LowBits(n, 16) + (LowBits(c, 16) + rest), LowBits(c, 16) + rest);
    NumberIs(16, c, LowBits(c, 16) + rest, rest);
  }

  /** A match that reaches back before the first byte, or runs past the room for output, is refused. */
  lemma OutOfReach(dist: Sizes, sym: nat, out: seq<Byte>, capacity: nat, bits: BitString)
    requires 257 <= sym <= 285 && ReadReach(dist, sym, bits).Parsed?
    ensures var r := ReadReach(dist, sym, bits).value;
            r.back > |out| || r.len > capacity - |out| || r.back == 0 <==> ReadCopy(dist, sym, out, capacity, bits) == Bad
  {
    hide ReadReach;
  }

  /** A repeat with nothing to repeat is refused. */
  lemma NothingToRepeat(bits: BitString)
    ensures ReadExtra([], 16, bits) == Bad
  {
    hide ReadNumber;
  }
}
