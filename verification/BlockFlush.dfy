/** Writing out one block: compressed with dynamic or static codes, or stored when that is smaller. */
module BlockFlush {
  import opened Bits
  import opened CanonicalCode
  import opened HuffmanDecode
  import opened BlockFormat
  import opened BlockHeader
  import opened BitWriter
  import opened LzBuffer
  import opened BlockSize
  import opened BlockWriter
  import opened DeflateStream
  import opened HashChains
  import opened LzWindow

  const OUT_CAPACITY := 85180   // TDEFL_OUT_BUF_SIZE - 16

  /** A block of the tokens with the static codes, or with its own, which are at least about as good. */
  ghost predicate Attempt(body: Body, ts: seq<Token>, isStatic: bool) {
    && ValidTokens(ts) && ValidBody(body)
    && if isStatic then body == Static(ts)
       else body.Dynamic? && body.ts == ts && |body.header.lit| == 288 && |body.header.dist| == 32
            && NearStatic(ts, body.header.lit, body.header.dist) && BestCodes(ts, body.header.lit, body.header.dist)
            && ValidHeader(body.header) && ShortHeader(body.header)
  }

  /** The bytes that an attempt fills after `k` bits, and one more, are no fewer than the bytes it stands for. */
  ghost predicate Expanded(body: Body, total: nat, k: nat)
    requires ValidBody(body)
  {
    total > 0 && (k + |BlockBody(body, 0)|) / 8 + 1 >= total
  }

  /** The form of a block: stored if asked for or if an attempt expands, as far as the window holds its bytes; else
      the attempt. */
  ghost predicate Chosen(body: Body, ts: seq<Token>, isStatic: bool, forceRaw: bool, held: bool, total: nat, k: nat) {
    if forceRaw && held then body.Stored?
    else exists tried: Body :: Attempt(tried, ts, isStatic) && if held && Expanded(tried, total, k) then body.Stored? else body == tried
  }

  /** `tdefl_compress_block`: header and body.  False when the output buffer is full. */
  method CompressBlock(w: Writer, codes: TokenBuffer, end: nat, isStatic: bool, ghost ts: seq<Token>)
    returns (ok: bool, ghost body: Body)
    requires w.Valid() && end <= codes.buf.Length && ValidTokens(ts) && codes.buf[..end] == Packed(ts)
    requires codes.litFreq != codes.distFreq && |ts| < 65535 && (!isStatic ==> Tally(ts, codes.litFreq[..], codes.distFreq[..]))
    modifies w, codes.litFreq
    ensures w.Valid() && old(w.out) <= w.out && ok == (|w.out| < w.capacity)
    ensures Attempt(body, ts, isStatic)
    ensures forall at: nat :: w.sent == old(w.sent) + BlockBody(body, at)
  {
    hide Table, AllCoded, LowBits, Pow2, BodyBits, HeaderBits, ValidHeader, Packed, ValidTokens, Tally, StaticLit, StaticDist, w.Valid;
    var lit, litCodes, dist, distCodes;
    if isStatic {
      StaticCodes(ts);
      lit, litCodes, dist, distCodes := StartStaticBlock(w);
      CompressLzCodes(w, codes.buf, end, lit, litCodes, dist, distCodes, ts, StaticLit(), StaticDist());
      body := Static(ts);
    } else {
      ghost var h;
      lit, litCodes, dist, distCodes, h := StartDynamicBlock(w, codes.litFreq, codes.distFreq, ts);
      CompressLzCodes(w, codes.buf, end, lit, litCodes, dist, distCodes, ts, h.lit, h.dist);
      body := Dynamic(h, ts);
    }
    ok := |w.out| < w.capacity;
  }

  /** Zero bits up to the next byte boundary. */
  method PadToByte(w: Writer, ghost at: nat)
    requires w.Valid() && w.bitsIn == at % 8
    modifies w
    ensures w.Valid() && old(w.out) <= w.out && w.sent == old(w.sent) + LowBits(0, Padding(at)) && w.bitsIn == 0
  {
    hide LowBits, Pow2, w.Valid;
    PaddingIs(at);
    BitsMod(w);
    if w.bitsIn != 0 {
      PowPositive(8 - w.bitsIn);
      w.PutBits(0, 8 - w.bitsIn);
      BitsMod(w);
    }
  }

  lemma PowPositive(n: nat)
    ensures 0 < Pow2(n)
  {
  }

  lemma PaddingIs(at: nat)
    ensures Padding(at) == (8 - at % 8) % 8
    ensures at % 8 == 0 ==> LowBits(0, Padding(at)) == []
  {
  }

  lemma BitsMod(w: Writer)
    requires w.Valid()
    ensures w.bitsIn == |w.sent| % 8
  {
  }

  lemma Sixteen()
    ensures Pow2(16) == 65536 && Pow2(8) == 256 && Pow2(2) == 4 && Pow2(1) == 2 && Pow2(3) == 8
  {
    Pow2Sixteen();
    ShortPowers();
    assert Pow2(8) == 256;
  }

  lemma BytesSnoc(bytes: seq<Byte>, i: nat)
    requires i < |bytes|
    ensures ByteBits(bytes[..i + 1]) == ByteBits(bytes[..i]) + LowBits(bytes[i], 8)
  {
    ByteBitsSnoc(bytes[..i], bytes[i]);
    assert bytes[..i + 1] == bytes[..i] + [bytes[i]];
  }

  /** Sends bytes from the ring. */
  method SendRing(w: Writer, dict: array<Byte>, dictPos: nat, total: nat, ghost bytes: seq<Byte>)
    requires w.Valid() && dict.Length == RING_SIZE && |bytes| == total
    requires forall i :: 0 <= i < total ==> bytes[i] == dict[(dictPos + i) % DICT_SIZE]
    modifies w
    ensures w.Valid() && old(w.out) <= w.out && w.sent == old(w.sent) + ByteBits(bytes)
  {
    Sixteen();
    hide LowBits, Pow2, w.Valid, ByteBits;
    NoneSent(bytes);
    var i := 0;
    while i < total
      invariant i <= total && w.Valid() && old(w.out) <= w.out && w.sent == old(w.sent) + ByteBits(bytes[..i])
    {
      BytesSnoc(bytes, i);
      w.PutBits(dict[(dictPos + i) % DICT_SIZE], 8);
      i := i + 1;
    }
    assert bytes[..total] == bytes;
  }

  lemma NoneSent(bytes: seq<Byte>)
    ensures ByteBits(bytes[..0]) == []
  {
  }

  lemma RingRead(win: Window, dictPos: nat, start: nat, i: nat)
    requires win.Valid() && |win.seen| - win.lookahead - win.dictSize <= start && start + i < |win.seen|
    requires dictPos == start % TWO_32
    ensures win.dict[(dictPos + i) % DICT_SIZE] == win.seen[start + i]
  {
    RingPos(start + i, i);
    ReadAt(win.dict[..], win.seen, win.lookahead, win.dictSize, start + i, 0);
  }

  lemma RingBytes(win: Window, dictPos: nat, start: nat, bytes: seq<Byte>)
    requires win.Valid() && |win.seen| - win.lookahead - win.dictSize <= start && start + |bytes| <= |win.seen|
    requires dictPos == start % TWO_32 && bytes == win.seen[start..start + |bytes|]
    ensures win.dict.Length == RING_SIZE
    ensures forall i :: 0 <= i < |bytes| ==> bytes[i] == win.dict[(dictPos + i) % DICT_SIZE]
  {
    hide LzWindow.Holds;
    forall i | 0 <= i < |bytes| ensures bytes[i] == win.dict[(dictPos + i) % DICT_SIZE] {
      RingRead(win, dictPos, start, i);
    }
  }

  /** A stored block's type, alignment, length and complement. */
  method StoreHeader(w: Writer, total: nat, ghost at: nat)
    requires w.Valid() && total < 65536 && w.bitsIn == at % 8
    modifies w
    ensures w.Valid() && old(w.out) <= w.out
    ensures w.sent == old(w.sent) + LowBits(0, 2) + LowBits(0, Padding(at + 2)) + LowBits(total, 16) + LowBits(65535 - total, 16)
  {
    BitsMod(w);
    Sixteen();
    hide *;
    w.PutBits(0, 2);
    BitsMod(w);
    AlignTwo(w, at, |old(w.sent)|);
    PadToByte(w, at + 2);
    w.PutBits(total, 16);
    w.PutBits(65535 - total, 16);
  }

  /** A stored block: its header, and its bytes out of the window. */
  method StoreBlock(w: Writer, win: Window, dictPos: nat, total: nat, ghost start: nat, ghost at: nat)
    requires w.Valid() && win.Valid() && total < 65536
    requires |win.seen| - win.lookahead - win.dictSize <= start && start + total <= |win.seen|
    requires dictPos == start % TWO_32 && w.bitsIn == at % 8
    modifies w
    ensures w.Valid() && old(w.out) <= w.out
    ensures w.sent == old(w.sent) + BlockBody(Stored(win.seen[start..start + total]), at)
  {
    hide LowBits, Pow2, w.Valid, win.Valid, ByteBits, Padding, BlockBody;
    ghost var bytes := win.seen[start..start + total];
    StoreHeader(w, total, at);
    RingBytes(win, dictPos, start, bytes);
    SendRing(w, win.dict, dictPos, total, bytes);
    StoredBody(bytes, at, old(w.sent));
  }

  lemma AlignTwo(w: Writer, at: nat, before: nat)
    requires w.bitsIn == |w.sent| % 8 && |w.sent| == before + 2 && before % 8 == at % 8
    ensures w.bitsIn == (at + 2) % 8
  {
  }

  lemma StoredBody(bytes: seq<Byte>, at: nat, before: BitString)
    requires |bytes| < 65536
    ensures before + LowBits(0, 2) + LowBits(0, Padding(at + 2)) + LowBits(|bytes|, 16) + LowBits(65535 - |bytes|, 16) + ByteBits(bytes)
         == before + BlockBody(Stored(bytes), at)
  {
    hide LowBits, ByteBits, Padding;
    Regroup5(before, LowBits(0, 2), LowBits(0, Padding(at + 2)), LowBits(|bytes|, 16), LowBits(65535 - |bytes|, 16), ByteBits(bytes));
  }

  lemma Regroup5(p: BitString, a: BitString, b: BitString, c: BitString, d: BitString, e: BitString)
    ensures p + a + b + c + d + e == p + (a + (b + (c + (d + e))))
  {
  }

  /** A remembered state of the writer to which it can go back. */
  datatype Mark = Mark(length: nat, buffer: nat, count: nat)

  ghost predicate MarkOf(m: Mark, out: seq<Byte>, sent: BitString, capacity: nat) {
    && m.length == |out| < capacity && m.count < 8 && m.buffer < Pow2(m.count)
    && |sent| == 8 * m.length + m.count && ByteBits(out) + LowBits(m.buffer, m.count) == sent
  }

  lemma MarkNow(w: Writer)
    requires w.Valid() && |w.out| < w.capacity
    ensures MarkOf(Mark(|w.out|, w.bitBuffer, w.bitsIn), w.out, w.sent, w.capacity)
  {
  }

  /** Forgets what was written since the mark. */
  method GoBack(w: Writer, m: Mark, ghost out: seq<Byte>, ghost sent: BitString)
    requires w.Valid() && MarkOf(m, out, sent, w.capacity) && out <= w.out
    modifies w
    ensures w.Valid() && w.sent == sent && w.out == out && w.bitsIn == m.count
  {
    assert w.out[..m.length] == out;
    w.Rewind(m.length, m.buffer, m.count, sent);
  }

  /** The lookahead position and the block's start, 32 bits wide, still tell their distance. */
  lemma Distance32(at: nat, start: nat)
    requires start <= at < start + TWO_32
    ensures (at % TWO_32 - start % TWO_32) % TWO_32 == at - start
  {
    var a, b := at / TWO_32, start / TWO_32;
    assert at % TWO_32 - start % TWO_32 == (at - start) + TWO_32 * (b - a);
    ShiftMod(at - start, b - a, at % TWO_32 - start % TWO_32);
  }

  /** `lookahead_pos - lz_code_buf_dict_pos` in 32 bits. */
  function Distance(pos: nat, dictPos: nat): nat {
    (pos - dictPos) % TWO_32
  }

  lemma ShiftMod(x: nat, k: int, y: int)
    requires x < TWO_32 && y == x + TWO_32 * k
    ensures y % TWO_32 == x
  {
  }

  /** Everything the tokens stand for is in the window's input. */
  ghost predicate Covers(ts: seq<Token>, played: seq<Byte>, win: Window, total: nat)
    reads win
  {
    && ValidTokens(ts) && Fits(played, ts) && |played| + total <= |win.seen| - win.lookahead
    && Expand(played, ts) == win.seen[..|played| + total] && |win.seen| - win.lookahead < |played| + TWO_32
  }

  /** What a block may be: it has the tokens' effect. */
  ghost predicate Stands(body: Body, ts: seq<Token>, played: seq<Byte>) {
    ValidBody(body) && FitsBody(played, body) && Effect(played, body) == Expand(played, ts)
  }

  lemma StoredStands(ts: seq<Token>, played: seq<Byte>, win: Window, total: nat)
    requires Covers(ts, played, win, total) && total < 65536
    ensures Stands(Stored(win.seen[|played|..|played| + total]), ts, played)
  {
    hide Fits;
    assert played <= Expand(played, ts);
    assert win.seen[..|played| + total] == played + win.seen[|played|..|played| + total];
  }

  lemma TokensStand(body: Body, ts: seq<Token>, played: seq<Byte>)
    requires !body.Stored? && ValidBody(body) && body.ts == ts && Fits(played, ts)
    ensures Stands(body, ts, played)
  {
  }

  /** The closed code buffer holds these tokens. */
  ghost predicate Packs(codes: TokenBuffer, ts: seq<Token>)
    reads codes`codeEnd, codes.buf
  {
    && codes.codeEnd <= codes.buf.Length && ValidTokens(ts) && codes.buf[..codes.codeEnd] == Packed(ts)
    && codes.litFreq != codes.distFreq && |ts| < 65535 && codes.codeEnd <= CODE_BUF_SIZE
  }

  ghost predicate Counts(codes: TokenBuffer, ts: seq<Token>)
    reads codes.litFreq, codes.distFreq
  {
    ValidTokens(ts) && Tally(ts, codes.litFreq[..], codes.distFreq[..])
  }

  /** Short enough output leaves the last byte of the buffer free. */
  lemma RoomLeft(w: Writer)
    requires w.Valid() && w.capacity == OUT_CAPACITY
    ensures |w.sent| <= BODY_BITS + 60 ==> |w.out| < w.capacity
  {
  }

  /** One attempt at a compressed block.  In a buffer that holds little else it always fits. */
  method TryBlock(w: Writer, codes: TokenBuffer, isStatic: bool, ghost ts: seq<Token>, ghost played: seq<Byte>, ghost at: nat)
    returns (ok: bool, ghost body: Body)
    requires w.Valid() && Packs(codes, ts) && (!isStatic ==> Counts(codes, ts)) && Fits(played, ts)
    modifies w, codes.litFreq
    ensures w.Valid() && old(w.out) <= w.out && Stands(body, ts, played)
    ensures w.sent == old(w.sent) + BlockBody(body, at)
    ensures Attempt(body, ts, isStatic) && |BlockBody(body, at)| <= BODY_BITS && ok == (|w.out| < w.capacity)
    ensures w.capacity == OUT_CAPACITY && |old(w.sent)| <= 60 ==> ok
  {
    hide LowBits, Pow2, w.Valid, ByteBits, Packed, Tally, Fits, Expand, BlockBody, Stands, ValidBody, Attempt;
    AttemptParts(ts, isStatic);
    ok, body := CompressBlock(w, codes, codes.codeEnd, isStatic, ts);
    SmallBody(body, at);
    if w.capacity == OUT_CAPACITY { RoomLeft(w); }
    TokensStand(body, ts, played);
  }

  lemma AttemptParts(ts: seq<Token>, isStatic: bool)
    ensures forall body: Body :: Attempt(body, ts, isStatic) ==> !body.Stored? && ValidBody(body) && body.ts == ts && (isStatic ==> body.Static?)
    ensures forall body: Body :: Attempt(body, ts, isStatic) && body.Dynamic? ==>
              |body.header.lit| == 288 && |body.header.dist| == 32 && NearStatic(ts, body.header.lit, body.header.dist)
  {
    hide NearStatic, ValidBody, ValidTokens;
  }

  /** The window holds the block's input, as far as its history reaches back. */
  ghost predicate Storable(win: Window, dictPos: nat, total: nat, ts: seq<Token>, played: seq<Byte>)
    reads win, win.dict, win.next, win.hash
  {
    win.Valid() && Covers(ts, played, win, total) && dictPos == |played| % TWO_32
  }

  lemma StorableParts(win: Window, dictPos: nat, total: nat, ts: seq<Token>, played: seq<Byte>)
    requires Storable(win, dictPos, total, ts, played)
    ensures Fits(played, ts)
    ensures Distance(win.pos, dictPos) == |win.seen| - win.lookahead - |played|
  {
    hide LzWindow.Holds, Fits, Expand;
    DistanceOf(win, dictPos, ts, played, total);
  }

  method StoreInstead(w: Writer, win: Window, dictPos: nat, total: nat, ghost ts: seq<Token>, ghost played: seq<Byte>, ghost at: nat)
    returns (ghost body: Body)
    requires w.Valid() && w.bitsIn == at % 8 && Storable(win, dictPos, total, ts, played)
    requires Distance(win.pos, dictPos) <= win.dictSize
    modifies w
    ensures w.Valid() && old(w.out) <= w.out && Stands(body, ts, played)
    ensures w.sent == old(w.sent) + BlockBody(body, at) && body.Stored? && |BlockBody(body, at)| <= BODY_BITS
  {
    hide *;
    StoredParts(win, dictPos, total, ts, played);
    body := Stored(win.seen[|played|..|played| + total]);
    StoreBlock(w, win, dictPos, total, |played|, at);
    StandsValid(body, ts, played);
    SmallBody(body, at);
  }

  lemma StoredParts(win: Window, dictPos: nat, total: nat, ts: seq<Token>, played: seq<Byte>)
    requires Storable(win, dictPos, total, ts, played) && Distance(win.pos, dictPos) <= win.dictSize
    ensures win.Valid() && total <= DICT_SIZE && total < 65536 && dictPos == |played| % TWO_32
    ensures |win.seen| - win.lookahead - win.dictSize <= |played| && |played| + total <= |win.seen|
    ensures Stands(Stored(win.seen[|played|..|played| + total]), ts, played)
  {
    hide LzWindow.Holds, Fits, Expand, Stands;
    StorableParts(win, dictPos, total, ts, played);
    InWindow(win, ts, played, total);
    StoredStands(ts, played, win, total);
  }

  lemma InWindow(win: Window, ts: seq<Token>, played: seq<Byte>, total: nat)
    requires win.Valid() && Covers(ts, played, win, total) && |win.seen| - win.lookahead - |played| <= win.dictSize
    ensures total <= DICT_SIZE && |win.seen| - win.lookahead - win.dictSize <= |played| && |played| + total <= |win.seen|
  {
  }

  /** The choice `tdefl_flush_block` makes between a compressed and a stored block.  A block that
      comes out larger than its bytes, or does not fit the buffer, is written again. */
  method WriteBody(w: Writer, win: Window, codes: TokenBuffer, dictPos: nat, forceRaw: bool, forceStatic: bool,
    ghost ts: seq<Token>, ghost played: seq<Byte>, ghost at: nat) returns (ghost body: Body)
    requires w.Valid() && |w.out| < w.capacity && w.bitsIn == at % 8
    requires Packs(codes, ts) && Counts(codes, ts) && Storable(win, dictPos, codes.totalBytes, ts, played)
    requires codes.litFreq != win.next && codes.litFreq != win.hash
    modifies w, codes.litFreq
    ensures w.Valid() && Stands(body, ts, played) && w.sent == old(w.sent) + BlockBody(body, at)
    ensures (body.Stored? || body.ts == ts) && |BlockBody(body, at)| <= BODY_BITS
    ensures w.capacity == OUT_CAPACITY && |old(w.sent)| <= 60 ==>
              Chosen(body, ts, forceStatic || codes.totalBytes < 48, forceRaw, Distance(win.pos, dictPos) <= win.dictSize, codes.totalBytes, at % 8)
  {
    hide *;
    StorableParts(win, dictPos, codes.totalBytes, ts, played);
    var m := Mark(|w.out|, w.bitBuffer, w.bitsIn);
    MarkNow(w);
    ghost var sent0, out0 := w.sent, w.out;
    ghost var small := w.capacity == OUT_CAPACITY && |w.sent| <= 60;
    ghost var isStatic, held := forceStatic || codes.totalBytes < 48, Distance(win.pos, dictPos) <= win.dictSize;
    var useRaw := forceRaw && Distance(win.pos, dictPos) <= win.dictSize;
    var ok := false;
    ghost var tried := Stored([]);
    if !useRaw {
      ok, body := TryBlock(w, codes, forceStatic || codes.totalBytes < 48, ts, played, at);
      AttemptParts(ts, isStatic);
      if ok { GrewBy(w, m, out0, sent0, body, at); }
      tried := body;
    }
    var expanded := codes.totalBytes > 0 && |w.out| - m.length + 1 >= codes.totalBytes;
    if (useRaw || expanded) && Distance(win.pos, dictPos) <= win.dictSize {
      GoBack(w, m, out0, sent0);
      body := StoreInstead(w, win, dictPos, codes.totalBytes, ts, played, at);
    } else if !ok {
      GoBack(w, m, out0, sent0);
      ok, body := TryBlock(w, codes, true, ts, played, at);
      AttemptParts(ts, true);
    }
    if useRaw {
      ChosenRaw(body, ts, isStatic, codes.totalBytes, at % 8);
    } else if small {
      ChosenTried(body, tried, ts, isStatic, forceRaw, held, codes.totalBytes, at % 8);
    }
  }

  /** As many bytes have been filled as the bits of a block and those before it make. */
  lemma GrewBy(w: Writer, m: Mark, out: seq<Byte>, sent: BitString, body: Body, at: nat)
    requires w.Valid() && |w.out| < w.capacity && MarkOf(m, out, sent, w.capacity) && ValidBody(body) && !body.Stored?
    requires w.sent == sent + BlockBody(body, at) && m.count == at % 8
    ensures |w.out| - m.length == (at % 8 + |BlockBody(body, 0)|) / 8
    ensures forall total: nat :: Expanded(body, total, at % 8) <==> total > 0 && |w.out| - m.length + 1 >= total
  {
    SameAnywhere(body, at);
    WholeBytes(w);
    hide BlockBody, ValidBody;
    EighthOf(|w.out|, w.bitsIn, m.length, m.count, |BlockBody(body, at)|);
  }

  lemma WholeBytes(w: Writer)
    requires w.Valid() && |w.out| < w.capacity
    ensures |w.sent| == 8 * |w.out| + w.bitsIn && w.bitsIn < 8
  {
  }

  lemma EighthOf(a: nat, i: nat, b: nat, k: nat, bits: nat)
    requires 8 * a + i == 8 * b + k + bits && i < 8 && k < 8
    ensures a - b == (k + bits) / 8
  {
  }

  /** Where a compressed block starts makes no difference to its bits. */
  lemma SameAnywhere(body: Body, at: nat)
    requires ValidBody(body) && !body.Stored?
    ensures BlockBody(body, at) == BlockBody(body, 0)
  {
  }

  lemma ChosenRaw(body: Body, ts: seq<Token>, isStatic: bool, total: nat, k: nat)
    requires body.Stored?
    ensures Chosen(body, ts, isStatic, true, true, total, k)
  {
  }

  lemma ChosenTried(body: Body, tried: Body, ts: seq<Token>, isStatic: bool, forceRaw: bool, held: bool, total: nat, k: nat)
    requires !(forceRaw && held) && Attempt(tried, ts, isStatic) && ValidBody(tried)
    requires if held && Expanded(tried, total, k) then body.Stored? else body == tried
    ensures Chosen(body, ts, isStatic, forceRaw, held, total, k)
  {
  }

  lemma DistanceOf(win: Window, dictPos: nat, ts: seq<Token>, played: seq<Byte>, total: nat)
    requires win.Valid() && Covers(ts, played, win, total) && dictPos == |played| % TWO_32
    ensures Distance(win.pos, dictPos) == |win.seen| - win.lookahead - |played|
    ensures Fits(played, ts)
  {
    hide LzWindow.Holds, Fits, Expand;
    Distance32(|win.seen| - win.lookahead, |played|);
  }

  /** The final flag and the body of a block that starts `at` bits into the stream. */
  method WriteBlock(w: Writer, win: Window, codes: TokenBuffer, dictPos: nat, last: bool, forceRaw: bool, forceStatic: bool,
    ghost ts: seq<Token>, ghost played: seq<Byte>, ghost at: nat) returns (ghost body: Body)
    requires w.Valid() && w.out == [] && w.capacity == OUT_CAPACITY && w.whole == 0
    requires w.bitsIn == at % 8 && Packs(codes, ts) && Counts(codes, ts) && Storable(win, dictPos, codes.totalBytes, ts, played)
    requires codes.litFreq != win.next && codes.litFreq != win.hash
    modifies w, codes.litFreq
    ensures w.Valid() && Stands(body, ts, played)
    ensures ValidBody(body) && w.sent == old(w.sent) + BlockBits(Block(last, body), at)
    ensures (body.Stored? || body.ts == ts) && |BlockBits(Block(last, body), at)| <= BODY_BITS + 1
    ensures Chosen(body, ts, forceStatic || codes.totalBytes < 48, forceRaw, Distance(win.pos, dictPos) <= win.dictSize, codes.totalBytes, (at + 1) % 8)
  {
    ghost var carry := w.sent;
    WriteLast(w, last, at);
    hide *;
    body := WriteBody(w, win, codes, dictPos, forceRaw, forceStatic, ts, played, at + 1);
    StandsValid(body, ts, played);
    BlockIs(last, body, at, carry);
  }

  /** The bit that marks the last block. */
  method WriteLast(w: Writer, last: bool, ghost at: nat)
    requires w.Valid() && w.capacity == OUT_CAPACITY && w.whole == 0 && w.bitsIn == at % 8
    modifies w
    ensures w.Valid() && w.sent == old(w.sent) + [last] && w.bitsIn == (at + 1) % 8 && |w.out| < w.capacity
  {
    Sixteen();
    OneBit(last);
    BitsMod(w);
    ghost var before := |w.sent|;
    hide LowBits, Pow2, ByteBits;
    w.PutBits(if last then 1 else 0, 1);
    BitsMod(w);
    AlignOne(before, at);
  }

  lemma StandsValid(body: Body, ts: seq<Token>, played: seq<Byte>)
    requires Stands(body, ts, played)
    ensures ValidBody(body)
  {
  }

  lemma BlockIs(last: bool, body: Body, at: nat, carry: BitString)
    requires ValidBody(body)
    ensures carry + [last] + BlockBody(body, at + 1) == carry + BlockBits(Block(last, body), at)
    ensures |BlockBits(Block(last, body), at)| == 1 + |BlockBody(body, at + 1)|
  {
    hide BlockBody;
  }

  lemma OneBit(b: bool)
    ensures LowBits(if b then 1 else 0, 1) == [b]
  {
  }

  lemma AlignOne(n: nat, at: nat)
    requires n % 8 == at % 8
    ensures (n + 1) % 8 == (at + 1) % 8
  {
  }

  /** The empty stored block that a sync or full flush adds. */
  method WriteSync(w: Writer, ghost at: nat)
    requires w.Valid() && w.bitsIn == at % 8
    modifies w
    ensures w.Valid() && old(w.out) <= w.out
    ensures w.sent == old(w.sent) + BlockBits(Block(false, Stored([])), at)
  {
    Sixteen();
    BitsMod(w);
    ghost var before := w.sent;
    hide LowBits, Pow2, w.Valid, ByteBits, Padding;
    w.PutBits(0, 3);
    BitsMod(w);
    AlignThree(|before|, at);
    PadToByte(w, at + 3);
    w.PutBits(0, 16);
    w.PutBits(0xFFFF, 16);
    SyncIs(before, at);
  }

  lemma AlignThree(n: nat, at: nat)
    requires n % 8 == at % 8
    ensures (n + 3) % 8 == (at + 3) % 8
  {
  }

  lemma SyncIs(before: BitString, at: nat)
    ensures before + LowBits(0, 3) + LowBits(0, Padding(at + 3)) + LowBits(0, 16) + LowBits(0xFFFF, 16)
         == before + BlockBits(Block(false, Stored([])), at)
  {
    ZeroBits();
    hide LowBits, Padding;
    assert ByteBits([]) == [];
    Regroup6(before, LowBits(0, 2), LowBits(0, Padding(at + 3)), LowBits(0, 16), LowBits(0xFFFF, 16));
  }

  lemma ZeroBits()
    ensures LowBits(0, 3) == [false] + LowBits(0, 2)
  {
  }

  lemma Regroup6(p: BitString, a: BitString, b: BitString, c: BitString, d: BitString)
    ensures p + ([false] + a) + b + c + d == p + ([false] + (a + (b + (c + (d + [])))))
  {
  }
}
