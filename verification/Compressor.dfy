/** The deflater: lazy parsing of the input into tokens, and blocks of tokens into a stream. */
module Compressor {
  import opened Bits
  import opened HuffmanDecode
  import opened BlockFormat
  import opened BitWriter
  import opened LzBuffer
  import opened HashChains
  import opened MatchSearch
  import opened LazyParse
  import opened LzWindow
  import opened DeflateStream
  import opened BlockFlush

  datatype Flush = NoFlush | SyncFlush | FullFlush | Finish

  lemma LiteralStep(out: seq<Byte>, ts: seq<Token>, seen: seq<Byte>, p: nat)
    requires ValidTokens(ts) && Fits(out, ts) && p < |seen| && Expand(out, ts) == seen[..p]
    ensures ValidTokens(ts + [Literal(seen[p])]) && Fits(out, ts + [Literal(seen[p])])
    ensures Expand(out, ts + [Literal(seen[p])]) == seen[..p + 1]
  {
    assert (ts + [Literal(seen[p])])[..|ts|] == ts;
  }

  /** Copying what really repeats reproduces the input, overlap or not. */
  lemma {:induction false} CopyIsInput(seen: seq<Byte>, p: nat, dist: nat, len: nat)
    requires Repeats(seen, p, dist, len)
    ensures Copy(seen[..p], dist, len) == seen[..p + len]
  {
    if len > 0 {
      CopyIsInput(seen, p, dist, len - 1);
      assert seen[p + len - 1] == seen[p + len - 1 - dist];
    } else {
      assert seen[..p + 0] == seen[..p];
    }
  }

  lemma MatchStep(out: seq<Byte>, ts: seq<Token>, seen: seq<Byte>, p: nat, dist: nat, len: nat)
    requires ValidTokens(ts) && Fits(out, ts) && p <= |seen| && Expand(out, ts) == seen[..p]
    requires Repeats(seen, p, dist, len) && ValidToken(Match(len, dist))
    ensures ValidTokens(ts + [Match(len, dist)]) && Fits(out, ts + [Match(len, dist)])
    ensures Expand(out, ts + [Match(len, dist)]) == seen[..p + len]
  {
    hide Copy, Repeats;
    MatchIs(seen, p, dist, len);
    CopyIsInput(seen, p, dist, len);
    assert (ts + [Match(len, dist)])[..|ts|] == ts;
  }

  lemma {:induction false} ExpandLength(out: seq<Byte>, ts: seq<Token>)
    requires Fits(out, ts)
    ensures |Expand(out, ts)| == |out| + Span(ts)
  {
    if ts != [] {
      ExpandLength(out, ts[..|ts| - 1]);
    }
  }

  lemma {:induction false} SpanBound(ts: seq<Token>)
    requires ValidTokens(ts)
    ensures Span(ts) <= 258 * |ts|
  {
    if ts != [] { SpanBound(ts[..|ts| - 1]); }
  }

  lemma {:induction false} CodeBytesBound(g: seq<Token>)
    requires ValidTokens(g)
    ensures |CodeBytes(g)| >= |g|
  {
    if g != [] { CodeBytesBound(g[1..]); }
  }

  lemma {:induction false} PackedBound(ts: seq<Token>)
    requires ValidTokens(ts)
    ensures 8 * |Packed(ts)| >= 9 * |ts|
  {
    if ts == [] {
    } else if |ts| <= 8 {
      CodeBytesBound(ts);
      GroupIs(ts);
    } else {
      CodeBytesBound(ts[..8]);
      GroupIs(ts[..8]);
      PackedBound(ts[8..]);
    }
  }

  /** What is recorded so far reproduces the input up to the lookahead, less one byte while a
      match is held back; the held match really repeats the input. */
  ghost predicate Parsed(seen: seq<Byte>, at: int, played: seq<Byte>, ts: seq<Token>, savedLen: nat, savedDist: nat, savedLit: Byte) {
    && 0 <= at <= |seen| && ValidTokens(ts) && Fits(played, ts)
    && (savedLen == 0 ==> Expand(played, ts) == seen[..at])
    && (savedLen > 0 ==>
          && 1 <= at && savedLit == seen[at - 1] && Expand(played, ts) == seen[..at - 1]
          && 3 <= savedLen < 128 && savedDist <= DICT_SIZE && Repeats(seen, at - 1, savedDist, savedLen))
  }

  lemma ParsedMore(seen: seq<Byte>, at: int, played: seq<Byte>, ts: seq<Token>, savedLen: nat, savedDist: nat, savedLit: Byte, more: seq<Byte>)
    requires Parsed(seen, at, played, ts, savedLen, savedDist, savedLit)
    ensures Parsed(seen + more, at, played, ts, savedLen, savedDist, savedLit)
  {
    hide Fits, Expand;
    assert (seen + more)[..at] == seen[..at];
    if savedLen > 0 {
      assert (seen + more)[..at - 1] == seen[..at - 1];
    }
  }

  /** All blocks written so far are on the output, none of them marked last. */
  ghost predicate Delivered(blocks: seq<Block>, stream: seq<Byte>, carry: BitString) {
    && ValidBlocks(blocks) && AllFit(blocks) && (forall i :: 0 <= i < |blocks| ==> !blocks[i].last)
    && ByteBits(stream) + carry == Message(blocks)
  }

  /** The whole stream is on the output, padded to a whole byte. */
  ghost predicate Complete(blocks: seq<Block>, stream: seq<Byte>) {
    Whole(blocks) && ByteBits(stream) == Message(blocks) + LowBits(0, Padding(|Message(blocks)|))
  }

  lemma Aligned(blocks: seq<Block>, stream: seq<Byte>, carry: BitString)
    requires Delivered(blocks, stream, carry)
    ensures ValidBlocks(blocks) && |carry| % 8 == |Message(blocks)| % 8
  {
    hide ByteBits, Message, ValidBlocks, AllFit;
    ByteBitsLength(stream);
    AfterBytes(|stream|, |carry|);
  }

  lemma AfterBytes(n: nat, c: nat)
    ensures (8 * n + c) % 8 == c % 8
  {
  }

  lemma StartCounts()
    ensures |Played([])| % TWO_32 == 0
  {
  }

  lemma NothingParsed(lit: Byte)
    ensures Parsed([], 0, Played([]), [], 0, 0, lit) && Delivered([], [], LowBits(0, 0))
  {
    assert ByteBits([]) == [] && Message([]) == [];
  }

  class Deflater {
    const options: Options
    const win: Window
    const codes: TokenBuffer
    const w: Writer
    var dictPos: nat          // m_lz_code_buf_dict_pos, 32 bits wide
    var savedDist: nat        // m_saved_match_dist
    var savedLen: nat         // m_saved_match_len
    var savedLit: Byte        // m_saved_lit
    var stream: seq<Byte>     // what the output callback has been given
    ghost var blocks: seq<Block>
    ghost var cuts: seq<seq<Token>>   // the tokens of each block
    ghost var steps: seq<Step>        // every decision of the parser

    ghost predicate Separate() {
      && ValidOptions(options) && w.capacity == OUT_CAPACITY && win.dict != codes.buf
      && codes.litFreq != win.next && codes.litFreq != win.hash && codes.distFreq != win.next && codes.distFreq != win.hash
    }

    /** The tokens and blocks so far stand for the input before the lookahead. */
    ghost predicate Faithful()
      reads this, win`seen, win`lookahead, codes`full, codes`group
    {
      && Parsed(win.seen, win.At(), Played(blocks), codes.Tokens(), savedLen, savedDist, savedLit)
      && dictPos == |Played(blocks)| % TWO_32
    }

    /** All that has been recorded, in the blocks and since, is what the parser's steps amount to. */
    ghost predicate Lazily()
      requires ValidOptions(options)
      reads `steps, `cuts, `savedLen, `savedDist, `savedLit, win`seen, win`lookahead, codes`full, codes`group
    {
      Decided(options, win.seen, win.At(), steps, Flat(cuts) + codes.Tokens(), HeldOf(savedLen, savedDist, savedLit))
    }

    ghost predicate Sent()
      reads `stream, `blocks, w
    {
      w.Valid() && Delivered(blocks, stream, LowBits(w.bitBuffer, w.bitsIn))
    }

    ghost predicate Valid()
      reads this, win, win.dict, win.next, win.hash, codes, codes.buf, codes.litFreq, codes.distFreq, w
    {
      Separate() && win.Valid() && codes.Valid() && Faithful() && Sent() && Lazily() && CutUp(options, blocks, cuts)
    }

    constructor (o: Options)
      requires ValidOptions(o)
      ensures Valid() && win.seen == [] && win.lookahead == 0 && blocks == [] && steps == [] && options == o && codes.codeEnd == 1
      ensures fresh(win) && fresh(win.dict) && fresh(win.next) && fresh(win.hash)
      ensures fresh(codes) && fresh(codes.buf) && fresh(codes.litFreq) && fresh(codes.distFreq) && fresh(w)
    {
      hide Holds, Layout, Tally, Parsed, Delivered, Pow2, LowBits, ByteBits, Packed, Played, Message;
      options := o;
      win := new Window();
      codes := new TokenBuffer();
      w := new Writer(OUT_CAPACITY);
      dictPos, savedDist, savedLen, savedLit, stream, blocks, cuts, steps := 0, 0, 0, 0, [], [], [], [];
      new;
      NothingParsed(0);
      NothingDecided(o);
      NothingCut(o);
      StartCounts();
    }

    /** The window still holds all that the recorded tokens stand for. */
    ghost predicate WithinReach()
      reads win, this`blocks
    {
      win.At() - |Played(blocks)| <= win.dictSize
    }

    lemma InReach(ts: seq<Token>, played: seq<Byte>, total: nat)
      requires played == Played(blocks) && Storable(win, dictPos, total, ts, played)
      ensures WithinReach() <==> Distance(win.pos, dictPos) <= win.dictSize
    {
      hide Storable, Distance;
      StorableParts(win, dictPos, total, ts, played);
    }

    /** What the recorded tokens offer to a block. */
    lemma Prepare()
      requires win.Valid() && codes.Valid() && Faithful()
      ensures Counts(codes, codes.Tokens()) && |codes.Tokens()| < 65535 && ValidTokens(codes.Tokens())
      ensures Storable(win, dictPos, codes.totalBytes, codes.Tokens(), Played(blocks))
      ensures codes.litFreq != codes.distFreq && codes.litFreq.Length == 288 && codes.distFreq.Length == 32
      ensures codes.buf.Length == CODE_BUF_SIZE && codes.totalBytes == Span(codes.Tokens())
    {
      hide Played, Expand, Fits, Packed, CodeBytes, FlagBits, ToNat, Pow2, LzWindow.Holds, Repeats, Span, LitCount, DistCount, LenSym, DistSym;
      var ts, played := codes.Tokens(), Played(blocks);
      LayoutParts(codes.buf[..], codes.flagsAt, codes.codeEnd, codes.full, codes.group);
      PackedBound(codes.full);
      ExpandLength(played, ts);
      SpanBound(ts);
      if savedLen > 0 { SeenPrefix(win.seen, |played| + Span(ts), Expand(played, ts)); }
    }

    lemma SentParts()
      requires Sent()
      ensures w.Valid() && ValidBlocks(blocks) && w.bitsIn == |Message(blocks)| % 8
      ensures Delivered(blocks, stream, LowBits(w.bitBuffer, w.bitsIn))
    {
      hide Delivered, Message, LowBits, Pow2, ByteBits, w.Holding;
      Aligned(blocks, stream, LowBits(w.bitBuffer, w.bitsIn));
    }

    /** Everything between restarting the output buffer and handing it over. */
    method WriteOut(flush: Flush, ghost at: nat, ghost ts: seq<Token>, ghost played: seq<Byte>) returns (ghost body: Body)
      requires w.Valid() && codes.Valid() && win.Valid() && Faithful() && Separate() && w.bitsIn == at % 8
      requires ts == codes.Tokens() && played == Played(blocks)
      modifies codes`codeEnd, codes.buf, codes.litFreq, w
      ensures w.Valid() && Stands(body, ts, played) && ValidBody(body) && (flush == Finish ==> w.bitsIn == 0)
      ensures (body.Stored? || body.ts == ts) && InForm(options, body, ts, WithinReach(), at)
      ensures w.sent == LowBits(old(w.bitBuffer), old(w.bitsIn)) + BlockBits(Block(flush == Finish, body), at)
                          + FlushBits(flush, at + |BlockBits(Block(flush == Finish, body), at)|)
      ensures |w.out| < w.capacity
    {
      hide *;
      Prepare();
      Apart();
      w.Restart();
      codes.Close();
      ClosedPacks(codes, ts);
      body := WriteBlock(w, win, codes, dictPos, flush == Finish, options.forceRaw, options.forceStatic, ts, played, at);
      InReach(ts, played, codes.totalBytes);
      FormIs(options, body, ts, WithinReach(), codes.totalBytes, at);
      ghost var after := at + |BlockBits(Block(flush == Finish, body), at)|;
      FlushIs(flush, after);
      FlushShort(flush, after);
      BitsMod(w);
      AfterBlock(old(w.bitsIn), at, |BlockBits(Block(flush == Finish, body), at)|);
      if flush == Finish {
        PadToByte(w, after);
      } else if flush != NoFlush {
        WriteSync(w, after);
      }
      RoomLeft(w);
    }

    /** Writes the recorded tokens as a block and, for a sync or full flush, an empty stored block.
        The output buffer always has room for both. */
    method FlushBlock(flush: Flush)
      requires Valid() && (flush == Finish ==> savedLen == 0 && win.lookahead == 0)
      modifies this`dictPos, this`stream, this`blocks, this`cuts, codes, codes.buf, codes.litFreq, codes.distFreq, w
      ensures codes.codeEnd == 1 && codes.Tokens() == [] && Separate() && win.Valid() && codes.Valid()
      ensures flush != Finish ==> Valid()
      ensures Lazily() && CutUp(options, blocks, cuts) && cuts == old(cuts) + AddedCuts(flush, old(codes.Tokens()))
      ensures |old(blocks)| < |blocks|
      ensures ValidBlocks(old(blocks))
      ensures InForm(options, blocks[|old(blocks)|].body, old(codes.Tokens()), old(WithinReach()), |Message(old(blocks))|)
      ensures flush == Finish ==> Complete(blocks, stream)
      ensures win.lookahead == 0 && savedLen == 0 ==> Played(blocks) == win.seen
      ensures old(stream) <= stream && old(blocks) <= blocks
    {
      hide *;
      ValidParts();
      SentParts();
      FaithfulParts();
      Prepare();
      Apart();
      ghost var ts, played, carry := codes.Tokens(), Played(blocks), LowBits(w.bitBuffer, w.bitsIn);
      ghost var body := WriteOut(flush, |Message(blocks)|, ts, played);
      assert |w.out| < w.capacity;
      LazilyParts();
      HandOver(flush, body, carry, ts, WithinReach());
      AddedIs(flush, body);
      MakeLazily();
      if win.lookahead == 0 && savedLen == 0 { AllPlayed(win.seen, win.At(), played, ts, savedDist, savedLit); }
      if flush != Finish { Assemble(); }
    }

    /** Gives the block to the output callback and starts an empty code buffer. */
    method HandOver(flush: Flush, ghost body: Body, ghost carry: BitString, ghost ts: seq<Token>, ghost held: bool)
      requires w.Valid() && |w.out| < w.capacity && ValidBody(body) && Stands(body, ts, Played(blocks)) && (flush == Finish ==> w.bitsIn == 0)
      requires Delivered(blocks, stream, carry)
      requires var b, at := Block(flush == Finish, body), |Message(blocks)|;
               w.sent == carry + BlockBits(b, at) + FlushBits(flush, at + |BlockBits(b, at)|)
      requires Parsed(win.seen, win.At(), Played(blocks), ts, savedLen, savedDist, savedLit)
      requires dictPos == |Played(blocks)| % TWO_32 && codes.totalBytes == Span(ts)
      requires codes.litFreq != codes.distFreq && codes.litFreq.Length == 288 && codes.distFreq.Length == 32 && codes.buf.Length == CODE_BUF_SIZE
      requires CutUp(options, blocks, cuts) && (body.Stored? || body.ts == ts) && InForm(options, body, ts, held, |Message(blocks)|)
      modifies this`dictPos, this`stream, this`blocks, this`cuts, codes, codes.litFreq, codes.distFreq
      ensures blocks == old(blocks) + AddedBlocks(flush, body)
      ensures CutUp(options, blocks, cuts) && cuts == old(cuts) + AddedCuts(flush, ts) && Flat(cuts) + codes.Tokens() == Flat(old(cuts)) + ts
      ensures codes.codeEnd == 1 && codes.Valid() && codes.Tokens() == []
      ensures old(stream) <= stream && old(blocks) <= blocks
      ensures Played(blocks) == Expand(old(Played(blocks)), ts) && dictPos == Wrap(|Played(blocks)|)
      ensures Parsed(win.seen, win.At(), Played(blocks), [], savedLen, savedDist, savedLit)
      ensures flush == Finish ==> Complete(blocks, stream)
      ensures flush != Finish ==> Delivered(blocks, stream, LowBits(w.bitBuffer, w.bitsIn))
    {
      hide *;
      DeliveredParts(blocks, stream, carry);
      PlayedOne(blocks, stream, carry, flush, body, ts);
      StartAgain(win.seen, win.At(), Played(blocks), Expand(Played(blocks), ts), ts, savedLen, savedDist, savedLit, dictPos);
      OnOutput(w);
      NoBits(w.bitBuffer);
      Flushed(blocks, stream, carry, flush, body, ts, w.out, LowBits(w.bitBuffer, w.bitsIn));
      stream := stream + w.out;
      dictPos := Wrap(dictPos + codes.totalBytes);
      CutMore(options, blocks, cuts, flush, body, ts, held);
      blocks, cuts := blocks + AddedBlocks(flush, body), cuts + AddedCuts(flush, ts);
      codes.Reset();
      NothingAdded(Flat(cuts));
    }

    /** The match to consider at the head of the lookahead. */
    method Consider() returns (dist: nat, len: nat)
      requires win.Valid() && ValidOptions(options) && win.lookahead > 0 && savedLen < 128 && (savedLen == 0 || savedLen >= 3)
      ensures Considered(options, win.seen, win.Here(), Known(HeldOf(savedLen, savedDist, savedLit)), Candidate(dist, len))
    {
      hide Holds, Repeats, Differs, Searched, RunFound, Linked;
      win.HereInside();
      dist, len := 0, if savedLen > 0 then savedLen else 2;
      var curPos := win.pos % DICT_SIZE;
      RingAt(win.At(), win.pos);
      if options.runsOnly || options.forceRaw {
        if win.dictSize > 0 && !options.forceRaw { dist, len := win.FindRun(); }
      } else {
        dist, len := win.FindMatch(options.maxProbes, len);
      }
      assert Found(options, win.seen, win.Here(), Known(HeldOf(savedLen, savedDist, savedLit)), dist, len);
      if (len == 3 && dist >= 8 * 1024) || curPos == dist || (options.filter && len <= 5) {
        dist, len := 0, 0;
      }
    }

    /** A held-back match gives way to a longer one: its first byte becomes a literal. */
    method Improve(dist: nat, len: nat) returns (move: nat)
      requires codes.Valid() && win.Valid() && codes.codeEnd <= CODE_BUF_SIZE - 8 && win.dict != codes.buf && win.lookahead > 0
      requires codes.litFreq != win.next && codes.litFreq != win.hash && codes.distFreq != win.next && codes.distFreq != win.hash
      requires Parsed(win.seen, win.At(), Played(blocks), codes.Tokens(), savedLen, savedDist, savedLit) && savedLen > 0
      requires 3 <= len <= win.lookahead && dist <= DICT_SIZE && Repeats(win.seen, win.At(), dist, len)
      modifies this`savedDist, this`savedLen, this`savedLit, codes, codes.buf, codes.litFreq, codes.distFreq
      ensures codes.Valid() && codes.codeEnd <= CODE_BUF_SIZE && 1 <= move <= win.lookahead
      ensures Parsed(win.seen, win.At() + move, Played(blocks), codes.Tokens(), savedLen, savedDist, savedLit)
      ensures codes.Tokens() == old(codes.Tokens()) + [Literal(old(savedLit))] + (if len >= 128 then [Match(len, dist)] else [])
      ensures move == (if len >= 128 then len else 1) && savedLen == (if len >= 128 then 0 else len)
      ensures len < 128 ==> savedDist == dist && savedLit == win.seen[win.At()]
    {
      hide Holds, Repeats, Expand, Fits, Played, codes.Valid;
      LookaheadBound();
      ghost var ts := codes.Tokens();
      LiteralStep(Played(blocks), ts, win.seen, win.At() - 1);
      codes.RecordLiteral(savedLit);
      if len >= 128 {
        MatchIs(win.seen, win.At(), dist, len);
        MatchStep(Played(blocks), codes.Tokens(), win.seen, win.At(), dist, len);
        codes.RecordMatch(len, dist);
        savedLen := 0;
        move := len;
      } else {
        savedLit := win.Head();
        savedDist, savedLen := dist, len;
        move := 1;
      }
    }

    lemma AtIs()
      ensures win.At() + win.lookahead == |win.seen|
    {
    }

    lemma LookaheadBound()
      requires win.Valid()
      ensures win.lookahead <= MAX_MATCH_LEN == 258 && win.lookahead <= |win.seen| && DICT_SIZE == 32768
    {
    }

    /** No longer match turned up: the held-back one is recorded. */
    method RecordSaved() returns (move: nat)
      requires codes.Valid() && codes.codeEnd <= CODE_BUF_SIZE - 8 && win.At() + win.lookahead == |win.seen|
      requires Parsed(win.seen, win.At(), Played(blocks), codes.Tokens(), savedLen, savedDist, savedLit) && savedLen > 0
      modifies this`savedLen, codes, codes.buf, codes.litFreq, codes.distFreq
      ensures codes.Valid() && codes.codeEnd <= CODE_BUF_SIZE && 1 <= move <= win.lookahead
      ensures Parsed(win.seen, win.At() + move, Played(blocks), codes.Tokens(), savedLen, savedDist, savedLit)
      ensures codes.Tokens() == old(codes.Tokens()) + [Match(old(savedLen), savedDist)] && move == old(savedLen) - 1 && savedLen == 0
    {
      hide Repeats, Expand, Fits, Played, codes.Valid;
      SavedBounds(win.seen, win.At(), Played(blocks), codes.Tokens(), savedLen, savedDist, savedLit);
      MatchIs(win.seen, win.At() - 1, savedDist, savedLen);
      MatchStep(Played(blocks), codes.Tokens(), win.seen, win.At() - 1, savedDist, savedLen);
      codes.RecordMatch(savedLen, savedDist);
      move := savedLen - 1;
      savedLen := 0;
    }

    /** Nothing held back: a literal, a match recorded at once, or a match to hold back. */
    method Begin(dist: nat, len: nat) returns (move: nat)
      requires codes.Valid() && win.Valid() && codes.codeEnd <= CODE_BUF_SIZE - 8 && win.dict != codes.buf && win.lookahead > 0
      requires codes.litFreq != win.next && codes.litFreq != win.hash && codes.distFreq != win.next && codes.distFreq != win.hash
      requires Parsed(win.seen, win.At(), Played(blocks), codes.Tokens(), savedLen, savedDist, savedLit) && savedLen == 0
      requires dist != 0 ==> 3 <= len <= win.lookahead && dist <= DICT_SIZE && Repeats(win.seen, win.At(), dist, len)
      modifies this`savedDist, this`savedLen, this`savedLit, codes, codes.buf, codes.litFreq, codes.distFreq
      ensures codes.Valid() && codes.codeEnd <= CODE_BUF_SIZE && 1 <= move <= win.lookahead
      ensures Parsed(win.seen, win.At() + move, Played(blocks), codes.Tokens(), savedLen, savedDist, savedLit)
      ensures var atOnce := options.greedy || options.runsOnly || len >= 128;
              && codes.Tokens() == old(codes.Tokens())
                + (if dist == 0 then [Literal(win.seen[win.At()])] else if atOnce then [Match(len, dist)] else [])
              && move == (if dist != 0 && atOnce then len else 1) && savedLen == (if dist != 0 && !atOnce then len else 0)
              && (dist != 0 && !atOnce ==> savedDist == dist && savedLit == win.seen[win.At()])
    {
      hide Holds, Repeats, Expand, Fits, Played, codes.Valid;
      LookaheadBound();
      if dist == 0 {
        var c := win.Head();
        LiteralStep(Played(blocks), codes.Tokens(), win.seen, win.At());
        codes.RecordLiteral(c);
        move := 1;
      } else if options.greedy || options.runsOnly || len >= 128 {
        MatchIs(win.seen, win.At(), dist, len);
        MatchStep(Played(blocks), codes.Tokens(), win.seen, win.At(), dist, len);
        codes.RecordMatch(len, dist);
        move := len;
      } else {
        savedLit := win.Head();
        savedDist, savedLen := dist, len;
        move := 1;
      }
    }

    /** One step of the lazy parser: what is recorded, and how far the lookahead moves. */
    method ParseStep() returns (move: nat, ghost step: Step)
      requires Separate() && win.Valid() && codes.Valid() && codes.codeEnd <= CODE_BUF_SIZE - 8 && win.lookahead > 0
      requires Parsed(win.seen, win.At(), Played(blocks), codes.Tokens(), savedLen, savedDist, savedLit)
      modifies this`savedDist, this`savedLen, this`savedLit, codes, codes.buf, codes.litFreq, codes.distFreq
      ensures codes.Valid() && codes.codeEnd <= CODE_BUF_SIZE && 1 <= move <= win.lookahead
      ensures Parsed(win.seen, win.At() + move, Played(blocks), codes.Tokens(), savedLen, savedDist, savedLit)
      ensures step.place == win.Here()
      ensures Considered(options, win.seen, win.Here(), old(Known(HeldOf(savedLen, savedDist, savedLit))), step.candidate)
      ensures var d := Decide(options, old(HeldOf(savedLen, savedDist, savedLit)), win.seen[win.At()], step.candidate);
              codes.Tokens() == old(codes.Tokens()) + d.tokens && HeldOf(savedLen, savedDist, savedLit) == d.held && move == d.move
    {
      hide *;
      SavedBounds(win.seen, win.At(), Played(blocks), codes.Tokens(), savedLen, savedDist, savedLit);
      Apart();
      AtIs();
      LookaheadBound();
      var dist, len := Consider();
      step := Step(win.Here(), Candidate(dist, len));
      HereIs();
      KnownIs(savedLen, savedDist, savedLit);
      DecideIs(options, savedLen, savedDist, savedLit, win.seen[win.At()], dist, len);
      ConsideredIs(options, win.seen, win.Here(), Known(HeldOf(savedLen, savedDist, savedLit)), step.candidate);
      if savedLen > 0 {
        if len > savedLen {
          move := Improve(dist, len);
        } else {
          move := RecordSaved();
        }
      } else {
        move := Begin(dist, len);
      }
    }

    lemma HereIs()
      requires win.lookahead <= |win.seen|
      ensures win.Here().at == win.At() && win.Here().look == win.lookahead
    {
    }

    /** Whether it is time to write the recorded codes out. */
    predicate FlushDue()
      reads this, codes
    {
      || codes.codeEnd > CODE_BUF_SIZE - 8
      || (codes.totalBytes > 31 * 1024 && (codes.codeEnd * 115 / 128 >= codes.totalBytes || options.forceRaw))
    }

    /** Taking in input keeps everything that holds of the input before the lookahead. */
    method TakeInput(src: seq<Byte>, from: nat) returns (next: nat)
      requires Valid() && from <= |src|
      modifies win, win.dict, win.next, win.hash
      ensures Valid() && from <= next <= |src| && win.seen == old(win.seen) + src[from..next] && win.from == old(win.from)
      ensures win.lookahead == old(win.lookahead) + (next - from) && win.At() == old(win.At())
      ensures win.lookahead <= MAX_MATCH_LEN && (next < |src| ==> win.lookahead == MAX_MATCH_LEN)
    {
      hide *;
      ValidParts();
      Apart();
      FaithfulParts();
      SentParts();
      LazilyParts();
      ghost var seen := win.seen;
      var n := win.Fill(src, from);
      LookaheadBound();
      FillAmount(|src| - from, old(win.lookahead), n);
      ParsedMore(seen, win.At(), Played(blocks), codes.Tokens(), savedLen, savedDist, savedLit, src[from..from + n]);
      DecidedMore(options, seen, win.At(), steps, Flat(cuts) + codes.Tokens(), HeldOf(savedLen, savedDist, savedLit), src[from..from + n]);
      WrapIs(|Played(blocks)|);
      Assemble();
      next := from + n;
    }

    /** A step of the parser, and the lookahead moves on by it. */
    method TakeStep()
      requires Valid() && codes.codeEnd <= CODE_BUF_SIZE - 8 && win.lookahead > 0
      modifies this`savedDist, this`savedLen, this`savedLit, this`steps, win, codes, codes.buf, codes.litFreq, codes.distFreq
      ensures Valid() && codes.codeEnd <= CODE_BUF_SIZE && win.seen == old(win.seen) && win.from == old(win.from)
      ensures win.lookahead < old(win.lookahead) && |steps| == |old(steps)| + 1 && old(steps) <= steps
      ensures steps[|old(steps)|].place == old(win.Here())
    {
      hide *;
      ValidParts();
      FaithfulParts();
      SentParts();
      LazilyParts();
      AtIs();
      HereIs();
      LookaheadBound();
      HistoryIs();
      var move;
      ghost var step;
      ghost var held := HeldOf(savedLen, savedDist, savedLit);
      ghost var tokens := Flat(cuts) + codes.Tokens();
      move, step := ParseStep();
      DecidedNext(options, win.seen, win.At(), steps, tokens, held, step);
      Apart();
      win.Advance(move);
      steps := steps + [step];
      WrapIs(|Played(blocks)|);
      assert tokens + Decide(options, held, win.seen[old(win.At())], step.candidate).tokens == Flat(cuts) + codes.Tokens();
      Assemble();
    }

    /** One turn of the parsing loop. */
    method Turn(src: seq<Byte>, from: nat, flush: Flush) returns (next: nat, stop: bool)
      requires Valid() && codes.codeEnd <= CODE_BUF_SIZE - 8 && from <= |src|
      requires from < |src| || (flush != NoFlush && win.lookahead > 0)
      modifies this, win, win.dict, win.next, win.hash, codes, codes.buf, codes.litFreq, codes.distFreq, w
      ensures from <= next <= |src|
      ensures Valid() && codes.codeEnd <= CODE_BUF_SIZE - 8 && win.seen == old(win.seen) + src[from..next] && win.from == old(win.from)
      ensures (stop ==> flush == NoFlush && next == |src|) && win.lookahead < MAX_MATCH_LEN
      ensures !stop ==> |src| - next + win.lookahead < |src| - from + old(win.lookahead)
      ensures old(stream) <= stream && old(blocks) <= blocks
      ensures old(steps) <= steps && forall i :: |old(steps)| <= i < |steps| ==> Full(steps[i].place, win.from, |old(win.seen)| + |src| - from)
      ensures old(cuts) <= cuts && forall i :: |old(cuts)| <= i < |cuts| ==> Due(options, cuts[i])
    {
      hide *;
      next := TakeInput(src, from);
      stop := flush == NoFlush && win.lookahead < LeastLookahead();
      LeastIs();
      if stop { return; }
      ValidParts();
      LookaheadBound();
      HistoryIs();
      FullIs(win.Here(), win.from, |old(win.seen)| + |src| - from, |win.seen|, |src| - next);
      TakeStep();
      FlushIfDue();
    }

    /** Writes the recorded tokens out if it is time. */
    method FlushIfDue()
      requires Valid() && codes.codeEnd <= CODE_BUF_SIZE
      modifies this`dictPos, this`stream, this`blocks, this`cuts, codes, codes.buf, codes.litFreq, codes.distFreq, w
      ensures Valid() && codes.codeEnd <= CODE_BUF_SIZE - 8 && !Due(options, codes.Tokens())
      ensures old(stream) <= stream && old(blocks) <= blocks
      ensures if Due(options, old(codes.Tokens())) then cuts == old(cuts) + [old(codes.Tokens())] else cuts == old(cuts) && blocks == old(blocks)
    {
      hide *;
      ValidParts();
      var due := FlushDue();
      DueBound();
      DueIs();
      AddedCutsAre(NoFlush, codes.Tokens());
      SmallBuffer();
      if due {
        FlushBlock(NoFlush);
        NothingDue(options);
      }
    }

    /** `tdefl_compress_normal`: parses all of the input, or all but the lookahead when more is to come. */
    method CompressNormal(src: seq<Byte>, flush: Flush)
      requires Valid() && codes.codeEnd <= CODE_BUF_SIZE - 8
      modifies this, win, win.dict, win.next, win.hash, codes, codes.buf, codes.litFreq, codes.distFreq, w
      ensures Valid() && codes.codeEnd <= CODE_BUF_SIZE - 8 && win.seen == old(win.seen) + src && win.from == old(win.from)
      ensures if flush == NoFlush then src != [] ==> win.lookahead < MAX_MATCH_LEN else win.lookahead == 0
      ensures old(stream) <= stream && old(blocks) <= blocks
      ensures old(steps) <= steps && forall i :: |old(steps)| <= i < |steps| ==> Full(steps[i].place, win.from, |win.seen|)
      ensures old(cuts) <= cuts && forall i :: |old(cuts)| <= i < |cuts| ==> Due(options, cuts[i])
    {
      hide *;
      var from, stop := 0, false;
      while !stop && (from < |src| || (flush != NoFlush && win.lookahead > 0))
        invariant from <= |src| && (stop ==> flush == NoFlush && from == |src|)
        invariant Valid() && codes.codeEnd <= CODE_BUF_SIZE - 8 && win.seen == old(win.seen) + src[..from]
        invariant old(stream) <= stream && old(blocks) <= blocks && win.from == old(win.from)
        invariant from > 0 || stop ==> win.lookahead < MAX_MATCH_LEN
        invariant old(steps) <= steps && forall i :: |old(steps)| <= i < |steps| ==> Full(steps[i].place, win.from, |old(win.seen)| + |src|)
        invariant old(cuts) <= cuts && forall i :: |old(cuts)| <= i < |cuts| ==> Due(options, cuts[i])
        decreases !stop, |src| - from + win.lookahead
      {
        ghost var before := from;
        from, stop := Turn(src, from, flush);
        assert src[..from] == src[..before] + src[before..from];
      }
      assert src[..from] == src;
    }

    /** `tdefl_compress` with an output callback: takes in all of `src`, and flushes as asked. */
    method Compress(src: seq<Byte>, flush: Flush)
      requires Valid() && codes.codeEnd <= CODE_BUF_SIZE - 8
      modifies this, win, win.dict, win.next, win.hash, codes, codes.buf, codes.litFreq, codes.distFreq, w
      ensures flush != Finish ==> Valid() && codes.codeEnd <= CODE_BUF_SIZE - 8 && win.seen == old(win.seen) + src
      ensures flush == Finish ==> Complete(blocks, stream)
      ensures flush != NoFlush ==> Played(blocks) == old(win.seen) + src
      ensures old(stream) <= stream && old(blocks) <= blocks
      ensures win.seen == old(win.seen) + src && Lazily() && CutUp(options, blocks, cuts)
      ensures if flush == NoFlush then src != [] ==> win.lookahead < MAX_MATCH_LEN
              else win.lookahead == 0 && codes.Tokens() == [] && savedLen == 0
      ensures win.from == if flush == FullFlush then |win.seen| else old(win.from)
      ensures old(steps) <= steps && forall i :: |old(steps)| <= i < |steps| ==> Full(steps[i].place, old(win.from), |win.seen|)
      ensures old(cuts) <= cuts && |old(cuts)| <= |cuts| - ForFlush(flush)
      ensures forall i :: |old(cuts)| <= i < |cuts| - ForFlush(flush) ==> Due(options, cuts[i])
    {
      hide *;
      CompressNormal(src, flush);
      ForFlushIs(flush);
      ValidParts();
      if flush == NoFlush { return; }
      ValidParts();
      FaithfulParts();
      HeldBack(win.seen, win.At(), Played(blocks), codes.Tokens(), savedLen, savedDist, savedLit);
      AtIs();
      FlushBlock(flush);
      SmallBuffer();
      if flush == FullFlush { ForgetHistory(); }
    }

    /** No later match reaches back before a full flush. */
    method ForgetHistory()
      requires Valid() && win.lookahead == 0
      modifies win`dictSize, win`from, win.hash, win.next
      ensures Valid() && win.from == |win.seen|
    {
      hide *;
      ValidParts();
      FaithfulParts();
      SentParts();
      LazilyParts();
      Apart();
      AtIs();
      win.Forget();
      WrapIs(|Played(blocks)|);
      Assemble();
    }

    lemma DueBound()
      ensures !FlushDue() ==> codes.codeEnd <= CODE_BUF_SIZE - 8
    {
    }

    lemma DueIs()
      requires codes.Valid()
      ensures FlushDue() <==> Due(options, codes.Tokens())
    {
      codes.EndIs();
      hide codes.Valid, CodeEnd, Span, ValidTokens;
    }

    lemma HistoryIs()
      requires win.Valid()
      ensures var w := win.Here();
              && w.from == win.from && w.from <= w.at && w.at + w.look == |win.seen| && w.look == win.lookahead
              && w.size == (if w.at - w.from <= DICT_SIZE - w.look then w.at - w.from else DICT_SIZE - w.look)
    {
      hide Holds, Linked;
    }

    /** Once all input is parsed and written, the blocks hold all decisions. */
    lemma AllDecided()
      requires ValidOptions(options) && Lazily() && win.lookahead == 0 && codes.Tokens() == [] && savedLen == 0
      ensures Decided(options, win.seen, |win.seen|, steps, Flat(cuts), Nothing)
    {
      hide Decided, Flat;
      NothingAdded(Flat(cuts));
    }

    lemma LazilyParts()
      requires ValidOptions(options) && Lazily()
      ensures Decided(options, win.seen, win.At(), steps, Flat(cuts) + codes.Tokens(), HeldOf(savedLen, savedDist, savedLit))
    {
    }

    lemma MakeLazily()
      requires ValidOptions(options)
      ensures Decided(options, win.seen, win.At(), steps, Flat(cuts) + codes.Tokens(), HeldOf(savedLen, savedDist, savedLit)) ==> Lazily()
    {
    }

    lemma FaithfulParts()
      requires Faithful()
      ensures Parsed(win.seen, win.At(), Played(blocks), codes.Tokens(), savedLen, savedDist, savedLit)
      ensures dictPos == |Played(blocks)| % TWO_32 && win.At() == |win.seen| - win.lookahead
    {
    }

    lemma Assemble()
      ensures Separate() && win.Valid() && codes.Valid() && w.Valid()
              && Parsed(win.seen, win.At(), Played(blocks), codes.Tokens(), savedLen, savedDist, savedLit)
              && dictPos == Wrap(|Played(blocks)|) && Delivered(blocks, stream, LowBits(w.bitBuffer, w.bitsIn))
              && Decided(options, win.seen, win.At(), steps, Flat(cuts) + codes.Tokens(), HeldOf(savedLen, savedDist, savedLit))
              && CutUp(options, blocks, cuts)
              ==> Valid()
    {
    }

    lemma ValidParts()
      requires Valid()
      ensures Separate() && win.Valid() && codes.Valid() && Faithful() && Sent() && Lazily() && CutUp(options, blocks, cuts)
    {
    }

    lemma Apart()
      requires Separate()
      ensures ValidOptions(options) && w.capacity == OUT_CAPACITY && w.capacity > 0 && win.dict != codes.buf
      ensures codes.litFreq != win.next && codes.litFreq != win.hash && codes.distFreq != win.next && codes.distFreq != win.hash
    {
    }
  }

  ghost function AddedBlocks(flush: Flush, body: Body): seq<Block> {
    match flush
    case NoFlush => [Block(false, body)]
    case Finish => [Block(true, body)]
    case _ => [Block(false, body), Block(false, Stored([]))]
  }

  /** The tokens that go into the blocks of a flush. */
  ghost function AddedCuts(flush: Flush, ts: seq<Token>): seq<seq<Token>> {
    if flush == SyncFlush || flush == FullFlush then [ts, []] else [ts]
  }

  /** How many blocks a call adds that are due to the flush alone. */
  function ForFlush(flush: Flush): nat {
    if flush == NoFlush then 0 else if flush == Finish then 1 else 2
  }

  lemma ForFlushIs(flush: Flush)
    ensures flush == NoFlush ==> ForFlush(flush) == 0
    ensures forall ts: seq<Token> :: flush != NoFlush ==> |AddedCuts(flush, ts)| == ForFlush(flush)
  {
  }

  /** All tokens of so many blocks. */
  ghost function Flat(cuts: seq<seq<Token>>): seq<Token> {
    if cuts == [] then [] else Flat(cuts[..|cuts| - 1]) + cuts[|cuts| - 1]
  }

  lemma FlatSnoc(cuts: seq<seq<Token>>, ts: seq<Token>)
    ensures Flat(cuts + [ts]) == Flat(cuts) + ts
  {
    assert (cuts + [ts])[..|cuts|] == cuts;
  }

  /** The form of a block that starts `at` bits into the stream: stored if so asked, or if codes would take no less room than
      its bytes, as far as the window holds these; else with static codes if so asked or if it is short; else with its own. */
  ghost predicate InForm(o: Options, body: Body, ts: seq<Token>, held: bool, at: nat) {
    Chosen(body, ts, o.forceStatic || Span(ts) < 48, o.forceRaw, held, Span(ts), (at + 1) % 8)
  }

  /** Each block holds its tokens, in the form chosen for them, or is an empty one that a flush has added. */
  ghost predicate CutUp(o: Options, blocks: seq<Block>, cuts: seq<seq<Token>>) {
    |blocks| == |cuts| && ValidBlocks(blocks) && forall i :: 0 <= i < |blocks| ==> CutFits(o, blocks[i].body, cuts[i], |Message(blocks[..i])|)
  }

  ghost predicate CutFits(o: Options, body: Body, ts: seq<Token>, at: nat) {
    && (body.Stored? || body.ts == ts)
    && ((ts == [] && body == Stored([])) || exists held: bool :: InForm(o, body, ts, held, at))
  }

  lemma NothingCut(o: Options)
    ensures CutUp(o, [], []) && Flat([]) == []
  {
  }

  lemma CutOne(o: Options, blocks: seq<Block>, cuts: seq<seq<Token>>, b: Block, ts: seq<Token>)
    requires CutUp(o, blocks, cuts) && ValidBody(b.body) && CutFits(o, b.body, ts, |Message(blocks)|)
    ensures CutUp(o, blocks + [b], cuts + [ts]) && Flat(cuts + [ts]) == Flat(cuts) + ts
  {
    hide Flat, CutFits, Message, ValidBody;
    FlatSnoc(cuts, ts);
    var all := blocks + [b];
    forall i | 0 <= i < |all| ensures CutFits(o, all[i].body, (cuts + [ts])[i], |Message(all[..i])|) {
      if i < |blocks| {
        assert all[..i] == blocks[..i];
        assert CutFits(o, blocks[i].body, cuts[i], |Message(blocks[..i])|);
      } else {
        assert all[..i] == blocks;
      }
    }
  }

  lemma CutMore(o: Options, blocks: seq<Block>, cuts: seq<seq<Token>>, flush: Flush, body: Body, ts: seq<Token>, held: bool)
    requires CutUp(o, blocks, cuts) && (body.Stored? || body.ts == ts) && ValidBody(body) && InForm(o, body, ts, held, |Message(blocks)|)
    ensures CutUp(o, blocks + AddedBlocks(flush, body), cuts + AddedCuts(flush, ts))
    ensures Flat(cuts + AddedCuts(flush, ts)) == Flat(cuts) + ts
  {
    hide *;
    var b := Block(flush == Finish, body);
    CutValid(o, blocks, cuts);
    FormFits(o, body, ts, held, |Message(blocks)|);
    CutOne(o, blocks, cuts, b, ts);
    AddedIs(flush, body);
    AddedCutsAre(flush, ts);
    if flush == SyncFlush || flush == FullFlush {
      CutValid(o, blocks + [b], cuts + [ts]);
      EmptyFits(o, |Message(blocks + [b])|);
      CutOne(o, blocks + [b], cuts + [ts], Block(false, Stored([])), []);
      assert cuts + [ts] + [[]] == cuts + AddedCuts(flush, ts);
      assert blocks + [b] + [Block(false, Stored([]))] == blocks + AddedBlocks(flush, body);
      NothingAdded(Flat(cuts) + ts);
    }
  }

  lemma CutValid(o: Options, blocks: seq<Block>, cuts: seq<seq<Token>>)
    requires CutUp(o, blocks, cuts)
    ensures ValidBlocks(blocks)
  {
  }

  lemma FormIs(o: Options, body: Body, ts: seq<Token>, held: bool, total: nat, at: nat)
    requires total == Span(ts) && Chosen(body, ts, o.forceStatic || total < 48, o.forceRaw, held, total, (at + 1) % 8)
    ensures InForm(o, body, ts, held, at)
  {
  }

  lemma AddedCutsAre(flush: Flush, ts: seq<Token>)
    ensures AddedCuts(flush, ts) == if flush == SyncFlush || flush == FullFlush then [ts, []] else [ts]
  {
  }

  lemma FormFits(o: Options, body: Body, ts: seq<Token>, held: bool, at: nat)
    requires (body.Stored? || body.ts == ts) && InForm(o, body, ts, held, at)
    ensures CutFits(o, body, ts, at)
  {
    hide InForm;
  }

  lemma EmptyFits(o: Options, at: nat)
    ensures CutFits(o, Stored([]), [], at) && ValidBody(Stored([]))
  {
  }

  lemma NothingAdded(ts: seq<Token>)
    ensures ts + [] == ts
  {
  }

  /** A search with all the lookahead there is, over all history that has not been forgotten. */
  ghost predicate Full(w: Place, from: nat, end: nat) {
    w.from == from && w.look == Least(MAX_MATCH_LEN, end - w.at)
  }

  lemma FullIs(w: Place, from: nat, end: nat, seen: nat, left: nat)
    requires w.from == from && w.at + w.look == seen && w.look <= MAX_MATCH_LEN && end == seen + left && (left > 0 ==> w.look == MAX_MATCH_LEN)
    ensures Full(w, from, end)
  {
  }

  /** When a block is written though no flush was asked for: the code buffer is nearly full, or the codes are no shorter than
      the input they stand for. */
  ghost predicate Due(o: Options, ts: seq<Token>) {
    && ValidTokens(ts)
    && (CodeEnd(ts) > CODE_BUF_SIZE - 8 || (Span(ts) > 31 * 1024 && (CodeEnd(ts) * 115 / 128 >= Span(ts) || o.forceRaw)))
  }

  lemma NothingDue(o: Options)
    ensures !Due(o, [])
  {
  }

  lemma KnownIs(savedLen: nat, savedDist: nat, savedLit: Byte)
    ensures Known(HeldOf(savedLen, savedDist, savedLit)) == if savedLen > 0 then savedLen else 2
  {
  }

  /** The decisions one by one. */
  lemma DecideIs(o: Options, savedLen: nat, savedDist: nat, savedLit: Byte, lit: Byte, dist: nat, len: nat)
    ensures var d := Decide(o, HeldOf(savedLen, savedDist, savedLit), lit, Candidate(dist, len));
            var atOnce := o.greedy || o.runsOnly || len >= 128;
            && (savedLen > 0 && len <= savedLen ==> d == Decision([Match(savedLen, savedDist)], HeldOf(0, savedDist, savedLit), savedLen - 1))
            && (savedLen > 0 && len > savedLen && len >= 128 ==>
                  d == Decision([Literal(savedLit)] + [Match(len, dist)], HeldOf(0, savedDist, savedLit), len))
            && (savedLen > 0 && len > savedLen && len < 128 ==> d == Decision([Literal(savedLit)], HeldOf(len, dist, lit), 1))
            && (savedLen == 0 && dist == 0 ==> d == Decision([Literal(lit)], HeldOf(0, savedDist, savedLit), 1))
            && (savedLen == 0 && dist != 0 && atOnce ==> d == Decision([Match(len, dist)], HeldOf(0, savedDist, savedLit), len))
            && (savedLen == 0 && dist != 0 && !atOnce && len > 0 ==> d == Decision([], HeldOf(len, dist, lit), 1))
    ensures forall dist': nat, lit': Byte :: HeldOf(0, dist', lit') == Nothing
  {
  }

  function Wrap(n: nat): nat { n % TWO_32 }

  /** A block and what the flush adds to it extend what has been delivered. */
  lemma Flushed(blocks: seq<Block>, stream: seq<Byte>, carry: BitString, flush: Flush, body: Body, ts: seq<Token>,
    out: seq<Byte>, carry': BitString)
    requires Delivered(blocks, stream, carry) && Stands(body, ts, Played(blocks)) && ValidBody(body)
    requires var b, at := Block(flush == Finish, body), |Message(blocks)|;
             ByteBits(out) + carry' == carry + BlockBits(b, at) + FlushBits(flush, at + |BlockBits(b, at)|)
    requires flush == Finish ==> carry' == []
    ensures Played(blocks + AddedBlocks(flush, body)) == Expand(Played(blocks), ts)
    ensures flush == Finish ==> Complete(blocks + AddedBlocks(flush, body), stream + out)
    ensures flush != Finish ==> Delivered(blocks + AddedBlocks(flush, body), stream + out, carry')
  {
    hide *;
    DeliveredParts(blocks, stream, carry);
    var b, at := Block(flush == Finish, body), |Message(blocks)|;
    var x, f := BlockBits(b, at), FlushBits(flush, at + |BlockBits(b, at)|);
    ByteBitsConcat(stream, out);
    Join(ByteBits(stream), carry, ByteBits(out), carry', Message(blocks), x, f);
    FlushIs(flush, at + |x|);
    AddsOne(blocks, stream, carry, b, ts);
    AddedIs(flush, body);
    var all := blocks + AddedBlocks(flush, body);
    if flush == SyncFlush || flush == FullFlush {
      EmptyStored(blocks + [b]);
      assert all == blocks + [b] + [Block(false, Stored([]))];
      NoneLast(all, stream + out, carry');
    } else if flush == NoFlush {
      assert Message(blocks + [b]) + [] == Message(blocks + [b]);
      NoneLast(all, stream + out, carry');
    } else {
      LastOnly(all, stream + out);
    }
  }

  lemma Join(s: BitString, c: BitString, o: BitString, c': BitString, m: BitString, x: BitString, f: BitString)
    requires s + c == m && o + c' == c + x + f
    ensures (s + o) + c' == m + x + f
  {
    Regroup(s, o, c');
    Regroup(c, x, f);
    Regroup(s, c, x + f);
    Regroup(m, x, f);
  }

  lemma AddedIs(flush: Flush, body: Body)
    ensures AddedBlocks(flush, body) == if flush == NoFlush then [Block(false, body)]
            else if flush == Finish then [Block(true, body)] else [Block(false, body), Block(false, Stored([]))]
  {
  }

  lemma DeliveredParts(blocks: seq<Block>, stream: seq<Byte>, carry: BitString)
    requires Delivered(blocks, stream, carry)
    ensures ValidBlocks(blocks) && AllFit(blocks) && (forall i :: 0 <= i < |blocks| ==> !blocks[i].last)
    ensures ByteBits(stream) + carry == Message(blocks)
  {
  }

  lemma AddsOne(blocks: seq<Block>, stream: seq<Byte>, carry: BitString, b: Block, ts: seq<Token>)
    requires Delivered(blocks, stream, carry) && Stands(b.body, ts, Played(blocks))
    ensures ValidBody(b.body) && ValidBlocks(blocks) && ValidBlocks(blocks + [b]) && AllFit(blocks + [b])
    ensures Message(blocks + [b]) == Message(blocks) + BlockBits(b, |Message(blocks)|)
    ensures Played(blocks + [b]) == Expand(Played(blocks), ts)
  {
    hide BlockBits, Message, Effect, FitsBody, AllFit, Expand, ByteBits;
    AppendBlock(blocks, b);
  }

  lemma NoneLast(all: seq<Block>, stream: seq<Byte>, carry: BitString)
    requires ValidBlocks(all) && AllFit(all) && (forall i :: 0 <= i < |all| ==> !all[i].last) && ByteBits(stream) + carry == Message(all)
    ensures Delivered(all, stream, carry)
  {
  }

  lemma LastOnly(all: seq<Block>, stream: seq<Byte>)
    requires all != [] && ValidBlocks(all) && AllFit(all) && (forall i :: 0 <= i < |all| ==> (all[i].last <==> i == |all| - 1))
    requires ByteBits(stream) + [] == Message(all) + LowBits(0, Padding(|Message(all)|))
    ensures Complete(all, stream)
  {
  }

  lemma EmptyStored(blocks: seq<Block>)
    requires ValidBlocks(blocks)
    ensures var all := blocks + [Block(false, Stored([]))];
            ValidBlocks(all) && Message(all) == Message(blocks) + BlockBits(Block(false, Stored([])), |Message(blocks)|)
            && Played(all) == Played(blocks) && (AllFit(blocks) ==> AllFit(all))
  {
    AppendBlock(blocks, Block(false, Stored([])));
  }

  lemma SavedBounds(seen: seq<Byte>, at: int, played: seq<Byte>, ts: seq<Token>, savedLen: nat, savedDist: nat, savedLit: Byte)
    requires Parsed(seen, at, played, ts, savedLen, savedDist, savedLit)
    ensures savedLen == 0 || 3 <= savedLen < 128
  {
  }

  function LeastLookahead(): nat { MAX_MATCH_LEN }

  lemma LeastIs()
    ensures LeastLookahead() == MAX_MATCH_LEN > 0
  {
  }

  lemma SmallBuffer()
    ensures 1 <= CODE_BUF_SIZE - 8
  {
  }

  lemma WrapIs(n: nat)
    ensures Wrap(n) == n % TWO_32
  {
  }

  lemma FillAmount(left: nat, lookahead: nat, n: int)
    requires n == Least(left, MAX_MATCH_LEN - lookahead) && lookahead <= MAX_MATCH_LEN
    ensures 0 <= n <= left && (n < left ==> lookahead + n >= MAX_MATCH_LEN)
  {
  }

  /** A held-back match lies in the lookahead, so an empty lookahead holds nothing back. */
  lemma HeldBack(seen: seq<Byte>, at: int, played: seq<Byte>, ts: seq<Token>, savedLen: nat, savedDist: nat, savedLit: Byte)
    requires Parsed(seen, at, played, ts, savedLen, savedDist, savedLit)
    ensures at == |seen| ==> savedLen == 0
  {
  }

  lemma MatchIs(seen: seq<Byte>, at: int, dist: nat, len: nat)
    requires at >= 0 && Repeats(seen, at, dist, len)
    ensures 1 <= dist <= at && at + len <= |seen|
  {
  }

  lemma OnOutput(w: Writer)
    requires w.Valid() && |w.out| < w.capacity
    ensures ByteBits(w.out) + LowBits(w.bitBuffer, w.bitsIn) == w.sent
  {
  }

  /** After a block, nothing is recorded and the history of played bytes has grown by it. */
  lemma StartAgain(seen: seq<Byte>, at: int, played: seq<Byte>, played': seq<Byte>, ts: seq<Token>, savedLen: nat, savedDist: nat,
    savedLit: Byte, dictPos: nat)
    requires Parsed(seen, at, played, ts, savedLen, savedDist, savedLit) && played' == Expand(played, ts)
    requires dictPos == |played| % TWO_32
    ensures Parsed(seen, at, played', [], savedLen, savedDist, savedLit)
    ensures Wrap(dictPos + Span(ts)) == Wrap(|played'|)
  {
    hide Expand, Fits, Repeats, Span;
    ExpandNothing(played');
    ParsedFits(seen, at, played, ts, savedLen, savedDist, savedLit);
    ExpandLength(played, ts);
    AddWraps(|played|, Span(ts));
  }

  lemma ParsedFits(seen: seq<Byte>, at: int, played: seq<Byte>, ts: seq<Token>, savedLen: nat, savedDist: nat, savedLit: Byte)
    requires Parsed(seen, at, played, ts, savedLen, savedDist, savedLit)
    ensures Fits(played, ts) && ValidTokens(ts)
  {
  }

  lemma ExpandNothing(out: seq<Byte>)
    ensures Expand(out, []) == out && Fits(out, []) && ValidTokens([])
  {
  }

  lemma AllPlayed(seen: seq<Byte>, at: int, played: seq<Byte>, ts: seq<Token>, savedDist: nat, savedLit: Byte)
    requires Parsed(seen, at, played, ts, 0, savedDist, savedLit) && at == |seen|
    ensures Expand(played, ts) == seen
  {
  }

  lemma NoBits(n: nat)
    ensures LowBits(n, 0) == []
  {
  }

  lemma PlayedOne(blocks: seq<Block>, stream: seq<Byte>, carry: BitString, flush: Flush, body: Body, ts: seq<Token>)
    requires Delivered(blocks, stream, carry) && Stands(body, ts, Played(blocks))
    ensures Played(blocks + AddedBlocks(flush, body)) == Expand(Played(blocks), ts)
  {
    hide *;
    var b := Block(flush == Finish, body);
    AddsOne(blocks, stream, carry, b, ts);
    AddedIs(flush, body);
    if flush == SyncFlush || flush == FullFlush {
      EmptyStored(blocks + [b]);
      assert blocks + AddedBlocks(flush, body) == blocks + [b] + [Block(false, Stored([]))];
    }
  }

  lemma FlushShort(flush: Flush, at: nat)
    ensures |FlushBits(flush, at)| <= 42
  {
    assert ByteBits([]) == [];
  }

  lemma AfterBlock(k: nat, at: nat, n: nat)
    requires k == at % 8
    ensures (k + n) % 8 == (at + n) % 8
  {
  }

  lemma SeenPrefix(seen: seq<Byte>, n: nat, e: seq<Byte>)
    requires |e| == n <= |seen| && e == seen[..|e|]
    ensures e == seen[..n]
  {
  }

  lemma ClosedPacks(codes: TokenBuffer, ts: seq<Token>)
    requires codes.codeEnd <= codes.buf.Length && ValidTokens(ts) && codes.buf[..codes.codeEnd] == Packed(ts)
    requires codes.litFreq != codes.distFreq && |ts| < 65535 && codes.codeEnd <= CODE_BUF_SIZE
    ensures Packs(codes, ts)
  {
  }

  /** What a flush adds after the block that starts the flush. */
  ghost function FlushBits(flush: Flush, at: nat): BitString {
    match flush
    case NoFlush => []
    case Finish => LowBits(0, Padding(at))
    case _ => BlockBits(Block(false, Stored([])), at)
  }

  lemma FlushIs(flush: Flush, at: nat)
    ensures flush == NoFlush ==> FlushBits(flush, at) == []
    ensures flush == Finish ==> FlushBits(flush, at) == LowBits(0, Padding(at))
    ensures ValidBody(Stored([]))
    ensures flush != NoFlush && flush != Finish ==> FlushBits(flush, at) == BlockBits(Block(false, Stored([])), at)
  {
  }
}
