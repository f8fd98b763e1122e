/** The law the two halves exist for: what is deflated, in any chunking and with any options,
    inflates to the input. */
module RoundTrip {
  import opened Bits
  import opened HuffmanDecode
  import opened BitWriter
  import opened LzBuffer
  import opened BlockFormat
  import opened DeflateStream
  import opened OutputBuffer
  import opened BodyReader
  import opened Inflate
  import opened InflateSpec
  import opened StreamMeaning
  import opened LazyParse
  import C = Compressor

  /** One call of the compressor: some input, and how to flush after it. */
  datatype Chunk = Chunk(bytes: seq<Byte>, flush: C.Flush)

  ghost function Joined(chunks: seq<Chunk>): seq<Byte> {
    if chunks == [] then [] else Joined(chunks[..|chunks| - 1]) + chunks[|chunks| - 1].bytes
  }

  /** A finished stream is read as what its blocks play, and ends where it ends, whatever follows it. */
  lemma CompleteMeans(blocks: seq<Block>, stream: seq<Byte>, more: seq<Byte>, capacity: nat)
    requires C.Complete(blocks, stream) && |Played(blocks)| <= capacity
    ensures var p := ReadBlocks([], capacity, ByteBits(stream + more));
            p.Parsed? && p.value == Played(blocks) && |p.rest| - |p.rest| % 8 == 8 * |more|
  {
    ByteBitsConcat(stream, more);
    ByteBitsLength(stream);
    ByteBitsLength(stream + more);
    hide ByteBits, Message, AllFit, Played, ReadBlocks, ValidBlocks;
    assert Message(blocks) <= ByteBits(stream) <= ByteBits(stream + more);
    StreamMeans(blocks, ByteBits(stream + more), capacity);
  }

  /** Compresses the chunks one call at a time and finishes the stream with the last call.  The blocks hold the
      decisions of a lazy parse of the whole input, and the bits written are read as this input. */
  method Deflate(chunks: seq<Chunk>, last: seq<Byte>, options: Options)
    returns (stream: seq<Byte>, ghost blocks: seq<Block>, ghost cuts: seq<seq<Token>>, ghost steps: seq<LazyParse.Step>)
    requires ValidOptions(options) && forall i :: 0 <= i < |chunks| ==> chunks[i].flush != C.Finish
    ensures var p := ReadBlocks([], |Joined(chunks) + last|, ByteBits(stream)); p.Parsed? && p.value == Joined(chunks) + last
    ensures C.Complete(blocks, stream) && Played(blocks) == Joined(chunks) + last
    ensures C.CutUp(options, blocks, cuts)
    ensures var input := Joined(chunks) + last; Decided(options, input, |input|, steps, C.Flat(cuts), Nothing)
  {
    hide *;
    SmallStart();
    var d := new C.Deflater(options);
    var i := 0;
    NothingJoined(chunks);
    while i < |chunks|
      invariant i <= |chunks| && d.Valid() && d.codes.codeEnd <= CODE_BUF_SIZE - 8 && d.win.seen == Joined(chunks[..i]) && d.options == options
      invariant fresh(d) && fresh(d.win) && fresh(d.win.dict) && fresh(d.win.next) && fresh(d.win.hash)
      invariant fresh(d.codes) && fresh(d.codes.buf) && fresh(d.codes.litFreq) && fresh(d.codes.distFreq) && fresh(d.w)
    {
      JoinedNext(chunks, i);
      d.Compress(chunks[i].bytes, chunks[i].flush);
      i := i + 1;
    }
    assert chunks[..i] == chunks;
    d.Compress(last, C.Finish);
    d.AllDecided();
    stream, blocks, cuts, steps := d.stream, d.blocks, d.cuts, d.steps;
    CompleteMeans(blocks, stream, [], |Joined(chunks) + last|);
    assert stream + [] == stream;
  }

  lemma SmallStart()
    ensures 1 <= CODE_BUF_SIZE - 8
  {
  }

  lemma NothingJoined(chunks: seq<Chunk>)
    ensures Joined(chunks[..0]) == []
  {
  }

  lemma JoinedNext(chunks: seq<Chunk>, i: nat)
    requires i < |chunks|
    ensures Joined(chunks[..i + 1]) == Joined(chunks[..i]) + chunks[i].bytes
  {
    assert chunks[..i + 1][..i] == chunks[..i];
  }

  /** Inflating what was deflated gives the input back, from exactly the bytes that were written,
      for any following bytes and for every output buffer that can hold it. */
  method DeflateThenInflate(chunks: seq<Chunk>, last: seq<Byte>, options: Options, more: seq<Byte>, spare: nat)
    returns (stream: seq<Byte>, status: Status, result: seq<Byte>, used: nat)
    requires ValidOptions(options) && forall i :: 0 <= i < |chunks| ==> chunks[i].flush != C.Finish
    ensures status == Done && result == Joined(chunks) + last && used == |stream|
  {
    hide *;
    ghost var blocks, cuts, steps;
    stream, blocks, cuts, steps := Deflate(chunks, last, options);
    var room := Sizes(chunks, last);
    CompleteMeans(blocks, stream, more, room + spare);
    var out;
    status, out, used := InflateAll(stream + more, room + spare);
    assert 8 * (|stream + more| - used) == 8 * |more|;
    result := Taken(out);
  }

  method Taken(out: Output) returns (bytes: seq<Byte>)
    requires out.Valid()
    ensures bytes == out.Contents()
  {
    bytes := out.buf[..out.end];
  }

  method Sizes(chunks: seq<Chunk>, last: seq<Byte>) returns (n: nat)
    ensures n == |Joined(chunks) + last|
  {
    n := |last|;
    var i := 0;
    while i < |chunks|
      invariant i <= |chunks| && n == |last| + |Joined(chunks[..i])|
    {
      JoinedNext(chunks, i);
      n := n + |chunks[i].bytes|;
      i := i + 1;
    }
    assert chunks[..i] == chunks;
  }
}
