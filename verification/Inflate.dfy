/** The whole inflater: block after block until the last one. */
module Inflate {
  import opened Optional
  import opened Bits
  import opened CanonicalCode
  import opened InflateTables
  import opened HuffmanDecode
  import opened BlockFormat
  import opened OutputBuffer
  import opened BlockReader
  import opened BodyReader
  import BitWriter
  import opened InflateSpec

  /** A byte straight from the input. */
  method DirectByte(r: BitReader) returns (b: Option<nat>)
    requires r.Valid() && r.numBits == 0
    modifies r
    ensures r.Valid() && r.numBits == 0 && |r.Stream()| <= |old(r.Stream())|
    ensures ReadNumber(8, old(r.Stream())) == if b.Some? then Parsed(b.value, r.Stream()) else Bad
    ensures b.Some? ==> b.value < 256
  {
    hide Pow2, LowBits, r.Stream, ReadNumber;
    EmptyBuffer(r);
    PowEight();
    if r.pos >= |r.input| {
      NoBytes();
      TooFew(8, r.Stream());
      return None;
    }
    NextByte(r.input, r.pos);
    var c := r.input[r.pos];
    ghost var start := r.Stream();
    r.pos := r.pos + 1;
    EmptyBuffer(r);
    NumberIs(8, c, start, r.Stream());
    b := Some(c);
  }

  lemma PowEight()
    ensures Pow2(8) == 256 && Pow2(3) == 8
  {
    assert Pow2(8) == 256;
  }

  lemma NoBytes()
    ensures ByteBits([]) == []
  {
  }

  lemma EmptyBuffer(r: BitReader)
    requires r.Valid() && r.numBits == 0
    ensures r.Stream() == ByteBits(r.input[r.pos..])
  {
  }

  /** A byte from the bit buffer if it holds any, else straight from the input. */
  method TakeByte(r: BitReader) returns (b: Option<nat>)
    requires r.Valid()
    modifies r
    ensures r.Valid() && |r.Stream()| <= |old(r.Stream())|
    ensures ReadNumber(8, old(r.Stream())) == if b.Some? then Parsed(b.value, r.Stream()) else Bad
    ensures b.Some? ==> b.value < 256 && (old(r.numBits) % 8 == 0 ==> r.numBits % 8 == 0)
  {
    hide Pow2, LowBits, r.Stream, ReadNumber;
    PowEight();
    r.StreamLength();
    if r.numBits != 0 {
      b := TakeBits(r, 8);
      r.StreamLength();
    } else {
      b := DirectByte(r);
    }
  }

  lemma ModEight(x: nat, y: nat)
    ensures (x + 8 * y) % 8 == x % 8
  {
  }

  /** `TINFL_SKIP_BITS` to the next byte boundary. */
  method SkipToByte(r: BitReader)
    requires r.Valid()
    modifies r
    ensures r.Valid() && r.numBits % 8 == 0 && r.numBits <= old(r.numBits) && r.pos == old(r.pos)
    ensures r.Stream() == old(r.Stream())[|old(r.Stream())| % 8..]
    ensures |r.Stream()| == |old(r.Stream())| - |old(r.Stream())| % 8
  {
    hide LowBits, Pow2, r.Stream;
    r.StreamLength();
    ModEight(r.numBits, |r.input| - r.pos);
    r.Drop(r.numBits % 8);
  }

  /** A sixteen-bit number, byte by byte. */
  method TakeShort(r: BitReader) returns (n: Option<nat>)
    requires r.Valid() && r.numBits % 8 == 0
    modifies r
    ensures r.Valid() && |r.Stream()| <= |old(r.Stream())|
    ensures ReadNumber(16, old(r.Stream())) == if n.Some? then Parsed(n.value, r.Stream()) else Bad
    ensures n.Some? ==> n.value < 65536 && r.numBits % 8 == 0
  {
    hide r.Stream, ReadNumber;
    TwoBytes(r.Stream());
    var a := TakeByte(r);
    if a.None? { return None; }
    var b := TakeByte(r);
    if b.None? { return None; }
    n := Some(a.value + 256 * b.value);
  }

  lemma TwoBytes(bits: BitString)
    ensures var a := ReadNumber(8, bits);
            if a.Bad? then ReadNumber(16, bits) == Bad
            else
              var b := ReadNumber(8, a.rest);
              ReadNumber(16, bits) == if b.Bad? then Bad else Parsed(a.value + 256 * b.value, b.rest)
  {
    if |bits| >= 16 {
      var x, y := bits[..8], bits[8..][..8];
      assert bits[..16] == x + y && bits[8..][8..] == bits[16..];
      ToNatAppend(x, y);
      PowEight();
    }
  }

  /** A stored block's header bytes: its length, or none when the complement does not match. */
  method ReadLength(r: BitReader) returns (len: Option<nat>)
    requires r.Valid() && r.numBits % 8 == 0
    modifies r
    ensures r.Valid() && |r.Stream()| <= |old(r.Stream())|
    ensures len.Some? ==> len.value < 65536 && r.numBits % 8 == 0
    ensures forall out, capacity :: ReadSized(out, capacity, old(r.Stream()))
                                 == if len.Some? then ReadBytes(len.value, out, capacity, r.Stream()) else Bad
  {
    hide r.Stream, ReadNumber, ReadBytes;
    var counter := TakeShort(r);
    if counter.None? { return None; }
    var c := TakeShort(r);
    if c.None? { return None; }
    if counter.value != 65535 - c.value { return None; }
    len := counter;
  }

  /** One byte of a stored block, and the others. */
  lemma BytesStep(n: nat, out: seq<Byte>, capacity: nat, bits: BitString)
    requires n > 0
    ensures var b, p := ReadNumber(8, bits), ReadBytes(n, out, capacity, bits);
            if b.Bad? || |out| >= capacity then p == Bad
            else b.value < 256 && p == ReadBytes(n - 1, out + [b.value], capacity, b.rest)
  {
    if |bits| >= 8 && |out| < capacity {
      EightBits(bits[..8]);
      if |bits| >= 8 * n {
        assert bits[8 * n..] == bits[8..][8 * (n - 1)..];
        assert out + ([ToNat(bits[..8])] + BytesOf(bits[8..], n - 1)) == (out + [ToNat(bits[..8])]) + BytesOf(bits[8..], n - 1);
      }
    }
  }

  lemma NoMoreBytes(out: seq<Byte>, capacity: nat, bits: BitString)
    requires |out| <= capacity
    ensures ReadBytes(0, out, capacity, bits) == Parsed(out, bits)
  {
    assert out + [] == out && bits[0..] == bits;
  }

  /** Stored bytes that already sit in the bit buffer. */
  method DrainStored(r: BitReader, out: Output, count: nat) returns (status: Status, left: nat)
    requires r.Valid() && out.Valid() && r.numBits % 8 == 0
    modifies r, out, out.buf
    ensures r.Valid() && out.Valid() && old(out.Contents()) <= out.Contents() && |r.Stream()| <= |old(r.Stream())|
    ensures left <= count && (status == Done && left > 0 ==> r.numBits == 0)
    ensures ReadBytes(count, old(out.Contents()), out.buf.Length, old(r.Stream()))
         == if status == Done then ReadBytes(left, out.Contents(), out.buf.Length, r.Stream()) else Bad
  {
    hide ReadNumber, ReadBytes, r.Stream;
    left := count;
    while left > 0 && r.numBits > 0
      invariant r.Valid() && out.Valid() && r.numBits % 8 == 0 && left <= count
      invariant old(out.Contents()) <= out.Contents() && |r.Stream()| <= |old(r.Stream())|
      invariant ReadBytes(left, out.Contents(), out.buf.Length, r.Stream())
             == ReadBytes(count, old(out.Contents()), out.buf.Length, old(r.Stream()))
    {
      BytesStep(left, out.Contents(), out.buf.Length, r.Stream());
      var b := TakeByte(r);
      if b.None? { return Failed, left; }
      if out.end >= out.buf.Length { return OutputFull, left; }
      out.Put(b.value);
      left := left - 1;
    }
    status := Done;
  }

  /** The rest of a stored block, in chunks straight from the input. */
  method CopyStored(r: BitReader, out: Output, count: nat) returns (status: Status)
    requires r.Valid() && out.Valid() && (count > 0 ==> r.numBits == 0)
    modifies r, out, out.buf
    ensures r.Valid() && out.Valid() && old(out.Contents()) <= out.Contents() && |r.Stream()| <= |old(r.Stream())|
    ensures Agrees(ReadBytes(count, old(out.Contents()), out.buf.Length, old(r.Stream())), status == Done, out.Contents(), r.Stream())
  {
    hide Pow2, ByteBits, ReadBytes, r.Stream;
    ghost var whole := ReadBytes(count, out.Contents(), out.buf.Length, r.Stream());
    var counter: nat := count;
    while counter > 0
      invariant counter <= count && r.Valid() && out.Valid() && (counter > 0 ==> r.numBits == 0)
      invariant old(out.Contents()) <= out.Contents() && |r.Stream()| <= |old(r.Stream())|
      invariant whole == ReadBytes(counter, out.Contents(), out.buf.Length, r.Stream())
    {
      BytesFit(counter, out.Contents(), out.buf.Length, r.Stream());
      if out.end >= out.buf.Length { return OutputFull; }
      r.StreamLength();
      if r.pos >= |r.input| { return Failed; }
      var n := Least(Least(out.buf.Length - out.end, |r.input| - r.pos), counter);
      var chunk := r.input[r.pos..r.pos + n];
      EmptyBuffer(r);
      ChunkOf(r.input, r.pos, n);
      ManyBytes(counter, n, chunk, out.Contents(), out.buf.Length, ByteBits(r.input[r.pos + n..]));
      r.pos := r.pos + n;
      EmptyBuffer(r);
      r.StreamLength();
      out.PutAll(chunk);
      counter := counter - n;
    }
    NoMoreBytes(out.Contents(), out.buf.Length, r.Stream());
    status := Done;
  }

  function Least(a: nat, b: nat): nat { if a <= b then a else b }

  lemma BytesFit(n: nat, out: seq<Byte>, capacity: nat, bits: BitString)
    requires n > 0
    ensures |out| >= capacity || |bits| < 8 ==> ReadBytes(n, out, capacity, bits) == Bad
  {
  }

  lemma ChunkOf(input: seq<Byte>, pos: nat, n: nat)
    requires pos + n <= |input|
    ensures ByteBits(input[pos..]) == ByteBits(input[pos..pos + n]) + ByteBits(input[pos + n..])
  {
    assert input[pos..] == input[pos..pos + n] + input[pos + n..];
    BitWriter.ByteBitsConcat(input[pos..pos + n], input[pos + n..]);
  }

  /** Several bytes at once. */
  lemma {:induction false} ManyBytes(n: nat, k: nat, chunk: seq<Byte>, out: seq<Byte>, capacity: nat, rest: BitString)
    requires k <= n && |chunk| == k && |out| + k <= capacity
    ensures ReadBytes(n, out, capacity, ByteBits(chunk) + rest) == ReadBytes(n - k, out + chunk, capacity, rest)
    decreases k
  {
    hide ReadBytes, LowBits, ReadNumber;
    if k == 0 {
      NoBytes();
      assert chunk == [] && out + chunk == out && [] + rest == rest;
    } else {
      var bits, tail := ByteBits(chunk) + rest, ByteBits(chunk[1..]) + rest;
      NextByte(chunk, 0);
      assert chunk[0..] == chunk;
      assert bits == LowBits(chunk[0], 8) + tail;
      PowEight();
      NumberIs(8, chunk[0], bits, tail);
      BytesStep(n, out, capacity, bits);
      ManyBytes(n - 1, k - 1, chunk[1..], out + [chunk[0]], capacity, rest);
      assert out + [chunk[0]] + chunk[1..] == out + chunk;
    }
  }

  /** A stored block after its type. */
  method ReadStoredBlock(r: BitReader, out: Output) returns (status: Status)
    requires r.Valid() && out.Valid()
    modifies r, out, out.buf
    ensures r.Valid() && out.Valid() && old(out.Contents()) <= out.Contents() && |r.Stream()| <= |old(r.Stream())|
    ensures Agrees(ReadStored(old(out.Contents()), out.buf.Length, old(r.Stream())), status == Done, out.Contents(), r.Stream())
  {
    hide ReadSized, ReadBytes, r.Stream;
    SkipToByte(r);
    var len := ReadLength(r);
    if len.None? { return Failed; }
    var left;
    status, left := DrainStored(r, out, len.value);
    if status != Done { return; }
    status := CopyStored(r, out, left);
  }

  /** The tables of a static block. */
  method BuildStatic() returns (lit: DecodeTable, dist: DecodeTable)
    ensures fresh(lit) && fresh(lit.lookUp) && fresh(lit.tree) && fresh(dist) && fresh(dist.lookUp) && fresh(dist.tree)
    ensures lit.Ready() && dist.Ready() && lit.sizes == StaticLit() && dist.sizes == StaticDist()
  {
    hide StaticLit, StaticDist, Complete, Holds, Memory;
    StaticComplete();
    lit := new DecodeTable(288);
    dist := new DecodeTable(32);
    var a := dist.Build(StaticDist());
    var b := lit.Build(StaticLit());
  }

  method BuildBoth(litSizes: Sizes, distSizes: Sizes) returns (ok: bool, lit: DecodeTable, dist: DecodeTable)
    requires |litSizes| <= 288 && |distSizes| <= 32
    ensures fresh(lit) && fresh(lit.lookUp) && fresh(lit.tree) && fresh(dist) && fresh(dist.lookUp) && fresh(dist.tree)
    ensures ok == (Accepted(litSizes) && Accepted(distSizes))
    ensures ok ==> lit.Ready() && dist.Ready() && lit.sizes == litSizes && dist.sizes == distSizes
  {
    hide Accepted, Holds, Memory;
    lit := new DecodeTable(288);
    dist := new DecodeTable(32);
    ok := dist.Build(distSizes);
    if ok { ok := lit.Build(litSizes); }
  }

  lemma StaticTablesAre()
    ensures StaticTables() == Tables(StaticLit(), StaticDist()) && |StaticLit()| == 288 && |StaticDist()| == 32
  {
  }

  method ReadStaticBlock(r: BitReader, out: Output) returns (status: Status)
    requires r.Valid() && out.Valid()
    modifies r, out, out.buf
    ensures r.Valid() && out.Valid() && old(out.Contents()) <= out.Contents() && |r.Stream()| <= |old(r.Stream())|
    ensures Agrees(ReadCodes(StaticTables(), old(out.Contents()), out.buf.Length, old(r.Stream())), status == Done, out.Contents(), r.Stream())
  {
    hide *;
    StaticTablesAre();
    var lit, dist := BuildStatic();
    status := ReadBody(r, out, lit, dist);
  }

  /** A dynamic block is its tables and a body, if a decoder can be built for these. */
  lemma DynamicContent(out: seq<Byte>, capacity: nat, bits: BitString)
    ensures var t := ReadTables(bits);
            ReadContent(2, out, capacity, bits)
            == if t.Bad? then Bad
               else if Accepted(t.value.lit) && Accepted(t.value.dist) then ReadCodes(t.value, out, capacity, t.rest)
               else Bad
  {
    hide ReadTables, ReadCodes, Accepted;
  }

  method ReadDynamicBlock(r: BitReader, out: Output) returns (status: Status)
    requires r.Valid() && out.Valid()
    modifies r, out, out.buf
    ensures r.Valid() && out.Valid() && old(out.Contents()) <= out.Contents() && |r.Stream()| <= |old(r.Stream())|
    ensures Agrees(ReadContent(2, old(out.Contents()), out.buf.Length, old(r.Stream())), status == Done, out.Contents(), r.Stream())
  {
    hide Accepted, Complete, ReadTables, ReadCodes, ReadContent, Holds, Memory, Separate, r.Stream, r.Valid, out.Contents;
    DynamicContent(out.Contents(), out.buf.Length, r.Stream());
    var ok, litSizes, distSizes := ReadHeader(r);
    if !ok { return Failed; }
    var built, lit, dist := BuildBoth(litSizes, distSizes);
    if !built { return Failed; }
    status := ReadBody(r, out, lit, dist);
  }

  /** Reads one block. */
  method ReadOne(r: BitReader, out: Output) returns (status: Status, last: bool)
    requires r.Valid() && out.Valid()
    modifies r, out, out.buf
    ensures r.Valid() && out.Valid() && old(out.Contents()) <= out.Contents()
    ensures status == Done ==> |r.Stream()| < |old(r.Stream())|
    ensures Agrees(ReadBlock(old(out.Contents()), out.buf.Length, old(r.Stream())), status == Done, Read(last, out.Contents()), r.Stream())
  {
    hide ReadNumber, ReadStored, ReadCodes, ReadTables, r.Stream;
    last := false;
    var header := TakeBits(r, 3);
    if header.None? { return Failed, false; }
    last := header.value % 2 == 1;
    var kind := header.value / 2;
    if kind == 0 {
      status := ReadStoredBlock(r, out);
    } else if kind == 3 {
      status := Failed;
    } else if kind == 1 {
      status := ReadStaticBlock(r, out);
    } else {
      PowEight();
      status := ReadDynamicBlock(r, out);
    }
  }

  /** Gives back the bytes that were read ahead but not used. */
  method GiveBack(r: BitReader)
    requires r.Valid() && r.numBits % 8 == 0
    modifies r
    ensures r.numBits == 0 && r.pos <= |r.input| && 8 * (|r.input| - r.pos) == |old(r.Stream())|
  {
    hide r.Stream, r.Valid, LowBits, ByteBits, Pow2;
    r.StreamLength();
    ghost var total := |r.Stream()|;
    while r.pos > 0 && r.numBits >= 8
      invariant r.pos <= |r.input| && r.numBits % 8 == 0 && r.numBits <= 8 * r.pos
      invariant r.numBits + 8 * (|r.input| - r.pos) == total
    {
      r.pos := r.pos - 1;
      r.numBits := r.numBits - 8;
    }
    r.bitBuf := 0;
  }

  /** `tinfl_decompress` on a raw stream: the output, and how many input bytes were used.  For every
      input it is done when the stream is in order, with the output the stream stands for, and
      fails when it is not. */
  method InflateAll(input: seq<Byte>, capacity: nat) returns (status: Status, out: Output, used: nat)
    ensures fresh(out) && out.Valid() && out.buf.Length == capacity && used <= |input|
    ensures var p := ReadBlocks([], capacity, ByteBits(input));
            && (p.Parsed? ==> status == Done && out.Contents() == p.value && 8 * (|input| - used) == |p.rest| - |p.rest| % 8)
            && (p.Bad? ==> status != Done)
  {
    hide ReadBlock, ByteBits;
    var r := new BitReader(input);
    out := new Output(capacity);
    ghost var whole := ReadBlocks([], capacity, ByteBits(input));
    var last := false;
    while !last
      invariant fresh(r) && fresh(out) && fresh(out.buf) && r.Valid() && out.Valid() && r.input == input && out.buf.Length == capacity
      invariant whole == if last then Parsed(out.Contents(), r.Stream()) else ReadBlocks(out.Contents(), capacity, r.Stream())
      decreases !last, |r.Stream()|
    {
      status, last := ReadOne(r, out);
      if status != Done { return status, out, r.pos; }
    }
    SkipToByte(r);
    GiveBack(r);
    used := r.pos;
    status := Done;
  }
}
