/** A compressed stream as a sequence of blocks (section 3.2.3 of RFC 1951), and what it expands to. */
module DeflateStream {
  import opened Bits
  import opened HuffmanDecode
  import opened BlockFormat
  import opened BlockHeader

  datatype Body = Stored(bytes: seq<Byte>) | Static(ts: seq<Token>) | Dynamic(header: Header, ts: seq<Token>)

  datatype Block = Block(last: bool, body: Body)

  ghost predicate ValidBody(b: Body) {
    match b
    case Stored(bytes) => |bytes| < 65536
    case Static(ts) => ValidTokens(ts)
    case Dynamic(h, ts) => ValidHeader(h) && AllCoded(ts, h.lit, h.dist)
  }

  /** How many bits are missing to the next whole byte. */
  function Padding(at: nat): (n: nat)
    ensures n < 8 && (at + n) % 8 == 0
  {
    (8 - at % 8) % 8
  }

  /** A stored block's length, its complement, and its bytes. */
  ghost function StoredBits(bytes: seq<Byte>): BitString
    requires |bytes| < 65536
  {
    LowBits(|bytes|, 16) + (LowBits(65535 - |bytes|, 16) + ByteBits(bytes))
  }

  /** The bits of a block's body that starts `at` bits into the stream. */
  ghost function BlockBody(b: Body, at: nat): BitString
    requires ValidBody(b)
  {
    match b
    case Stored(bytes) => LowBits(0, 2) + (LowBits(0, Padding(at + 2)) + StoredBits(bytes))
    case Static(ts) =>
      StaticAccepts(ts);
      LowBits(1, 2) + BodyBits(ts, StaticLit(), StaticDist())
    case Dynamic(h, ts) => LowBits(2, 2) + (HeaderBits(h) + BodyBits(ts, h.lit, h.dist))
  }

  lemma StaticAccepts(ts: seq<Token>)
    requires ValidTokens(ts)
    ensures |StaticLit()| == 288 && |StaticDist()| == 32
  {
  }

  ghost function BlockBits(b: Block, at: nat): BitString
    requires ValidBody(b.body)
  {
    [b.last] + BlockBody(b.body, at + 1)
  }

  ghost predicate ValidBlocks(blocks: seq<Block>) {
    forall i :: 0 <= i < |blocks| ==> ValidBody(blocks[i].body)
  }

  /** The bits of a sequence of blocks. */
  ghost function Message(blocks: seq<Block>): BitString
    requires ValidBlocks(blocks)
  {
    if blocks == [] then [] else
      var before := Message(blocks[..|blocks| - 1]);
      before + BlockBits(blocks[|blocks| - 1], |before|)
  }

  /** The output after one more block. */
  ghost function Effect(out: seq<Byte>, b: Body): (r: seq<Byte>)
    ensures out <= r
  {
    match b
    case Stored(bytes) => out + bytes
    case Static(ts) => Expand(out, ts)
    case Dynamic(_, ts) => Expand(out, ts)
  }

  ghost predicate FitsBody(out: seq<Byte>, b: Body) {
    match b
    case Stored(_) => true
    case Static(ts) => Fits(out, ts)
    case Dynamic(_, ts) => Fits(out, ts)
  }

  /** The bytes a sequence of blocks stands for. */
  ghost function Played(blocks: seq<Block>): seq<Byte> {
    if blocks == [] then [] else Effect(Played(blocks[..|blocks| - 1]), blocks[|blocks| - 1].body)
  }

  /** Every match of every block reaches back over bytes that are there. */
  ghost predicate AllFit(blocks: seq<Block>) {
    forall i :: 0 <= i < |blocks| ==> FitsBody(Played(blocks[..i]), blocks[i].body)
  }

  /** The blocks form a whole stream: exactly the last one is marked last. */
  ghost predicate Whole(blocks: seq<Block>) {
    && blocks != [] && ValidBlocks(blocks) && AllFit(blocks)
    && forall i :: 0 <= i < |blocks| ==> (blocks[i].last <==> i == |blocks| - 1)
  }

  lemma AppendBlock(blocks: seq<Block>, b: Block)
    requires ValidBlocks(blocks) && ValidBody(b.body)
    ensures ValidBlocks(blocks + [b])
    ensures Message(blocks + [b]) == Message(blocks) + BlockBits(b, |Message(blocks)|)
    ensures Played(blocks + [b]) == Effect(Played(blocks), b.body)
    ensures AllFit(blocks) && FitsBody(Played(blocks), b.body) ==> AllFit(blocks + [b])
  {
    var all := blocks + [b];
    assert all[..|blocks|] == blocks;
    forall i | 0 <= i < |blocks| ensures all[..i] == blocks[..i] {}
  }
}
