/** Reading bits and code words from the input, as the inflater's bit-buffer macros do. */
module HuffmanDecode {
  import opened Optional
  import opened Bits
  import opened CanonicalCode
  import opened InflateTables

  /** The bits of a byte sequence, lowest bit of each byte first. */
  function ByteBits(bytes: seq<Byte>): BitString {
    if bytes == [] then [] else LowBits(bytes[0], 8) + ByteBits(bytes[1..])
  }

  lemma {:induction false} ByteBitsLength(bytes: seq<Byte>)
    ensures |ByteBits(bytes)| == 8 * |bytes|
  {
    if bytes != [] { ByteBitsLength(bytes[1..]); }
  }

  lemma NextByte(bytes: seq<Byte>, pos: nat)
    requires pos < |bytes|
    ensures ByteBits(bytes[pos..]) == LowBits(bytes[pos], 8) + ByteBits(bytes[pos + 1..])
  {
    assert bytes[pos..][1..] == bytes[pos + 1..];
  }

  lemma {:induction false} NodePrefix(sizes: Sizes, mem: seq<int>, nodes: NodeMap, p: BitString, d: nat)
    requires NodesFit(sizes, mem, nodes) && p in nodes && 10 <= d <= |p|
    ensures p[..d] in nodes
    decreases |p|
  {
    if d < |p| {
      assert HasCell(nodes, p);
      NodePrefix(sizes, mem, nodes, p[..|p| - 1], d);
      assert p[..|p| - 1][..d] == p[..d];
    } else {
      assert p[..d] == p;
    }
  }

  /** The walk through the tables leaves the nodes exactly at depth `len`. */
  ghost predicate WalkEnds(nodes: NodeMap, bits: nat, len: nat) {
    10 < len <= 15 && LowBits(bits, len - 1) in nodes && LowBits(bits, len) !in nodes
  }

  lemma WalkEndsOnce(sizes: Sizes, mem: seq<int>, nodes: NodeMap, bits: nat, a: nat, b: nat)
    requires NodesFit(sizes, mem, nodes) && WalkEnds(nodes, bits, a) && WalkEnds(nodes, bits, b)
    ensures a == b
  {
    if a < b {
      LowBitsPrefix(bits, b - 1, a);
      NodePrefix(sizes, mem, nodes, LowBits(bits, b - 1), a);
    } else if b < a {
      LowBitsPrefix(bits, a - 1, b);
      NodePrefix(sizes, mem, nodes, LowBits(bits, a - 1), b);
    }
  }

  /** The code word of `s` starts the bits of `bits`. */
  ghost predicate Starts(sizes: Sizes, s: nat, bits: nat) {
    Used(sizes, s) && LowBits(bits, sizes[s]) == Code(sizes, s)
  }

  ghost predicate LookupMeans(sizes: Sizes, nodes: NodeMap, bits: nat, e: int) {
    && (e < 0 <==> LowBits(bits, 10) in nodes)
    && (e < 0 ==> e == NodeEntry(nodes[LowBits(bits, 10)]) && forall s: nat :: Starts(sizes, s, bits) ==> s < |sizes| && sizes[s] > 10)
    && (e == 0 ==> forall s: nat :: !Starts(sizes, s, bits))
    && (e > 0 ==> exists s: nat :: Starts(sizes, s, bits) && s < |sizes| && sizes[s] <= 10 && e == 512 * sizes[s] + s)
  }

  ghost predicate TreeMeans(sizes: Sizes, nodes: NodeMap, bits: nat, d: nat, e: int) {
    && (e < 0 <==> LowBits(bits, d + 1) in nodes)
    && (e < 0 ==> e == NodeEntry(nodes[LowBits(bits, d + 1)]))
    && (e >= 0 ==> forall s: nat :: Starts(sizes, s, bits) ==> s < |sizes| && sizes[s] == d + 1 && e == s)
    && (e > 0 ==> exists s: nat :: Starts(sizes, s, bits) && s < |sizes| && sizes[s] == d + 1)
  }

  lemma StartsMeans(sizes: Sizes, s: nat, bits: nat)
    requires Starts(sizes, s, bits)
    ensures s < |sizes| && sizes[s] > 0 && LowBits(bits, sizes[s]) == Code(sizes, s)
  {
  }

  /** The lookup entry of the next ten bits: a short code word, or a node. */
  lemma LookupEntry(sizes: Sizes, mem: seq<int>, nodes: NodeMap, bits: nat)
    requires Accepted(sizes) && Holds(sizes, |sizes|, mem, nodes)
    ensures ToNat(LowBits(bits, 10)) < LOOKUP_SIZE
    ensures LookupMeans(sizes, nodes, bits, mem[ToNat(LowBits(bits, 10))])
  {
    hide *;
    var w := LowBits(bits, 10);
    RootCell(nodes, w);
    HoldsParts(sizes, mem, nodes);
    var e := mem[ToNat(w)];
    ShortHere(sizes, mem, w);
    CauseHere(sizes, mem, nodes, w);
    NodeHere(sizes, mem, nodes, w);
    MakeMeans(sizes, mem, nodes, bits, e);
  }

  lemma HoldsParts(sizes: Sizes, mem: seq<int>, nodes: NodeMap)
    requires Holds(sizes, |sizes|, mem, nodes)
    ensures NodesFit(sizes, mem, nodes) && Links(mem, nodes) && LongOk(sizes, |sizes|, mem, nodes)
    ensures LOOKUP_SIZE <= |mem| && ShortOk(sizes, |sizes|, mem) && Blank(sizes, |sizes|, mem, nodes)
  {
  }

  lemma ShortHere(sizes: Sizes, mem: seq<int>, w: BitString)
    requires LOOKUP_SIZE <= |mem| && ShortOk(sizes, |sizes|, mem) && |w| == 10 && ToNat(w) < LOOKUP_SIZE
    ensures forall s: nat :: Used(sizes, s) && sizes[s] <= 10 && Code(sizes, s) <= w ==> mem[ToNat(w)] == 512 * sizes[s] + s
  {
    hide ToNat, Code;
    assert Key(w);
    forall s: nat | Used(sizes, s) && sizes[s] <= 10 && Code(sizes, s) <= w ensures mem[ToNat(w)] == 512 * sizes[s] + s {
      assert ShortCode(sizes, |sizes|, s);
    }
  }

  lemma CauseHere(sizes: Sizes, mem: seq<int>, nodes: NodeMap, w: BitString)
    requires LOOKUP_SIZE <= |mem| && Blank(sizes, |sizes|, mem, nodes) && |w| == 10 && ToNat(w) < LOOKUP_SIZE
    ensures mem[ToNat(w)] != 0 && w !in nodes ==> exists s: nat :: Used(sizes, s) && sizes[s] <= 10 && Code(sizes, s) <= w
  {
    hide ToNat, Code, TreeCause, Cell, HasCell;
    assert Key(w);
    if mem[ToNat(w)] != 0 && w !in nodes {
      assert LookupCause(sizes, |sizes|, nodes, w);
      var s: nat :| ShortCode(sizes, |sizes|, s) && Code(sizes, s) <= w;
      assert Used(sizes, s);
    }
  }

  lemma NodeHere(sizes: Sizes, mem: seq<int>, nodes: NodeMap, w: BitString)
    requires NodesFit(sizes, mem, nodes) && Links(mem, nodes) && |w| == 10 && ToNat(w) < LOOKUP_SIZE <= |mem|
    ensures w in nodes ==> mem[ToNat(w)] == NodeEntry(nodes[w]) < 0
  {
    hide ToNat, Internal;
    if w in nodes {
      assert HasCell(nodes, w);
      assert Cell(nodes, w) == ToNat(w);
    }
  }

  lemma MakeMeans(sizes: Sizes, mem: seq<int>, nodes: NodeMap, bits: nat, e: int)
    requires Accepted(sizes) && Holds(sizes, |sizes|, mem, nodes)
    requires var w := LowBits(bits, 10);
             && (forall s: nat :: Used(sizes, s) && sizes[s] <= 10 && Code(sizes, s) <= w ==> e == 512 * sizes[s] + s)
             && (e != 0 && w !in nodes ==> exists s: nat :: Used(sizes, s) && sizes[s] <= 10 && Code(sizes, s) <= w)
             && (w in nodes ==> e == NodeEntry(nodes[w]) < 0)
    ensures LookupMeans(sizes, nodes, bits, e)
  {
    hide Holds, Accepted, Code, LowBits, NodeEntry;
    var w := LowBits(bits, 10);
    forall s: nat | Used(sizes, s) && sizes[s] <= 10 ensures Starts(sizes, s, bits) <==> Code(sizes, s) <= w {
      LowBitsPrefix(bits, 10, sizes[s]);
      CodeLength(sizes, s);
    }
    forall s: nat | Starts(sizes, s, bits) && s < |sizes| && sizes[s] > 10 ensures w in nodes {
      LongStart(sizes, mem, nodes, bits, s);
    }
  }


  /** The bits of a long code word lead through nodes all the way to its last bit. */
  lemma LongStart(sizes: Sizes, mem: seq<int>, nodes: NodeMap, bits: nat, s: nat)
    requires Holds(sizes, |sizes|, mem, nodes) && Starts(sizes, s, bits) && s < |sizes| && sizes[s] > 10
    ensures forall d :: 10 <= d < sizes[s] ==> LowBits(bits, d) in nodes
  {
    hide ToNat, Code, Accepted, Complete, Internal;
    assert LongCode(sizes, |sizes|, s);
    var c := Code(sizes, s);
    var p := c[..|c| - 1];
    assert p in nodes;
    forall d | 10 <= d < sizes[s] ensures LowBits(bits, d) in nodes {
      NodePrefix(sizes, mem, nodes, p, d);
      LowBitsPrefix(bits, sizes[s], d);
      assert p[..d] == c[..d];
    }
  }

  /** The tree entry below node `LowBits(bits, d)`: a deeper node, a long code word, or nothing. */
  lemma TreeEntry(sizes: Sizes, mem: seq<int>, nodes: NodeMap, bits: nat, d: nat)
    requires Accepted(sizes) && Holds(sizes, |sizes|, mem, nodes)
    requires d >= 10 && LowBits(bits, d) in nodes
    ensures d <= 14 && TreeCell(nodes, bits, d) < |mem|
    ensures TreeMeans(sizes, nodes, bits, d, mem[TreeCell(nodes, bits, d)])
  {
    hide ToNat, Code, Accepted, Complete, Internal, Cell, LowBits, TreeCell, Holds, Starts;
    var q := LowBits(bits, d + 1);
    BelowNode(sizes, mem, nodes, bits, d);
    var e := mem[Cell(nodes, q)];
    if q in nodes {
      EntryOfNode(sizes, mem, nodes, q);
    } else {
      if e != 0 { LeafCause(sizes, mem, nodes, bits, d); }
      forall s: nat | Starts(sizes, s, bits) ensures s < |sizes| && sizes[s] == d + 1 && e == s {
        StartsBelow(sizes, mem, nodes, bits, d, s);
        EntryOfCode(sizes, mem, nodes, s);
        assert Code(sizes, s) == q by { StartsMeans(sizes, s, bits); }
      }
    }
  }

  lemma EntryOfNode(sizes: Sizes, mem: seq<int>, nodes: NodeMap, p: BitString)
    requires Holds(sizes, |sizes|, mem, nodes) && p in nodes
    ensures HasCell(nodes, p) && Cell(nodes, p) < |mem| && mem[Cell(nodes, p)] == NodeEntry(nodes[p])
  {
    hide ToNat, Code, Internal, Cell;
    assert HasCell(nodes, p);
    CellBound(sizes, mem, nodes, p);
  }

  lemma EntryOfCode(sizes: Sizes, mem: seq<int>, nodes: NodeMap, s: nat)
    requires Holds(sizes, |sizes|, mem, nodes) && s < |sizes| && sizes[s] > 10
    ensures HasCell(nodes, Code(sizes, s)) && Cell(nodes, Code(sizes, s)) < |mem| && mem[Cell(nodes, Code(sizes, s))] == s
  {
    hide ToNat, Code, Internal, Cell;
    assert LongCode(sizes, |sizes|, s);
  }

  lemma LeafCause(sizes: Sizes, mem: seq<int>, nodes: NodeMap, bits: nat, d: nat)
    requires Holds(sizes, |sizes|, mem, nodes) && d >= 10
    requires var q := LowBits(bits, d + 1);
             HasCell(nodes, q) && q !in nodes && Cell(nodes, q) < |mem| && mem[Cell(nodes, q)] != 0
    ensures exists s: nat :: Starts(sizes, s, bits) && s < |sizes| && sizes[s] == d + 1
  {
    hide ToNat, Code, Internal, Cell, LowBits;
    var q := LowBits(bits, d + 1);
    assert TreeCause(sizes, |sizes|, nodes, q);
    var s: nat :| LongCode(sizes, |sizes|, s) && Code(sizes, s) == q;
    assert Starts(sizes, s, bits);
  }

  ghost function TreeCell(nodes: NodeMap, bits: nat, d: nat): nat
    requires LowBits(bits, d) in nodes
  {
    LOOKUP_SIZE + 2 * nodes[LowBits(bits, d)] + Shr(bits, d) % 2
  }

  lemma NextPath(bits: nat, d: nat)
    ensures LowBits(bits, d + 1) == LowBits(bits, d) + [Shr(bits, d) % 2 == 1]
  {
    LowBitsPrefix(bits, d + 1, d);
    LowBitsAt(bits, d + 1, d);
    var q := LowBits(bits, d + 1);
    assert q == q[..d] + [q[d]];
  }

  lemma BelowNode(sizes: Sizes, mem: seq<int>, nodes: NodeMap, bits: nat, d: nat)
    requires Holds(sizes, |sizes|, mem, nodes) && d >= 10 && LowBits(bits, d) in nodes
    ensures d <= 14 && HasCell(nodes, LowBits(bits, d + 1)) && |LowBits(bits, d + 1)| == d + 1
    ensures Cell(nodes, LowBits(bits, d + 1)) == TreeCell(nodes, bits, d) < |mem|
  {
    hide Holds, LowBits, Shr, Cell, HasCell;
    NextPath(bits, d);
    NodeInRange(sizes, |sizes|, mem, nodes, LowBits(bits, d));
    NodeDepth(sizes, mem, nodes, LowBits(bits, d));
    ChildCell(nodes, LowBits(bits, d), Shr(bits, d) % 2 == 1);
  }

  lemma NodeDepth(sizes: Sizes, mem: seq<int>, nodes: NodeMap, p: BitString)
    requires Holds(sizes, |sizes|, mem, nodes) && p in nodes
    ensures |p| <= 14
  {
  }

  lemma StartsBelow(sizes: Sizes, mem: seq<int>, nodes: NodeMap, bits: nat, d: nat, s: nat)
    requires Accepted(sizes) && Holds(sizes, |sizes|, mem, nodes) && Starts(sizes, s, bits)
    requires d >= 10 && LowBits(bits, d) in nodes && LowBits(bits, d + 1) !in nodes
    ensures s < |sizes| && sizes[s] == d + 1
  {
    if sizes[s] <= d {
      LowBitsPrefix(bits, d, sizes[s]);
      NotACode(sizes, LowBits(bits, d), s);
    } else if sizes[s] > d + 1 {
      LongStart(sizes, mem, nodes, bits, s);
    }
  }

  lemma {:induction false} LowBitsAppend(n: nat, k: nat, m: nat, high: nat)
    requires n < Pow2(k)
    ensures LowBits(n + Pow2(k) * high, k + m) == LowBits(n, k) + LowBits(high, m)
  {
    if k == 0 {
      assert Pow2(0) * high == high;
      assert LowBits(n, 0) + LowBits(high, m) == LowBits(high, m);
    } else {
      LowBitsAppend(n / 2, k - 1, m, high);
      assert Pow2(k) * high == 2 * (Pow2(k - 1) * high);
      assert (n + Pow2(k) * high) / 2 == n / 2 + Pow2(k - 1) * high;
      assert [n % 2 == 1] + (LowBits(n / 2, k - 1) + LowBits(high, m)) == LowBits(n, k) + LowBits(high, m);
    }
  }

  /** Shifting a byte in above the bits already held, `bit_buf |= c << num_bits`. */
  lemma ShiftIn(bits: nat, k: nat, c: Byte)
    requires bits < Pow2(k)
    ensures bits + Pow2(k) * c < Pow2(k + 8)
    ensures LowBits(bits + Pow2(k) * c, k + 8) == LowBits(bits, k) + LowBits(c, 8)
  {
    LowBitsAppend(bits, k, 8, c);
    Pow2Add(k, 8);
    assert Pow2(8) == 256;
    MulMonotone(Pow2(k), c + 1, 256);
    assert Pow2(k) * (c + 1) == Pow2(k) * c + Pow2(k);
  }

  lemma ShiftOut(bits: nat, k: nat, len: nat)
    requires bits < Pow2(k) && len <= k
    ensures Shr(bits, len) < Pow2(k - len)
    ensures LowBits(Shr(bits, len), k - len) == LowBits(bits, k)[len..]
  {
    LowBitsSuffix(bits, k, len);
    ShrFits(bits, k, k - len);
  }

  /** The inflater's input cursor and bit buffer (`pIn_buf_cur`, `bit_buf`, `num_bits`). */
  class BitReader {
    const input: seq<Byte>
    var pos: nat
    var bitBuf: nat
    var numBits: nat

    ghost predicate Valid()
      reads this
    {
      pos <= |input| && bitBuf < Pow2(numBits) && numBits <= 63 && numBits <= 8 * pos
    }

    /** Every bit not consumed yet. */
    ghost function Stream(): BitString
      reads this
      requires Valid()
    {
      LowBits(bitBuf, numBits) + ByteBits(input[pos..])
    }

    constructor (bytes: seq<Byte>)
      ensures Valid() && input == bytes && Stream() == ByteBits(bytes)
    {
      input, pos, bitBuf, numBits := bytes, 0, 0, 0;
    }

    method GetByte()
      requires Valid() && pos < |input| && numBits <= 55
      modifies this
      ensures Valid() && Stream() == old(Stream()) && pos == old(pos) + 1 && numBits == old(numBits) + 8
    {
      hide LowBits, Pow2, ByteBits;
      var c := input[pos];
      ShiftIn(bitBuf, numBits, c);
      NextByte(input, pos);
      Regroup(LowBits(bitBuf, numBits), LowBits(c, 8), ByteBits(input[pos + 1..]));
      bitBuf := bitBuf + Pow2(numBits) * c;
      numBits := numBits + 8;
      pos := pos + 1;
    }

    method Drop(len: nat)
      requires Valid() && len <= numBits
      modifies this
      ensures Valid() && Stream() == old(Stream())[len..] && numBits == old(numBits) - len && pos == old(pos)
    {
      ShiftOut(bitBuf, numBits, len);
      bitBuf := Shr(bitBuf, len);
      numBits := numBits - len;
    }

    /** Takes the next `n` bits as a number; none when the input runs out first. */
    method GetBits(n: nat) returns (b: Option<nat>)
      requires Valid() && n <= 16
      modifies this
      ensures Valid()
      ensures b.Some? ==> b.value < Pow2(n) && old(Stream()) == LowBits(b.value, n) + Stream()
      ensures b.None? <==> |old(Stream())| < n
      ensures b.None? ==> Stream() == old(Stream())
    {
      hide *;
      while numBits < n
        invariant Valid() && Stream() == old(Stream())
        decreases |input| - pos
      {
        StreamLength();
        if pos >= |input| { return None; }
        GetByte();
      }
      LowestBits(n);
      b := Some(bitBuf % Pow2(n));
      Drop(n);
    }

    lemma StreamLength()
      requires Valid()
      ensures |Stream()| == numBits + 8 * (|input| - pos) && pos <= |input| && numBits <= 8 * pos
    {
      ByteBitsLength(input[pos..]);
    }

    /** The lowest bits of the buffer are the next ones of the stream. */
    lemma LowestBits(n: nat)
      requires Valid() && n <= numBits
      ensures Pow2(n) > 0 && bitBuf % Pow2(n) < Pow2(n) && n <= |Stream()|
      ensures Stream() == LowBits(bitBuf % Pow2(n), n) + Stream()[n..]
    {
      hide LowBits, Pow2;
      LowBitsPrefix(bitBuf, numBits, n);
      ToNatOfLowBits(bitBuf, n);
      LowBitsOfToNat(LowBits(bitBuf, n), 0);
      assert LowBits(bitBuf % Pow2(n), n) == Stream()[..n];
    }

    /** Some used code word already starts the bits in the buffer. */
    ghost predicate Ready(sizes: Sizes, nodes: NodeMap)
      reads this
    {
      || numBits >= 15
      || (exists s: nat :: Starts(sizes, s, bitBuf) && sizes[s] <= numBits)
      || (exists len: nat :: WalkEnds(nodes, bitBuf, len) && len <= numBits)
    }

    /** `TINFL_HUFF_BITBUF_FILL`: near the end of the input, reads one byte at a time and only
        while the bits at hand do not yet decode. */
    method Fill(ghost sizes: Sizes, lookUp: array<int>, tree: array<int>, ghost nodes: NodeMap) returns (ok: bool)
      requires Valid() && numBits < 15 && |sizes| <= 288
      requires Separate(sizes, lookUp, tree) && Accepted(sizes) && Holds(sizes, |sizes|, Memory(lookUp, tree), nodes)
      modifies this
      ensures Valid() && Stream() == old(Stream())
      ensures ok ==> Ready(sizes, nodes)
      ensures !ok ==> |Stream()| == numBits < 15 && !Ready(sizes, nodes)
      ensures !ok ==> forall s: nat :: Used(sizes, s) ==> !(Code(sizes, s) <= Stream())
    {
      hide Holds, Accepted, Complete, LowBits, Pow2, Code, Stream;
      while true
        invariant Valid() && Stream() == old(Stream()) && numBits < 15
        decreases |input| - pos
      {
        var decoded := TryDecode(sizes, lookUp, tree, nodes);
        if decoded { return true; }
        if pos >= |input| {
          forall s: nat | Used(sizes, s) ensures !(Code(sizes, s) <= Stream()) { LastBits(sizes, nodes, s); }
          StreamLength();
          return false;
        }
        GetByte();
        if numBits >= 15 { return true; }
      }
    }

    lemma LastBits(sizes: Sizes, nodes: NodeMap, s: nat)
      requires Valid() && pos >= |input| && !Ready(sizes, nodes) && Used(sizes, s)
      ensures !(Code(sizes, s) <= Stream())
    {
      assert ByteBits(input[pos..]) == [];
      assert Stream() == LowBits(bitBuf, numBits);
      assert Starts(sizes, s, bitBuf) ==> sizes[s] > numBits;
      if sizes[s] <= numBits { LowBitsPrefix(bitBuf, numBits, sizes[s]); }
    }

    /** Whether the bits at hand decode, without consuming them. */
    method TryDecode(ghost sizes: Sizes, lookUp: array<int>, tree: array<int>, ghost nodes: NodeMap) returns (ok: bool)
      requires Valid() && numBits < 15 && |sizes| <= 288
      requires Separate(sizes, lookUp, tree) && Accepted(sizes) && Holds(sizes, |sizes|, Memory(lookUp, tree), nodes)
      ensures ok == Ready(sizes, nodes)
    {
      hide Holds, Accepted, Complete, LowBits, Pow2, Code, ToNat, Starts, WalkEnds;
      ghost var mem := Memory(lookUp, tree);
      LookupEntry(sizes, mem, nodes, bitBuf);
      LookupIndex(bitBuf);
      var temp := lookUp[bitBuf % LOOKUP_SIZE];
      if temp >= 0 {
        var codeLen := temp / 512;
        ok := codeLen != 0 && numBits >= codeLen;
        NoWalk(sizes, mem, nodes, bitBuf);
        if temp > 0 { ShortReady(sizes, nodes, temp); }
      } else if numBits > LOOKUP_BITS {
        var codeLen := LOOKUP_BITS;
        while true
          invariant 10 <= codeLen < numBits && LowBits(bitBuf, codeLen) in nodes
          invariant temp == NodeEntry(nodes[LowBits(bitBuf, codeLen)])
          decreases numBits - codeLen
        {
          TreeEntry(sizes, mem, nodes, bitBuf, codeLen);
          temp := tree[-temp - 1 + Shr(bitBuf, codeLen) % 2];
          codeLen := codeLen + 1;
          if temp >= 0 {
            assert WalkEnds(nodes, bitBuf, codeLen) by { EndOfWalk(nodes, bitBuf, codeLen); }
            return true;
          }
          if numBits < codeLen + 1 {
            DeepNode(sizes, mem, nodes, bitBuf, codeLen);
            return false;
          }
        }
      } else {
        DeepNode(sizes, mem, nodes, bitBuf, 10);
        ok := false;
      }
    }

    /** Takes in bytes until the next code can be told, two at once where there are so many. */
    method Enough(ghost sizes: Sizes, lookUp: array<int>, tree: array<int>, ghost nodes: NodeMap) returns (ok: bool)
      requires Valid() && |sizes| <= 288
      requires Separate(sizes, lookUp, tree) && Accepted(sizes) && Holds(sizes, |sizes|, Memory(lookUp, tree), nodes)
      modifies this
      ensures Valid() && Stream() == old(Stream())
      ensures ok ==> Ready(sizes, nodes)
      ensures !ok ==> |Stream()| == numBits < 15 && !Ready(sizes, nodes)
      ensures !ok ==> forall s: nat :: Used(sizes, s) ==> !(Code(sizes, s) <= Stream())
    {
      hide *;
      ok := true;
      if numBits < 15 {
        if |input| - pos < 2 {
          ok := Fill(sizes, lookUp, tree, nodes);
          return;
        }
        GetByte();
        GetByte();
      }
      ManyBits(sizes, nodes);
    }

    lemma ManyBits(sizes: Sizes, nodes: NodeMap)
      ensures numBits >= 15 ==> Ready(sizes, nodes)
    {
    }

    /** Reads the next code word and returns its symbol; none when the input ends inside it. */
    method HuffDecode(ghost sizes: Sizes, lookUp: array<int>, tree: array<int>, ghost nodes: NodeMap) returns (sym: Option<nat>)
      requires Valid() && |sizes| <= 288
      requires Separate(sizes, lookUp, tree) && Accepted(sizes) && Holds(sizes, |sizes|, Memory(lookUp, tree), nodes)
      modifies this
      ensures Valid()
      ensures forall s: nat :: Used(sizes, s) && Code(sizes, s) <= old(Stream()) ==>
                sym == Some(s) && Stream() == old(Stream())[sizes[s]..]
      ensures sym.None? ==> Stream() == old(Stream()) && forall s: nat :: Used(sizes, s) ==> !(Code(sizes, s) <= Stream())
      ensures Complete(sizes) && sym.Some? ==> Used(sizes, sym.value) && Code(sizes, sym.value) <= old(Stream())
      ensures !Complete(sizes) && NoneBegins(sizes, old(Stream())) ==>
                if Stray(sizes, old(Stream())) > 0 || |old(Stream())| >= 15
                then sym == Some(0) && Stream() == old(Stream())[Stray(sizes, old(Stream()))..] else sym == None
      ensures |Stream()| <= |old(Stream())|
      ensures sym.Some? && sym.value != 0 ==> sym.value < |sizes| && |Stream()| < |old(Stream())|
    {
      hide *;
      var ok := Enough(sizes, lookUp, tree, nodes);
      ghost var mem := Memory(lookUp, tree);
      if !ok {
        NoStray(sizes, mem, nodes);
        return None;
      }
      var temp, codeLen := ResolveCode(sizes, lookUp, tree, nodes, bitBuf);
      FitsBuffer(sizes, mem, nodes, codeLen);
      OnlyMatch(sizes, mem, nodes, temp, codeLen);
      if Complete(sizes) { SomeMatch(sizes, temp, codeLen); }
      if NoneBegins(sizes, Stream()) { StrayTaken(sizes, mem, nodes, temp, codeLen); }
      CodeShort(codeLen);
      Drop(codeLen);
      sym := Some(temp);
    }

    lemma FitsBuffer(sizes: Sizes, mem: seq<int>, nodes: NodeMap, len: nat)
      requires Valid() && Holds(sizes, |sizes|, mem, nodes) && Ready(sizes, nodes) && len <= 15
      requires forall s: nat :: Starts(sizes, s, bitBuf) ==> s < |sizes| && len == sizes[s]
      requires len > 10 ==> WalkEnds(nodes, bitBuf, len)
      ensures len <= numBits
    {
      hide LowBits, Code, WalkEnds;
      if numBits < 15 && exists k: nat :: WalkEnds(nodes, bitBuf, k) && k <= numBits {
        var k: nat :| WalkEnds(nodes, bitBuf, k) && k <= numBits;
        WalkAbove(nodes, bitBuf, k);
        if len > 10 { WalkEndsOnce(sizes, mem, nodes, bitBuf, k, len); }
      }
    }

    lemma CodeShort(len: nat)
      requires Valid() && len <= numBits
      ensures len <= |Stream()|
    {
    }

    lemma WalkAbove(nodes: NodeMap, bits: nat, k: nat)
      requires WalkEnds(nodes, bits, k)
      ensures k > 10
    {
    }

    lemma BufferPrefix(k: nat)
      requires Valid() && k <= numBits
      ensures k <= |Stream()| && Stream()[..k] == LowBits(bitBuf, k)
    {
      LowBitsPrefix(bitBuf, numBits, k);
      assert Stream()[..k] == LowBits(bitBuf, numBits)[..k];
    }

    /** Walking off the tree is straying from a code word. */
    lemma WalkIsStray(sizes: Sizes, mem: seq<int>, nodes: NodeMap, len: nat)
      requires Valid() && Holds(sizes, |sizes|, mem, nodes) && len <= numBits
      ensures WalkEnds(nodes, bitBuf, len) <==> len <= 15 && StraysAt(sizes, Stream(), len)
    {
      hide Holds, LowBits, Stream, Internal, Code;
      if len > 10 {
        BufferPrefix(len - 1);
        BufferPrefix(len);
        NodeIs(sizes, mem, nodes, LowBits(bitBuf, len - 1));
        NodeIs(sizes, mem, nodes, LowBits(bitBuf, len));
      }
    }

    lemma NoStray(sizes: Sizes, mem: seq<int>, nodes: NodeMap)
      requires Valid() && Holds(sizes, |sizes|, mem, nodes) && |Stream()| == numBits < 15 && !Ready(sizes, nodes)
      ensures Stray(sizes, Stream()) == 0
    {
      hide Holds, LowBits, Stream, Internal, WalkEnds, StraysAt, Starts;
      var n := Stray(sizes, Stream());
      if n > 0 { WalkIsStray(sizes, mem, nodes, n); }
    }

    /** What is decoded when no code word begins the stream: symbol 0, from the bits that stray or from none. */
    lemma StrayTaken(sizes: Sizes, mem: seq<int>, nodes: NodeMap, sym: nat, len: nat)
      requires Valid() && Holds(sizes, |sizes|, mem, nodes) && Ready(sizes, nodes) && NoneBegins(sizes, Stream()) && len <= numBits && len <= 15
      requires forall s: nat :: Starts(sizes, s, bitBuf) ==> s < |sizes| && len == sizes[s]
      requires len > 10 ==> WalkEnds(nodes, bitBuf, len)
      requires (forall s: nat :: !Starts(sizes, s, bitBuf)) ==> sym == 0 && (len > 10 || (len == 0 && LowBits(bitBuf, 10) !in nodes))
      ensures sym == 0 && len == Stray(sizes, Stream()) && (len > 0 || |Stream()| >= 15)
    {
      hide Holds, LowBits, Stream, Internal, WalkEnds, StraysAt, Code;
      forall s: nat ensures !Starts(sizes, s, bitBuf) {
        if Starts(sizes, s, bitBuf) { BufferPrefix(sizes[s]); }
      }
      if len > 10 {
        WalkIsStray(sizes, mem, nodes, len);
        StraysOnce(sizes, Stream(), len, Stray(sizes, Stream()));
      } else {
        NoWalk(sizes, mem, nodes, bitBuf);
        NotIntoTree(sizes, mem, nodes);
      }
    }

    lemma NotIntoTree(sizes: Sizes, mem: seq<int>, nodes: NodeMap)
      requires Valid() && Holds(sizes, |sizes|, mem, nodes) && numBits >= 15 && LowBits(bitBuf, 10) !in nodes
      ensures Stray(sizes, Stream()) == 0 && |Stream()| >= 15
    {
      hide Holds, LowBits, Stream, Internal, WalkEnds, Code;
      BufferPrefix(10);
      BufferPrefix(15);
      var n, bits := Stray(sizes, Stream()), Stream();
      if n > 0 {
        InternalPrefix(sizes, bits[..n - 1], 10);
        assert bits[..n - 1][..10] == bits[..10];
        NodeIs(sizes, mem, nodes, bits[..10]);
      }
    }

    /** The code found is the only one that starts the stream. */
    lemma OnlyMatch(sizes: Sizes, mem: seq<int>, nodes: NodeMap, sym: nat, len: nat)
      requires Valid() && Accepted(sizes) && Holds(sizes, |sizes|, mem, nodes) && Ready(sizes, nodes)
      requires forall s: nat :: Starts(sizes, s, bitBuf) ==> sym == s && s < |sizes| && len == sizes[s]
      ensures forall s: nat :: Used(sizes, s) && Code(sizes, s) <= Stream() ==> sym == s && len == sizes[s]
    {
      hide Holds, Accepted, Code, Stream, Ready, Starts, Valid;
      forall s: nat | Used(sizes, s) && Code(sizes, s) <= Stream() ensures sym == s && len == sizes[s] {
        MatchInBuffer(sizes, mem, nodes, s);
      }
    }

    lemma MatchInBuffer(sizes: Sizes, mem: seq<int>, nodes: NodeMap, s: nat)
      requires Valid() && Accepted(sizes) && Holds(sizes, |sizes|, mem, nodes) && Ready(sizes, nodes)
      requires Used(sizes, s) && Code(sizes, s) <= Stream()
      ensures Starts(sizes, s, bitBuf)
    {
      hide LowBits, Code, Accepted, Stream, Holds;
      if sizes[s] > numBits {
        if t: nat :| Starts(sizes, t, bitBuf) && sizes[t] <= numBits {
          BufferPrefix(sizes[t]);
          UniquePrefix(sizes, s, t, Stream());
        } else {
          var len: nat :| WalkEnds(nodes, bitBuf, len) && len <= numBits;
          BufferPrefix(len);
          assert Code(sizes, s)[..len] == Stream()[..len];
          CodePrefixNode(sizes, mem, nodes, s, len);
        }
      } else {
        BufferPrefix(sizes[s]);
      }
    }

    lemma SomeMatch(sizes: Sizes, sym: nat, len: nat)
      requires Valid() && Complete(sizes) && len <= numBits
      requires forall s: nat :: Starts(sizes, s, bitBuf) ==> sym == s && s < |sizes| && len == sizes[s]
      ensures Used(sizes, sym) && Code(sizes, sym) <= Stream()
    {
      var s := Covering(sizes, LowBits(bitBuf, 15));
      LowBitsPrefix(bitBuf, 15, sizes[s]);
      assert Starts(sizes, s, bitBuf);
      BufferPrefix(len);
    }

    lemma ShortReady(sizes: Sizes, nodes: NodeMap, e: int)
      requires Valid() && numBits < 15 && |sizes| <= 288 && Accepted(sizes)
      requires e > 0 && LookupMeans(sizes, nodes, bitBuf, e)
      requires forall len: nat :: !WalkEnds(nodes, bitBuf, len)
      ensures e / 512 > 0 && (numBits >= e / 512 <==> Ready(sizes, nodes))
    {
      hide LowBits, Code, Accepted;
      var s: nat :| Starts(sizes, s, bitBuf) && s < |sizes| && sizes[s] <= 10 && e == 512 * sizes[s] + s;
      forall t: nat | Starts(sizes, t, bitBuf) ensures t == s { StartsOnce(sizes, bitBuf, s, t); }
    }
  }

  lemma StartsOnce(sizes: Sizes, bits: nat, s: nat, t: nat)
    requires Accepted(sizes) && Starts(sizes, s, bits) && Starts(sizes, t, bits)
    ensures s == t
  {
    LowBitsPrefix(bits, 15, sizes[s]);
    LowBitsPrefix(bits, 15, sizes[t]);
    UniquePrefix(sizes, s, t, LowBits(bits, 15));
  }

  lemma LookupIndex(bits: nat)
    ensures ToNat(LowBits(bits, 10)) == bits % LOOKUP_SIZE
  {
    ToNatOfLowBits(bits, 10);
    Pow2Sixteen();
  }

  lemma EndOfWalk(nodes: NodeMap, bits: nat, len: nat)
    requires 10 < len <= 15 && LowBits(bits, len - 1) in nodes && LowBits(bits, len) !in nodes
    ensures WalkEnds(nodes, bits, len)
  {
  }

  /** At a node of depth `d`, nothing decodes in `d` bits. */
  lemma DeepNode(sizes: Sizes, mem: seq<int>, nodes: NodeMap, bits: nat, d: nat)
    requires Accepted(sizes) && Holds(sizes, |sizes|, mem, nodes) && d >= 10 && LowBits(bits, d) in nodes
    ensures forall s: nat :: Starts(sizes, s, bits) ==> s < |sizes| && sizes[s] > d
    ensures forall len: nat :: WalkEnds(nodes, bits, len) ==> len > d
  {
    hide Code, Accepted;
    forall s: nat | Starts(sizes, s, bits) ensures sizes[s] > d {
      if sizes[s] <= d {
        LowBitsPrefix(bits, d, sizes[s]);
        NotACode(sizes, LowBits(bits, d), s);
      }
    }
    forall len: nat | WalkEnds(nodes, bits, len) ensures len > d {
      if len <= d {
        LowBitsPrefix(bits, d, len);
        NodePrefix(sizes, mem, nodes, LowBits(bits, d), len);
      }
    }
  }

  lemma NoWalk(sizes: Sizes, mem: seq<int>, nodes: NodeMap, bits: nat)
    requires Holds(sizes, |sizes|, mem, nodes) && LowBits(bits, 10) !in nodes
    ensures forall len: nat :: !WalkEnds(nodes, bits, len)
  {
    hide *;
    HoldsFit(sizes, mem, nodes);
    forall len: nat ensures !WalkEnds(nodes, bits, len) {
      WalkFrom(nodes, bits, len);
      if WalkEnds(nodes, bits, len) {
        LowBitsPrefix(bits, len - 1, 10);
        NodePrefix(sizes, mem, nodes, LowBits(bits, len - 1), 10);
      }
    }
  }

  lemma WalkFrom(nodes: NodeMap, bits: nat, len: nat)
    ensures WalkEnds(nodes, bits, len) ==> 10 < len <= 15 && LowBits(bits, len - 1) in nodes
  {
  }

  lemma CodePrefixNode(sizes: Sizes, mem: seq<int>, nodes: NodeMap, s: nat, d: nat)
    requires Holds(sizes, |sizes|, mem, nodes) && Used(sizes, s) && 10 <= d < sizes[s]
    ensures Code(sizes, s)[..d] in nodes
  {
    hide *;
    CodeLength(sizes, s);
    EntryOfCode(sizes, mem, nodes, s);
    HoldsFit(sizes, mem, nodes);
    var c := Code(sizes, s);
    ParentNode(nodes, c);
    NodePrefix(sizes, mem, nodes, c[..|c| - 1], d);
    assert c[..|c| - 1][..d] == c[..d];
  }

  /** From ten bits on the tree has a node for every proper prefix of a code word, and no others. */
  lemma NodeIs(sizes: Sizes, mem: seq<int>, nodes: NodeMap, p: BitString)
    requires Holds(sizes, |sizes|, mem, nodes) && |p| >= 10
    ensures p in nodes <==> Internal(sizes, p)
  {
    hide Holds, Code;
    HoldsFit(sizes, mem, nodes);
    if Internal(sizes, p) {
      var s :| Used(sizes, s) && p < Code(sizes, s);
      CodeLength(sizes, s);
      CodePrefixNode(sizes, mem, nodes, s, |p|);
      assert Code(sizes, s)[..|p|] == p;
    }
  }

  /** No code word begins the bits. */
  ghost predicate NoneBegins(sizes: Sizes, bits: BitString) {
    forall s: nat :: Used(sizes, s) ==> !(Code(sizes, s) <= bits)
  }

  lemma HoldsFit(sizes: Sizes, mem: seq<int>, nodes: NodeMap)
    requires Holds(sizes, |sizes|, mem, nodes)
    ensures NodesFit(sizes, mem, nodes)
  {
  }

  lemma ParentNode(nodes: NodeMap, c: BitString)
    requires HasCell(nodes, c) && |c| > 10
    ensures c[..|c| - 1] in nodes
  {
  }

  lemma CodeLength(sizes: Sizes, s: nat)
    requires Used(sizes, s)
    ensures s < |sizes| && |Code(sizes, s)| == sizes[s]
  {
  }

  lemma Regroup(a: BitString, b: BitString, c: BitString)
    ensures (a + b) + c == a + (b + c)
  {
  }

  /** Looks a code up in the tables: the ten-bit entry, then the tree. */
  method ResolveCode(ghost sizes: Sizes, lookUp: array<int>, tree: array<int>, ghost nodes: NodeMap, bits: nat)
    returns (sym: nat, codeLen: nat)
    requires |sizes| <= 288
    requires Separate(sizes, lookUp, tree) && Accepted(sizes) && Holds(sizes, |sizes|, Memory(lookUp, tree), nodes)
    ensures codeLen <= 15 && (codeLen > 10 ==> WalkEnds(nodes, bits, codeLen))
    ensures forall s: nat :: Starts(sizes, s, bits) ==> sym == s && s < |sizes| && codeLen == sizes[s]
    ensures sym != 0 ==> sym < |sizes| && codeLen > 0
    ensures (forall s: nat :: !Starts(sizes, s, bits)) ==> sym == 0 && (codeLen > 10 || (codeLen == 0 && LowBits(bits, 10) !in nodes))
  {
    hide Holds, Accepted, Complete, LowBits, Pow2, Code, ToNat, Starts, WalkEnds;
    ghost var mem := Memory(lookUp, tree);
    LookupEntry(sizes, mem, nodes, bits);
    LookupIndex(bits);
    var temp := lookUp[bits % LOOKUP_SIZE];
    if temp >= 0 {
      codeLen := temp / 512;
      sym := temp % 512;
      LookupFound(sizes, nodes, bits, temp);
      if temp > 0 { ShortMatch(sizes, nodes, bits, temp); }
    } else {
      codeLen := LOOKUP_BITS;
      while temp < 0
        invariant 10 <= codeLen <= 15
        invariant temp < 0 ==> LowBits(bits, codeLen) in nodes && temp == NodeEntry(nodes[LowBits(bits, codeLen)])
        invariant temp >= 0 ==> codeLen > 10 && WalkEnds(nodes, bits, codeLen)
        invariant temp >= 0 ==> forall s: nat :: Starts(sizes, s, bits) ==> s < |sizes| && sizes[s] == codeLen && temp == s
        invariant temp > 0 ==> temp < |sizes| && exists s: nat :: Starts(sizes, s, bits)
        decreases temp < 0, 15 - codeLen
      {
        TreeEntry(sizes, mem, nodes, bits, codeLen);
        TreeSymbol(sizes, nodes, bits, codeLen, mem[TreeCell(nodes, bits, codeLen)]);
        temp := tree[-temp - 1 + Shr(bits, codeLen) % 2];
        codeLen := codeLen + 1;
        if temp >= 0 { EndOfWalk(nodes, bits, codeLen); }
      }
      sym := temp;
    }
  }

  lemma TreeSymbol(sizes: Sizes, nodes: NodeMap, bits: nat, d: nat, e: int)
    requires TreeMeans(sizes, nodes, bits, d, e)
    ensures e > 0 ==> e < |sizes| && exists s: nat :: Starts(sizes, s, bits)
  {
  }

  lemma LookupFound(sizes: Sizes, nodes: NodeMap, bits: nat, e: int)
    requires e >= 0 && LookupMeans(sizes, nodes, bits, e)
    ensures LowBits(bits, 10) !in nodes && (e > 0 ==> exists s: nat :: Starts(sizes, s, bits))
  {
    hide LowBits, Starts;
  }

  lemma ShortMatch(sizes: Sizes, nodes: NodeMap, bits: nat, e: int)
    requires |sizes| <= 288 && Accepted(sizes) && e > 0 && LookupMeans(sizes, nodes, bits, e)
    ensures 0 < e / 512 <= 10 && e % 512 < |sizes|
    ensures forall s: nat :: Starts(sizes, s, bits) ==> e % 512 == s && s < |sizes| && e / 512 == sizes[s]
  {
    hide LowBits, Code, Accepted;
    var s: nat :| Starts(sizes, s, bits) && s < |sizes| && sizes[s] <= 10 && e == 512 * sizes[s] + s;
    forall t: nat | Starts(sizes, t, bits) ensures t == s { StartsOnce(sizes, bits, s, t); }
  }
}
