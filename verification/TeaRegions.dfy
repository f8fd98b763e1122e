/** Reading a region table out of TEA ciphertext, decrypting one eight-byte block at a time. */
module TeaRegions {
  import opened Bits
  import opened Optional
  import opened RegionTable
  import opened TeaCipher

  function Joined(a: bv8, b: bv8, c: bv8, d: bv8): Word {
    (a as Word) | ((b as Word) << 8) | ((c as Word) << 16) | ((d as Word) << 24)
  }

  /** Four bytes as a little-endian word, and back. */
  function WordOf(b: seq<Byte>): Word
    requires |b| == 4
  {
    Joined(b[0] as bv8, b[1] as bv8, b[2] as bv8, b[3] as bv8)
  }

  function Low(w: Word): bv8 {
    (w & 0xFF) as bv8
  }

  function ByteOf(w: Word): Byte {
    Low(w) as int
  }

  function BytesOf(w: Word): (b: seq<Byte>)
    ensures |b| == 4
  {
    [ByteOf(w), ByteOf(w >> 8), ByteOf(w >> 16), ByteOf(w >> 24)]
  }

  lemma WordBytes(w: Word)
    ensures WordOf(BytesOf(w)) == w
  {
    var a, b, c, d := Low(w), Low(w >> 8), Low(w >> 16), Low(w >> 24);
    BackToBits(a);
    BackToBits(b);
    BackToBits(c);
    BackToBits(d);
    JoinedLow(w);
  }

  lemma BytesWord(b: seq<Byte>)
    requires |b| == 4
    ensures BytesOf(WordOf(b)) == b
  {
    LowJoined(b[0] as bv8, b[1] as bv8, b[2] as bv8, b[3] as bv8);
    forall i | 0 <= i < 4 ensures BytesOf(WordOf(b))[i] == b[i] { BackToByte(b[i]); }
  }

  lemma BackToBits(x: bv8)
    ensures (x as int) as bv8 == x
  {
  }

  lemma BackToByte(n: Byte)
    ensures (n as bv8) as int == n
  {
    var x := BitsFor(n);
    BackToBits(x);
  }

  lemma {:induction false} BitsFor(n: Byte) returns (x: bv8)
    ensures x as int == n
  {
    if n == 0 {
      x := 0;
    } else {
      x := BitsFor(n - 1);
      Increment(x);
      x := x + 1;
    }
  }

  lemma Increment(x: bv8)
    requires x != 255
    ensures (x + 1) as int == x as int + 1
  {
  }

  lemma JoinedLow(w: Word)
    ensures Joined(Low(w), Low(w >> 8), Low(w >> 16), Low(w >> 24)) == w
  {
  }

  lemma LowJoined(a: bv8, b: bv8, c: bv8, d: bv8)
    ensures Low(Joined(a, b, c, d)) == a && Low(Joined(a, b, c, d) >> 8) == b
    ensures Low(Joined(a, b, c, d) >> 16) == c && Low(Joined(a, b, c, d) >> 24) == d
  {
  }

  /** One decrypted block. */
  function Plain(block: seq<Byte>, key: Key): (p: seq<Byte>)
    requires |block| == 8
    ensures |p| == 8
  {
    var b := Decrypt(Block(WordOf(block[..4]), WordOf(block[4..])), 32, key);
    BytesOf(b.v0) + BytesOf(b.v1)
  }

  /** All whole blocks decrypted, one after another; a rest shorter than a block is dropped. */
  function PlainAll(bytes: seq<Byte>, key: Key): seq<Byte> {
    if |bytes| < 8 then [] else Plain(bytes[..8], key) + PlainAll(bytes[8..], key)
  }

  method DecryptBlock(block: seq<Byte>, key: Key) returns (p: seq<Byte>)
    requires |block| == 8
    ensures p == Plain(block, key)
  {
    hide WordOf, ByteOf, Decrypt;
    var b := TeaDecrypt(Block(WordOf(block[..4]), WordOf(block[4..])), key);
    p := BytesOf(b.v0) + BytesOf(b.v1);
  }

  /** The batch form: `decrypt_stream` on as many whole blocks as there are. */
  method DecryptAll(bytes: seq<Byte>, key: Key) returns (p: seq<Byte>)
    ensures p == PlainAll(bytes, key)
  {
    hide Plain;
    p := [];
    var offset: nat := 0;
    assert bytes[0..] == bytes;
    while offset + 8 <= |bytes|
      invariant offset <= |bytes| && PlainAll(bytes, key) == p + PlainAll(bytes[offset..], key)
    {
      assert bytes[offset..][..8] == bytes[offset..offset + 8] && bytes[offset..][8..] == bytes[offset + 8..];
      var block := DecryptBlock(bytes[offset..offset + 8], key);
      assert p + (block + PlainAll(bytes[offset + 8..], key)) == (p + block) + PlainAll(bytes[offset + 8..], key);
      p := p + block;
      offset := offset + 8;
    }
  }

  class TeaReader {
    const ciphertext: seq<Byte>
    const key: Key
    var offset: nat
    var block: seq<Byte>
    var blockOffset: nat

    ghost predicate Valid()
      reads this
    {
      offset <= |ciphertext| && |block| == 8 && blockOffset <= 8
    }

    /** The plaintext not read yet: what is left of the block, then the blocks not decrypted yet. */
    ghost function Left(): seq<Byte>
      reads this
      requires Valid()
    {
      block[blockOffset..] + PlainAll(ciphertext[offset..], key)
    }

    constructor (ciphertext: seq<Byte>, key: Key)
      ensures Valid() && Left() == PlainAll(ciphertext, key)
    {
      this.ciphertext, this.key, offset, block, blockOffset := ciphertext, key, 0, [0, 0, 0, 0, 0, 0, 0, 0], 8;
      new;
      assert ciphertext[0..] == ciphertext && block[8..] == [];
    }

    /** `tea_reader_byte` */
    method ReadByte() returns (b: Option<Byte>)
      requires Valid()
      modifies this
      ensures Valid()
      ensures if old(Left()) == [] then b == None && Left() == [] else b == Some(old(Left())[0]) && Left() == old(Left())[1..]
    {
      hide Plain;
      if blockOffset == 8 {
        if 8 > |ciphertext| - offset { return None; }
        assert ciphertext[offset..][..8] == ciphertext[offset..offset + 8] && ciphertext[offset..][8..] == ciphertext[offset + 8..];
        block := DecryptBlock(ciphertext[offset..offset + 8], key);
        offset := offset + 8;
        blockOffset := 0;
        assert Left() == old(Left());
      }
      ghost var left := Left();
      b := Some(block[blockOffset]);
      assert block[blockOffset..][1..] == block[blockOffset + 1..];
      blockOffset := blockOffset + 1;
      assert Left() == left[1..];
    }

    /** `tea_reader_varint`: reads what `ReadVarint` would read from the whole plaintext. */
    method ReadVarint() returns (v: Option<nat>)
      requires Valid()
      modifies this
      ensures Valid()
      ensures var f := Front(old(Left()));
              if f.None? then v == None
              else v == Some(f.value.value) && f.value.consumed <= |old(Left())| && Left() == old(Left())[f.value.consumed..]
      ensures v.Some? ==> v.value <= MAX32
    {
      hide Add32, Ending, Power128, Shifted, Limit;
      ghost var start := Left();
      var result, i: nat := 0, 0;
      while true
        invariant Valid() && i <= 5 && i <= |start| && i <= Ending(start) && Left() == start[i..]
        invariant (i <= 4 ==> result == Base128(start[..i])) && 0 <= result <= MAX32
        invariant i == 5 ==> Front(start) == None
        decreases |start| - i
      {
        var b := ReadByte();
        if b.None? { return None; }
        assert start[i..][0] == start[i] && start[i..][1..] == start[i + 1..];
        if i < 5 { Reading(start, i); }
        var payload := b.value % 128;
        if i >= 5 || (payload != 0 && payload > Limit(i)) { return None; }
        NextByte(start, i);
        payload := Shifted(payload, i);
        assert result <= MAX32 - payload;
        AddFits(result, payload);
        result := Add32(result, payload);
        if b.value < 128 { return Some(result); }
        i := i + 1;
      }
    }
  }

  /** Reads one entry of a table: a region, the end mark, or neither. */
  method ReadTeaEntry(r: TeaReader, rva: nat) returns (one: bool, last: bool, at: nat, size: nat)
    requires r.Valid() && rva <= MAX32
    modifies r
    ensures r.Valid()
    ensures one == NextEntry(old(r.Left()), rva).One? && last == NextEntry(old(r.Left()), rva).Last?
    ensures one ==> NextEntry(old(r.Left()), rva) == One(at, size, r.Left())
  {
    hide Front, PlainAll, Plain;
    one, last, at, size := false, false, rva, 0;
    ConsumedSome(r.Left());
    var delta := r.ReadVarint();
    if delta.None? || delta.value == 0 || rva > MAX32 - delta.value { return; }
    at := Add32(rva, delta.value);
    if at == MAX32 {
      last := true;
      return;
    }
    ConsumedSome(r.Left());
    var n := r.ReadVarint();
    if n.None? || n.value == 0 || at > MAX32 - n.value { return; }
    one, size := true, n.value;
  }

  /** `parse_tea_regions`: the same regions and stream size as decrypting every whole block first
      and parsing the result, and failure exactly when that fails. */
  method ParseTeaRegions(ciphertext: seq<Byte>, key: Key) returns (t: Option<Table>)
    ensures t == TableAt(PlainAll(ciphertext, key), 0, 0)
  {
    hide NextEntry, PlainAll, Plain, TableAt, Prefixed, Front, Remaining;
    ghost var all := PlainAll(ciphertext, key);
    var r := new TeaReader(ciphertext, key);
    var items: seq<Region>, streamOffset: nat, rva: nat := [], 0, 0;
    StartReading(all);
    ZeroFits();
    while true
      invariant fresh(r) && r.Valid() && streamOffset <= rva <= MAX32 && Remaining(all, r.Left(), rva, streamOffset, items)
      decreases |r.Left()|
    {
      ghost var left := r.Left();
      EntryMakes(all, left, rva, streamOffset, items);
      var one, last, at, size := ReadTeaEntry(r, rva);
      if last { return Some(Table(items, streamOffset)); }
      if !one { return None; }
      assert streamOffset + size <= MAX32;
      items := items + [Region(streamOffset, size, at)];
      rva := Add32(at, size);
      streamOffset := streamOffset + size;
    }
  }

  ghost predicate Remaining(all: seq<Byte>, left: seq<Byte>, rva: nat, streamOffset: nat, items: seq<Region>) {
    TableAt(all, 0, 0) == Prefixed(items, TableAt(left, rva, streamOffset))
  }

  lemma StartReading(all: seq<Byte>)
    ensures Remaining(all, all, 0, 0, [])
  {
    PrefixedNone(TableAt(all, 0, 0));
  }

  lemma EntryMakes(all: seq<Byte>, left: seq<Byte>, rva: nat, streamOffset: nat, items: seq<Region>)
    requires Remaining(all, left, rva, streamOffset, items)
    ensures NextEntry(left, rva).Broken? ==> TableAt(all, 0, 0) == None
    ensures NextEntry(left, rva).Last? ==> TableAt(all, 0, 0) == Some(Table(items, streamOffset))
    ensures NextEntry(left, rva).One? ==> MoreRemains(all, NextEntry(left, rva), streamOffset, items)
  {
    hide NextEntry;
    if NextEntry(left, rva).One? { OneMore(left, rva, streamOffset, items); } else { PrefixedLast(items, streamOffset); }
  }

  ghost predicate MoreRemains(all: seq<Byte>, e: Entry, streamOffset: nat, items: seq<Region>)
    requires e.One?
  {
    Remaining(all, e.rest, e.at + e.size, streamOffset + e.size, items + [Region(streamOffset, e.size, e.at)])
  }

  /** The batch form: decrypt all whole blocks, then parse. */
  method ParseDecrypted(ciphertext: seq<Byte>, key: Key) returns (t: Option<Table>)
    ensures t == TableAt(PlainAll(ciphertext, key), 0, 0)
  {
    var plain := DecryptAll(ciphertext, key);
    t := ParseRegions(plain);
  }
}
