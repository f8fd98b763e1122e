/** Tables of encrypted regions: variable-length numbers giving gaps and sizes. */
module RegionTable {
  import opened Optional
  import opened Bits

  const MAX32 := 0xFFFF_FFFF

  /** Addition of 32-bit words. */
  function Add32(a: nat, b: nat): nat { (a + b) % 0x1_0000_0000 }

  lemma AddFits(a: nat, b: nat)
    requires a + b <= MAX32
    ensures Add32(a, b) == a + b
  {
  }

  datatype Region = Region(streamOffset: nat, size: nat, rva: nat)

  datatype Varint = Varint(value: nat, consumed: nat)

  datatype Table = Table(regions: seq<Region>, streamSize: nat)

  /** Seven bits a byte, lowest first. */
  function Base128(bytes: seq<Byte>): nat {
    if bytes == [] then 0 else bytes[0] % 128 + 128 * Base128(bytes[1..])
  }

  function Power128(n: nat): (p: nat)
    ensures p > 0
  {
    if n == 0 then 1 else 128 * Power128(n - 1)
  }

  /** Seven bits in their place. */
  function Shifted(payload: nat, i: nat): nat {
    payload * Power128(i)
  }

  /** Where the first byte without a continuation bit is. */
  function Ending(bytes: seq<Byte>): (k: nat)
    ensures k <= |bytes| && (k < |bytes| ==> bytes[k] < 128) && forall i :: 0 <= i < k ==> bytes[i] >= 128
  {
    if bytes == [] || bytes[0] < 128 then 0 else 1 + Ending(bytes[1..])
  }

  /** The number at the front: at most five bytes, the fifth at most fifteen. */
  function Front(bytes: seq<Byte>): Option<Varint> {
    var k := Ending(bytes);
    if k < |bytes| && k <= 4 && (k == 4 ==> bytes[4] <= 15) then Some(Varint(Base128(bytes[..k + 1]), k + 1)) else None
  }

  lemma {:induction false} Base128Snoc(bytes: seq<Byte>, b: Byte)
    ensures Base128(bytes + [b]) == Base128(bytes) + (b % 128) * Power128(|bytes|)
  {
    if bytes == [] {
      assert [b][1..] == [] && Base128([]) == 0;
    } else {
      Base128Snoc(bytes[1..], b);
      assert (bytes + [b])[1..] == bytes[1..] + [b];
      assert 128 * ((b % 128) * Power128(|bytes| - 1)) == (b % 128) * (128 * Power128(|bytes| - 1));
    }
  }

  lemma {:induction false} Base128Bound(bytes: seq<Byte>)
    ensures Base128(bytes) < Power128(|bytes|)
  {
    if bytes != [] { Base128Bound(bytes[1..]); }
  }

  lemma Powers()
    ensures Power128(0) == 1 && Power128(1) == 128 && Power128(2) == 0x4000 && Power128(3) == 0x20_0000
    ensures Power128(4) == 0x1000_0000
  {
    assert Power128(2) == 128 * Power128(1);
    assert Power128(3) == 128 * Power128(2);
    assert Power128(4) == 128 * Power128(3);
  }

  /** `UINT32_MAX >> shift` for the shifts of the first five bytes. */
  function Limit(i: nat): nat {
    if i == 0 then MAX32 else if i == 1 then 0x1FF_FFFF else if i == 2 then 0x3_FFFF else if i == 3 then 0x7FF else 15
  }

  lemma NextByte(bytes: seq<Byte>, i: nat)
    requires i < |bytes| && i <= 4
    ensures Base128(bytes[..i + 1]) == Base128(bytes[..i]) + Shifted(bytes[i] % 128, i)
    ensures Base128(bytes[..i]) < Power128(i)
    ensures bytes[i] % 128 <= Limit(i) ==> Base128(bytes[..i + 1]) <= MAX32
    ensures i < 4 ==> bytes[i] % 128 <= Limit(i)
  {
    Powers();
    assert bytes[..i + 1] == bytes[..i] + [bytes[i]];
    Base128Snoc(bytes[..i], bytes[i]);
    Base128Bound(bytes[..i]);
  }

  /** What the next byte says about the number at the front. */
  lemma Reading(bytes: seq<Byte>, i: nat)
    requires i < |bytes| && i <= 4 && i <= Ending(bytes)
    ensures bytes[i] >= 128 ==> i + 1 <= Ending(bytes)
    ensures bytes[i] % 128 > Limit(i) ==> Front(bytes) == None
    ensures i == 4 && bytes[i] >= 128 ==> Front(bytes) == None
    ensures bytes[i] < 128 && bytes[i] % 128 <= Limit(i) ==> Front(bytes) == Some(Varint(Base128(bytes[..i + 1]), i + 1))
  {
    hide Base128, Ending;
  }

  /** `dearxan_read_varint`.  Its check for overflow of the sum never fires. */
  method ReadVarint(bytes: seq<Byte>) returns (r: Option<Varint>)
    ensures r == Front(bytes)
    ensures r.Some? ==> r.value.value <= MAX32
  {
    hide Add32, Ending, Power128, Shifted, Limit;
    var result, i: nat := 0, 0;
    while i < |bytes|
      invariant i <= |bytes| && i <= 5 && i <= Ending(bytes) && (i <= 4 ==> result == Base128(bytes[..i])) && result <= MAX32
      invariant i == 5 ==> Front(bytes) == None
    {
      if i < 5 { Reading(bytes, i); }
      var payload := bytes[i] % 128;
      if i >= 5 || (payload != 0 && payload > Limit(i)) { return None; }
      NextByte(bytes, i);
      payload := Shifted(payload, i);
      var overflow := result > MAX32 - payload;
      assert !overflow;
      AddFits(result, payload);
      result := Add32(result, payload);
      if bytes[i] < 128 { return Some(Varint(result, i + 1)); }
      i := i + 1;
    }
    r := None;
  }

  /** The shortest encoding of a number. */
  function Encoded(v: nat): (e: seq<Byte>)
    ensures |e| > 0
  {
    if v < 128 then [v] else [128 + v % 128] + Encoded(v / 128)
  }

  lemma LowSeven(v: nat)
    ensures (128 + v % 128) % 128 == v % 128 && v == v % 128 + 128 * (v / 128)
  {
  }

  lemma NoBytes()
    ensures Base128([]) == 0
  {
  }

  lemma InFront(b: Byte, bytes: seq<Byte>)
    ensures Base128([b] + bytes) == b % 128 + 128 * Base128(bytes)
    ensures Ending([b] + bytes) == if b < 128 then 0 else 1 + Ending(bytes)
  {
    assert ([b] + bytes)[1..] == bytes;
  }

  lemma {:induction false} EncodedValue(v: nat, rest: seq<Byte>)
    ensures Base128(Encoded(v)) == v && Ending(Encoded(v) + rest) == |Encoded(v)| - 1
  {
    hide Base128, Ending;
    if v < 128 {
      NoBytes();
      InFront(v, []);
      InFront(v, rest);
      assert [v] + [] == Encoded(v);
    } else {
      EncodedValue(v / 128, rest);
      LowSeven(v);
      var e := Encoded(v / 128);
      InFront(128 + v % 128, e);
      InFront(128 + v % 128, e + rest);
      assert Encoded(v) + rest == [128 + v % 128] + (e + rest);
    }
  }

  /** The last byte is what is left after the others' seven bits each. */
  lemma {:induction false} EncodedLast(v: nat)
    ensures Encoded(v)[|Encoded(v)| - 1] == v / Power128(|Encoded(v)| - 1)
  {
    if v >= 128 {
      EncodedLast(v / 128);
      DivTwice(v, Power128(|Encoded(v / 128)| - 1));
    }
  }

  lemma {:induction false} EncodedLength(v: nat, n: nat)
    requires n > 0 && v < Power128(n)
    ensures |Encoded(v)| <= n
  {
    if v >= 128 {
      assert Power128(1) == 128 * Power128(0);
      EncodedLength(v / 128, n - 1);
    }
  }

  lemma DivTwice(v: nat, p: nat)
    requires p > 0
    ensures (v / 128) / p == v / (128 * p)
  {
    var q, r := (v / 128) / p, (v / 128) % p;
    assert v / 128 == p * q + r;
    assert v == (128 * p) * q + (128 * r + v % 128) by { assert 128 * (p * q) == (128 * p) * q; }
    ModUnique(v, 128 * p, q, 128 * r + v % 128);
  }

  /** Reading undoes encoding, for every 32-bit number and whatever follows. */
  lemma VarintRoundTrip(v: nat, rest: seq<Byte>)
    requires v <= MAX32
    ensures Front(Encoded(v) + rest) == Some(Varint(v, |Encoded(v)|))
  {
    Powers();
    assert Power128(5) == 128 * Power128(4);
    EncodedValue(v, rest);
    EncodedLast(v);
    EncodedLength(v, 5);
    hide Encoded, Base128, Ending, Power128;
    var e := Encoded(v);
    assert (e + rest)[..|e|] == e && (e + rest)[|e| - 1] == e[|e| - 1];
  }

  /** Regions that ascend with a gap before each, whose stream offsets follow one another. */
  ghost predicate Ascending(regions: seq<Region>, rva: nat, streamOffset: nat)
  {
    regions == [] || (
      && regions[0].rva > rva && regions[0].rva < MAX32 && regions[0].size > 0 && regions[0].rva + regions[0].size <= MAX32
      && regions[0].streamOffset == streamOffset
      && Ascending(regions[1..], regions[0].rva + regions[0].size, streamOffset + regions[0].size))
  }

  /** Ascending regions are apart from one another, in order. */
  lemma {:induction false} AscendingApart(regions: seq<Region>, rva: nat, streamOffset: nat, i: nat, j: nat)
    requires Ascending(regions, rva, streamOffset) && i < j < |regions|
    ensures rva < regions[i].rva && regions[i].size > 0 && regions[i].rva + regions[i].size < regions[j].rva && regions[j].size > 0
    decreases |regions|
  {
    var end, offset := regions[0].rva + regions[0].size, streamOffset + regions[0].size;
    if i > 0 {
      AscendingApart(regions[1..], end, offset, i - 1, j - 1);
    } else {
      Beyond(regions[1..], end, offset, j - 1);
    }
  }

  lemma {:induction false} Beyond(regions: seq<Region>, rva: nat, streamOffset: nat, i: nat)
    requires Ascending(regions, rva, streamOffset) && i < |regions|
    ensures regions[i].rva > rva && regions[i].size > 0
    decreases |regions|
  {
    if i > 0 { Beyond(regions[1..], regions[0].rva + regions[0].size, streamOffset + regions[0].size, i - 1); }
  }

  function TotalSize(regions: seq<Region>): nat {
    if regions == [] then 0 else regions[0].size + TotalSize(regions[1..])
  }

  function EndOf(regions: seq<Region>, rva: nat): nat {
    if regions == [] then rva else regions[|regions| - 1].rva + regions[|regions| - 1].size
  }

  /** The next entry of a table: the end mark, or a region's address and size. */
  datatype Entry = Broken | Last | One(at: nat, size: nat, rest: seq<Byte>)

  function NextEntry(bytes: seq<Byte>, rva: nat): (e: Entry)
    ensures e.One? ==> |e.rest| < |bytes| && rva < e.at < MAX32 && 0 < e.size && e.at + e.size <= MAX32
  {
    var delta := Front(bytes);
    if delta.None? || delta.value.value == 0 || rva + delta.value.value > MAX32 then Broken
    else if rva + delta.value.value == MAX32 then Last
    else EntryAt(rva + delta.value.value, bytes[delta.value.consumed..])
  }

  function EntryAt(at: nat, more: seq<Byte>): (e: Entry)
    requires at < MAX32
    ensures e.One? ==> |e.rest| <= |more| && e.at == at && 0 < e.size && at + e.size <= MAX32
  {
    var size := Front(more);
    if size.None? || size.value.value == 0 || at + size.value.value > MAX32 then Broken
    else One(at, size.value.value, more[size.value.consumed..])
  }

  /** What a table at the front of the bytes says, from a given address and stream offset on. */
  function TableAt(bytes: seq<Byte>, rva: nat, streamOffset: nat): Option<Table>
    decreases |bytes|
  {
    match NextEntry(bytes, rva)
    case Broken => None
    case Last => Some(Table([], streamOffset))
    case One(at, n, rest) =>
      var tail := TableAt(rest, at + n, streamOffset + n);
      if tail.None? then None else Some(Table([Region(streamOffset, n, at)] + tail.value.regions, tail.value.streamSize))
  }

  /** Every accepted table has positive sizes, gaps of at least one, contiguous stream offsets, and
      a stream as long as the sizes together. */
  lemma {:induction false} AcceptedTables(bytes: seq<Byte>, rva: nat, streamOffset: nat)
    requires TableAt(bytes, rva, streamOffset).Some?
    ensures var t := TableAt(bytes, rva, streamOffset).value;
            Ascending(t.regions, rva, streamOffset) && t.streamSize == streamOffset + TotalSize(t.regions)
    decreases |bytes|
  {
    hide NextEntry;
    match NextEntry(bytes, rva) {
      case Last =>
      case One(at, n, rest) =>
        AcceptedTables(rest, at + n, streamOffset + n);
        var t := TableAt(bytes, rva, streamOffset).value;
        assert t.regions[1..] == TableAt(rest, at + n, streamOffset + n).value.regions;
    }
  }

  /** The table of a region list: gap and size of each region, and the gap to the last address. */
  function EncodedTable(regions: seq<Region>, rva: nat): seq<Byte>
    requires Ascending(regions, rva, if regions == [] then 0 else regions[0].streamOffset)
    requires rva < MAX32 && EndOf(regions, rva) < MAX32
  {
    if regions == [] then Encoded(MAX32 - rva)
    else
      EndAfter(regions, rva);
      Encoded(regions[0].rva - rva) + (Encoded(regions[0].size) + EncodedTable(regions[1..], regions[0].rva + regions[0].size))
  }

  lemma {:induction false} EndAfter(regions: seq<Region>, rva: nat)
    requires regions != [] && Ascending(regions, rva, regions[0].streamOffset) && EndOf(regions, rva) < MAX32
    ensures EndOf(regions[1..], regions[0].rva + regions[0].size) == EndOf(regions, rva)
    ensures regions[0].rva + regions[0].size <= EndOf(regions, rva)
    ensures regions[1..] != [] ==> regions[1].streamOffset == regions[0].streamOffset + regions[0].size
    decreases |regions|
  {
    if |regions| > 1 {
      assert regions[1..][0] == regions[1];
      EndAfter(regions[1..], regions[0].rva + regions[0].size);
    }
  }

  /** One region of a table: its gap, its size, and the rest. */
  lemma EntryRoundTrip(gap: nat, size: nat, tail: seq<Byte>, rva: nat)
    requires 0 < gap && 0 < size && rva + gap + size <= MAX32
    ensures NextEntry(Encoded(gap) + (Encoded(size) + tail), rva) == One(rva + gap, size, tail)
  {
    hide Front, Encoded;
    VarintRoundTrip(gap, Encoded(size) + tail);
    VarintRoundTrip(size, tail);
    var bytes := Encoded(gap) + (Encoded(size) + tail);
    assert bytes[|Encoded(gap)|..] == Encoded(size) + tail;
    assert (Encoded(size) + tail)[|Encoded(size)|..] == tail;
  }

  lemma EndRoundTrip(gap: nat, rest: seq<Byte>, rva: nat)
    requires 0 < gap && rva + gap == MAX32
    ensures NextEntry(Encoded(gap) + rest, rva) == Last
  {
    hide Front, Encoded;
    VarintRoundTrip(gap, rest);
  }

  lemma Regroup(a: seq<Byte>, b: seq<Byte>, c: seq<Byte>, d: seq<Byte>)
    ensures (a + (b + c)) + d == a + (b + (c + d))
  {
  }

  /** Parsing inverts the encoding of every ascending, gap-separated region list. */
  lemma {:induction false} TableRoundTrip(regions: seq<Region>, rva: nat, streamOffset: nat, rest: seq<Byte>)
    requires Ascending(regions, rva, streamOffset) && rva < MAX32 && EndOf(regions, rva) < MAX32
    ensures TableAt(EncodedTable(regions, rva) + rest, rva, streamOffset) == Some(Table(regions, streamOffset + TotalSize(regions)))
    decreases |regions|
  {
    hide NextEntry, Encoded;
    if regions == [] {
      EndRoundTrip(MAX32 - rva, rest, rva);
    } else {
      EndAfter(regions, rva);
      var gap, size := regions[0].rva - rva, regions[0].size;
      var end := regions[0].rva + size;
      var inner := EncodedTable(regions[1..], end);
      var tail := inner + rest;
      assert EncodedTable(regions, rva) == Encoded(gap) + (Encoded(size) + inner);
      Regroup(Encoded(gap), Encoded(size), inner, rest);
      EntryRoundTrip(gap, size, tail, rva);
      TableRoundTrip(regions[1..], end, streamOffset + size, rest);
      assert [regions[0]] + regions[1..] == regions;
    }
  }

  /** Gaps and sizes byte by byte. */
  lemma EncodedVectors()
    ensures Encoded(0x1010) == [0x90, 0x20] && Encoded(16) == [0x10] && Encoded(300) == [0xAC, 0x02]
    ensures Encoded(0xFFFF_EEA3) == [0xA3, 0xDD, 0xFF, 0xFF, 0x0F]
  {
    assert Encoded(0x0F) == [0x0F] && Encoded(0x7FF) == [0xFF, 0x0F] && Encoded(0x3_FFFF) == [0xFF, 0xFF, 0x0F];
    assert Encoded(0x1FF_FFDD) == [0xDD] + Encoded(0x3_FFFF);
  }

  /** A table byte by byte: a gap of 0x1010 and a size of 16, a gap of 16 and a size of 300, and the gap to the last address. */
  lemma TableVector()
    ensures TableAt([0x90, 0x20, 0x10, 0x10, 0xAC, 0x02, 0xA3, 0xDD, 0xFF, 0xFF, 0x0F], 0, 0)
      == Some(Table([Region(0, 16, 0x1010), Region(16, 300, 0x1030)], 316))
  {
    hide Encoded, NextEntry, Front;
    EncodedVectors();
    var end: seq<Byte> := [0xA3, 0xDD, 0xFF, 0xFF, 0x0F];
    var second: seq<Byte> := [0x10] + ([0xAC, 0x02] + end);
    EndRoundTrip(0xFFFF_EEA3, [], 0x115C);
    assert end + [] == end && [Region(16, 300, 0x1030)] + [] == [Region(16, 300, 0x1030)];
    EntryRoundTrip(16, 300, end, 0x1020);
    EntryRoundTrip(0x1010, 16, second, 0);
    assert TableAt(end, 0x115C, 316) == Some(Table([], 316));
    assert TableAt(second, 0x1020, 16) == Some(Table([Region(16, 300, 0x1030)], 316));
    assert [Region(0, 16, 0x1010)] + [Region(16, 300, 0x1030)] == [Region(0, 16, 0x1010), Region(16, 300, 0x1030)];
    assert [0x90, 0x20] + ([0x10] + second) == [0x90, 0x20, 0x10, 0x10, 0xAC, 0x02, 0xA3, 0xDD, 0xFF, 0xFF, 0x0F];
  }

  /** Reads one entry of a table and moves past it. */
  method ReadEntry(bytes: seq<Byte>, offset: nat, rva: nat) returns (e: Entry, next: nat)
    requires offset < |bytes| && rva <= MAX32
    ensures e == NextEntry(bytes[offset..], rva) && (e.One? ==> offset < next <= |bytes| && e.rest == bytes[next..])
  {
    hide Front;
    next := offset;
    ghost var from := bytes[offset..];
    ConsumedSome(from);
    var delta := ReadVarint(bytes[offset..]);
    if delta.None? || delta.value.value == 0 { return Broken, next; }
    if rva > MAX32 - delta.value.value { return Broken, next; }
    assert from[delta.value.consumed..] == bytes[offset + delta.value.consumed..];
    next := offset + delta.value.consumed;
    var at := Add32(rva, delta.value.value);
    if at == MAX32 { return Last, next; }
    ghost var more := bytes[next..];
    ConsumedSome(more);
    var size := ReadVarint(bytes[next..]);
    if size.None? || size.value.value == 0 || at > MAX32 - size.value.value { return Broken, next; }
    assert more[size.value.consumed..] == bytes[next + size.value.consumed..];
    next := next + size.value.consumed;
    e := One(at, size.value.value, bytes[next..]);
  }

  /** The items read so far and the bytes left make up the table. */
  ghost predicate Parsing(bytes: seq<Byte>, offset: nat, rva: nat, streamOffset: nat, items: seq<Region>) {
    offset <= |bytes| && TableAt(bytes, 0, 0) == Prefixed(items, TableAt(bytes[offset..], rva, streamOffset))
  }

  lemma ZeroFits()
    ensures 0 <= MAX32
  {
  }

  lemma StartParsing(bytes: seq<Byte>)
    ensures Parsing(bytes, 0, 0, 0, [])
  {
    assert bytes[0..] == bytes;
    PrefixedNone(TableAt(bytes, 0, 0));
  }

  lemma EntryDecides(bytes: seq<Byte>, offset: nat, rva: nat, streamOffset: nat, items: seq<Region>, e: Entry, next: nat)
    requires Parsing(bytes, offset, rva, streamOffset, items) && e == NextEntry(bytes[offset..], rva)
    requires e.One? ==> next <= |bytes| && e.rest == bytes[next..]
    ensures e.Broken? ==> TableAt(bytes, 0, 0) == None
    ensures e.Last? ==> TableAt(bytes, 0, 0) == Some(Table(items, streamOffset))
    ensures e.One? ==> Parsing(bytes, next, e.at + e.size, streamOffset + e.size, items + [Region(streamOffset, e.size, e.at)])
  {
    hide NextEntry;
    if e.One? { OneMore(bytes[offset..], rva, streamOffset, items); } else { PrefixedLast(items, streamOffset); }
  }

  lemma NothingLeft(bytes: seq<Byte>, rva: nat, streamOffset: nat, items: seq<Region>)
    requires Parsing(bytes, |bytes|, rva, streamOffset, items)
    ensures TableAt(bytes, 0, 0) == None
  {
    assert bytes[|bytes|..] == [];
    EmptyTable(rva, streamOffset);
    PrefixedBroken(items);
  }

  /** `dearxan_parse_encrypted_regions`.  Its check for overflow of the stream offset never fires:
      the offset stays below the address. */
  method ParseRegions(bytes: seq<Byte>) returns (t: Option<Table>)
    ensures t == TableAt(bytes, 0, 0)
  {
    hide *;
    var items, offset: nat, streamOffset: nat, rva: nat := [], 0, 0, 0;
    StartParsing(bytes);
    ZeroFits();
    while offset < |bytes|
      invariant offset <= |bytes| && streamOffset <= rva <= MAX32 && Parsing(bytes, offset, rva, streamOffset, items)
      decreases |bytes| - offset
    {
      var e, next := ReadEntry(bytes, offset, rva);
      EntryDecides(bytes, offset, rva, streamOffset, items, e, next);
      match e {
        case Broken => return None;
        case Last => return Some(Table(items, streamOffset));
        case One(at, n, _) =>
          assert streamOffset + n <= MAX32;
          AddFits(at, n);
          offset := next;
          items := items + [Region(streamOffset, n, at)];
          rva := Add32(at, n);
          streamOffset := streamOffset + n;
      }
    }
    NothingLeft(bytes, rva, streamOffset, items);
    t := None;
  }

  lemma EmptyTable(rva: nat, streamOffset: nat)
    ensures TableAt([], rva, streamOffset) == None
  {
  }

  lemma OneMore(bytes: seq<Byte>, rva: nat, streamOffset: nat, items: seq<Region>)
    requires NextEntry(bytes, rva).One?
    ensures var e := NextEntry(bytes, rva);
            Prefixed(items, TableAt(bytes, rva, streamOffset))
              == Prefixed(items + [Region(streamOffset, e.size, e.at)], TableAt(e.rest, e.at + e.size, streamOffset + e.size))
  {
    hide NextEntry;
    var e := NextEntry(bytes, rva);
    PrefixedMore(items, Region(streamOffset, e.size, e.at), TableAt(e.rest, e.at + e.size, streamOffset + e.size));
  }

  /** Regions in front of those of a table. */
  ghost function Prefixed(items: seq<Region>, t: Option<Table>): Option<Table> {
    if t.None? then None else Some(Table(items + t.value.regions, t.value.streamSize))
  }

  lemma PrefixedBroken(items: seq<Region>)
    ensures Prefixed(items, None) == None
  {
  }

  lemma PrefixedLast(items: seq<Region>, n: nat)
    ensures Prefixed(items, Some(Table([], n))) == Some(Table(items, n))
  {
    assert items + [] == items;
  }

  lemma PrefixedNone(t: Option<Table>)
    ensures Prefixed([], t) == t
  {
    if t.Some? { assert [] + t.value.regions == t.value.regions; }
  }

  lemma PrefixedMore(items: seq<Region>, r: Region, t: Option<Table>)
    ensures Prefixed(items + [r], t) == Prefixed(items, Prefixed([r], t))
  {
    if t.Some? { assert (items + [r]) + t.value.regions == items + ([r] + t.value.regions); }
  }

  lemma ConsumedSome(bytes: seq<Byte>)
    ensures Front(bytes).Some? ==> 0 < Front(bytes).value.consumed <= |bytes|
  {
  }
}
