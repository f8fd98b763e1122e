/** Decoding a block's body: literals and matches up to the end-of-block symbol. */
module BodyReader {
  import opened Optional
  import opened Bits
  import opened CanonicalCode
  import opened InflateTables
  import opened HuffmanDecode
  import opened BlockFormat
  import opened OutputBuffer
  import opened BlockReader
  import opened InflateSpec

  datatype Status = Done | Failed | OutputFull

  /** What a stretch of literal decoding leaves: more to do, a symbol that is no literal, or an
      end of the whole run. */
  datatype Step = More | Symbol(sym: nat) | Stop(status: Status)

  /** How the reading goes on after such a stretch. */
  ghost function Onward(step: Step, t: Tables, out: seq<Byte>, capacity: nat, bits: BitString): Parse<seq<Byte>>
    requires Proper(t)
  {
    match step
    case More => ReadCodes(t, out, capacity, bits)
    case Symbol(sym) => if 256 <= sym <= 287 then ReadSpecial(t, sym, out, capacity, bits) else Bad
    case Stop(_) => Bad
  }

  /** The literal loop near the end of either buffer: one symbol at a time. */
  method SlowLiteral(r: BitReader, out: Output, table: DecodeTable, ghost t: Tables) returns (step: Step)
    requires r.Valid() && out.Valid() && table.Ready() && Proper(t) && t.lit == table.sizes
    modifies r, out, out.buf
    ensures r.Valid() && out.Valid() && old(out.Contents()) <= out.Contents()
    ensures |r.Stream()| <= |old(r.Stream())|
    ensures step.More? ==> out.end > old(out.end)
    ensures step.Symbol? ==> 256 <= step.sym < |table.sizes| && |r.Stream()| < |old(r.Stream())|
    ensures step.Stop? ==> step.status != Done
    ensures ReadCodes(t, old(out.Contents()), out.buf.Length, old(r.Stream())) == Onward(step, t, out.Contents(), out.buf.Length, r.Stream())
  {
    hide ReadSymbol, ReadCodes, ReadSpecial, Used, Code, Accepted, Complete, Holds, Separate, Memory, r.Stream, table.Ready;
    CodesStep(t, out.Contents(), out.buf.Length, r.Stream());
    var counter := table.Decode(r);
    if counter.None? { return Stop(Failed); }
    if counter.value >= 256 { return Symbol(counter.value); }
    if out.end >= out.buf.Length { return Stop(OutputFull); }
    CodesStep(t, out.Contents() + [counter.value], out.buf.Length, r.Stream());
    out.Put(counter.value);
    step := More;
  }

  method Refill(r: BitReader)
    requires r.Valid() && |r.input| - r.pos >= 4
    modifies r
    ensures r.Valid() && r.numBits >= 30 && r.Stream() == old(r.Stream())
  {
    if r.numBits < 30 {
      r.GetByte();
      r.GetByte();
      r.GetByte();
      r.GetByte();
    }
  }

  /** The literal loop with at least four input bytes and room for two: up to two literals from
      one refill of the bit buffer. */
  method FastLiterals(r: BitReader, out: Output, table: DecodeTable, ghost t: Tables) returns (step: Step)
    requires r.Valid() && out.Valid() && table.Ready() && Proper(t) && t.lit == table.sizes
    requires |r.input| - r.pos >= 4 && out.end + 2 <= out.buf.Length
    modifies r, out, out.buf
    ensures r.Valid() && out.Valid() && old(out.Contents()) <= out.Contents()
    ensures |r.Stream()| <= |old(r.Stream())|
    ensures step.More? ==> out.end > old(out.end)
    ensures step.Symbol? ==> 256 <= step.sym < |table.sizes| && |r.Stream()| < |old(r.Stream())|
    ensures step.Stop? ==> step.status != Done
    ensures ReadCodes(t, old(out.Contents()), out.buf.Length, old(r.Stream())) == Onward(step, t, out.Contents(), out.buf.Length, r.Stream())
  {
    hide ReadSymbol, ReadCodes, ReadSpecial, Used, Code, Accepted, Complete, Holds, Separate, Memory, r.Stream, table.Ready;
    ghost var capacity := out.buf.Length;
    Refill(r);
    CodesStep(t, out.Contents(), capacity, r.Stream());
    var counter := table.DecodeFast(r);
    if counter.None? { return Stop(Failed); }
    if counter.value >= 256 { return Symbol(counter.value); }
    CodesStep(t, out.Contents() + [counter.value], capacity, r.Stream());
    var sym2 := table.DecodeFast(r);
    if sym2.None? { return Stop(Failed); }
    out.Put(counter.value);
    if sym2.value >= 256 { return Symbol(sym2.value); }
    out.Put(sym2.value);
    step := More;
  }

  /** Extra bits, if the symbol has any. */
  method TakeExtra(r: BitReader, n: nat) returns (b: Option<nat>)
    requires r.Valid() && n <= 16
    modifies r
    ensures r.Valid() && |r.Stream()| <= |old(r.Stream())|
    ensures ReadNumber(n, old(r.Stream())) == if b.Some? then Parsed(b.value, r.Stream()) else Bad
  {
    if n == 0 {
      NoBits(r.Stream());
      return Some(0);
    }
    hide ReadNumber, Pow2, r.Stream;
    b := TakeBits(r, n);
  }

  lemma NoBits(bits: BitString)
    ensures ReadNumber(0, bits) == Parsed(0, bits)
  {
    assert bits[..0] == [] && bits[0..] == bits;
  }

  lemma TableBounds(i: nat, s: nat)
    ensures DistanceExtra(s) <= 13
    ensures i <= 30 ==> LengthExtra(i) <= 5
  {
  }

  /** A match after its length symbol: extra bits, distance symbol, and its extra bits. */
  method TakeReach(r: BitReader, table: DecodeTable, sym: nat) returns (reach: Option<Reach>)
    requires r.Valid() && table.Ready() && 257 <= sym <= 287
    modifies r
    ensures r.Valid() && |r.Stream()| <= |old(r.Stream())|
    ensures ReadReach(table.sizes, sym, old(r.Stream())) == if reach.Some? then Parsed(reach.value, r.Stream()) else Bad
  {
    hide ReadSymbol, ReadNumber, Used, Code, Accepted, Complete, Holds, Separate, Memory, Pow2, LengthBase, LengthExtra, DistanceBase,
      DistanceExtra, r.Stream, r.Valid, table.Ready;
    TableBounds(sym - 257, 0);
    var extra := TakeExtra(r, LengthExtra(sym - 257));
    if extra.None? { return None; }
    var distSym := table.Decode(r);
    if distSym.None? { return None; }
    TableBounds(0, distSym.value);
    var extra2 := TakeExtra(r, DistanceExtra(distSym.value));
    if extra2.None? { return None; }
    reach := Some(Reach(LengthBase(sym - 257) + extra.value, DistanceBase(distSym.value) + extra2.value));
  }

  /** A match: its length and distance, and the copy. */
  method ReadMatch(r: BitReader, out: Output, table: DecodeTable, sym: nat) returns (status: Status)
    requires r.Valid() && out.Valid() && table.Ready() && 257 <= sym <= 287
    modifies r, out, out.buf
    ensures r.Valid() && out.Valid() && old(out.Contents()) <= out.Contents()
    ensures |r.Stream()| <= |old(r.Stream())|
    ensures Agrees(ReadCopy(table.sizes, sym, old(out.Contents()), out.buf.Length, old(r.Stream())), status == Done, out.Contents(), r.Stream())
  {
    hide ReadReach, Accepted, Complete, Holds, Separate, Memory, Copy, r.Stream, r.Valid, table.Ready;
    var reach := TakeReach(r, table, sym);
    if reach.None? { return Failed; }
    var counter, dist := reach.value.len, reach.value.back;
    if dist == 0 || dist > out.end { return Failed; }
    var ok := out.CopyMatch(dist, counter);
    status := if ok then Done else OutputFull;
  }

  /** Decodes a block's body. */
  method ReadBody(r: BitReader, out: Output, lit: DecodeTable, dist: DecodeTable) returns (status: Status)
    requires r.Valid() && out.Valid() && lit.Ready() && dist.Ready() && |lit.sizes| <= 288 && |dist.sizes| <= 32
    modifies r, out, out.buf
    ensures r.Valid() && out.Valid() && old(out.Contents()) <= out.Contents()
    ensures |r.Stream()| <= |old(r.Stream())|
    ensures Agrees(ReadCodes(Tables(lit.sizes, dist.sizes), old(out.Contents()), out.buf.Length, old(r.Stream())),
                   status == Done, out.Contents(), r.Stream())
  {
    hide ReadSymbol, ReadCodes, ReadCopy, Used, Code, Accepted, Complete, Holds, Separate, Memory, r.Stream, lit.Ready;
    ghost var t, capacity := Tables(lit.sizes, dist.sizes), out.buf.Length;
    ghost var whole := ReadCodes(t, out.Contents(), capacity, r.Stream());
    while true
      invariant r.Valid() && out.Valid() && lit.Ready() && dist.Ready() && lit.sizes == t.lit && dist.sizes == t.dist
      invariant old(out.Contents()) <= out.Contents() && |r.Stream()| <= |old(r.Stream())|
      invariant whole == ReadCodes(t, out.Contents(), capacity, r.Stream())
      decreases out.buf.Length - out.end, |r.Stream()|
    {
      var step;
      if |r.input| - r.pos < 4 || out.buf.Length - out.end < 2 {
        step := SlowLiteral(r, out, lit, t);
      } else {
        step := FastLiterals(r, out, lit, t);
      }
      match step {
        case More =>
        case Stop(s) => return s;
        case Symbol(sym) =>
          if sym == 256 { return Done; }
          status := ReadMatch(r, out, dist, sym);
          if status != Done { return; }
      }
    }
  }
}
