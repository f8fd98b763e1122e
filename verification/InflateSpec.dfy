/** What a compressed stream says, bit by bit (section 3.2.3 of RFC 1951): no tables, no buffers, no
    fast paths.  Every string of bits either says something or is bad. */
module InflateSpec {
  import opened Bits
  import opened CanonicalCode
  import opened CodeSizeRle
  import opened BlockFormat
  import opened BlockHeader

  datatype Parse<T> = Parsed(value: T, rest: BitString) | Bad

  /** The next `n` bits as a number, lowest first. */
  ghost function ReadNumber(n: nat, bits: BitString): (p: Parse<nat>)
    ensures p.Parsed? ==> |p.rest| + n == |bits|
  {
    if |bits| < n then Bad else Parsed(ToNat(bits[..n]), bits[n..])
  }

  lemma NumberIs(n: nat, v: nat, start: BitString, rest: BitString)
    requires v < Pow2(n) && start == LowBits(v, n) + rest
    ensures ReadNumber(n, start) == Parsed(v, rest) && |rest| <= |start|
  {
    hide LowBits, Pow2;
    ToNatOfLowBits(v, n);
    BelowItself(v, Pow2(n));
    LowBitsCount(v, n);
    assert start[..n] == LowBits(v, n) && start[n..] == rest;
  }

  lemma LowBitsCount(v: nat, n: nat)
    ensures |LowBits(v, n)| == n
  {
  }

  lemma BelowItself(v: nat, p: nat)
    requires v < p
    ensures v % p == v
  {
  }

  lemma TooFew(n: nat, start: BitString)
    requires |start| < n
    ensures ReadNumber(n, start) == Bad
  {
  }

  ghost predicate Begins(z: Sizes, bits: BitString, s: nat) {
    Used(z, s) && Code(z, s) <= bits
  }

  /** The symbol whose code word comes next.  Only a code with at most one symbol leaves bits that begin
      with no code word; these are read as symbol 0, and take the bits that stray from a long code
      word, or none. */
  ghost function ReadSymbol(z: Sizes, bits: BitString): (p: Parse<nat>)
    ensures p.Parsed? ==> (Begins(z, bits, p.value) && p.rest == bits[z[p.value]..]) || (p.value == 0 && p.rest == bits[Stray(z, bits)..] && !Complete(z))
    ensures p.Parsed? ==> |p.rest| <= |bits| && (p.value != 0 ==> p.value < |z| && |p.rest| < |bits|)
    ensures p.Bad? ==> forall s: nat :: !Begins(z, bits, s)
  {
    if s: nat :| Begins(z, bits, s) then Parsed(s, bits[z[s]..])
    else if !Complete(z) && (Stray(z, bits) > 0 || |bits| >= 15) then Parsed(0, bits[Stray(z, bits)..])
    else Bad
  }

  function RunBase(sym: nat): nat { if sym == LONG_ZEROS then 11 else 3 }

  function Extended(got: Sizes, x: nat, n: nat): (s: Sizes)
    requires x <= 15
    ensures |s| == |got| + n
  {
    got + Rep(x, n)
  }

  /** One symbol of the run-length code adds to the sizes read so far. */
  ghost function ReadRun(z: Sizes, got: Sizes, bits: BitString): (p: Parse<Sizes>)
    ensures p.Parsed? ==> |p.rest| <= |bits| && |p.value| > |got|
  {
    var s := ReadSymbol(z, bits);
    if s.Bad? then Bad
    else if s.value < 16 then Parsed(Extended(got, s.value, 1), s.rest)
    else ReadExtra(got, s.value, s.rest)
  }

  /** The same after a symbol that stands for a run. */
  ghost function ReadExtra(got: Sizes, sym: nat, bits: BitString): (p: Parse<Sizes>)
    ensures p.Parsed? ==> |p.rest| <= |bits| && |p.value| > |got|
  {
    if sym == REPEAT && got == [] then Bad
    else
      var e := ReadNumber(ExtraBits(sym), bits);
      if e.Bad? then Bad
      else Parsed(Extended(got, if sym == REPEAT then got[|got| - 1] else 0, e.value + RunBase(sym)), e.rest)
  }

  /** Run after run until `total` sizes are there, exactly. */
  ghost function ReadRuns(z: Sizes, total: nat, got: Sizes, bits: BitString): (p: Parse<Sizes>)
    ensures p.Parsed? ==> |p.value| == total && |p.rest| <= |bits|
    decreases total - |got|
  {
    if |got| == total then Parsed(got, bits)
    else if |got| > total then Bad
    else
      var p := ReadRun(z, got, bits);
      if p.Parsed? then ReadRuns(z, total, p.value, p.rest) else p
  }

  /** The sizes of the code-length code, three bits each, in their own order. */
  ghost function ReadLengths(i: nat, n: nat, lens: Sizes, bits: BitString): (p: Parse<Sizes>)
    requires i <= n <= 19 && |lens| == 19
    ensures p.Parsed? ==> |p.value| == 19 && |p.rest| <= |bits|
    decreases n - i
  {
    if i == n then Parsed(lens, bits)
    else
      var v := ReadNumber(3, bits);
      if v.Bad? then Bad else
        NumberFits(3, bits);
        ReadLengths(i + 1, n, lens[Swizzle(i) := v.value], v.rest)
  }

  datatype Tables = Tables(lit: Sizes, dist: Sizes)

  ghost predicate Proper(t: Tables) {
    |t.lit| <= 288 && |t.dist| <= 32
  }

  ghost function NoSizes(): (z: Sizes)
    ensures |z| == 19 && forall i :: 0 <= i < 19 ==> z[i] == 0
  {
    seq(19, i requires 0 <= i < 19 => 0)
  }

  /** The two code-size vectors of a dynamic block. */
  ghost function ReadTables(bits: BitString): (p: Parse<Tables>)
    ensures p.Parsed? ==> Proper(p.value) && |p.rest| <= |bits|
  {
    var a := ReadNumber(5, bits);
    if a.Bad? then Bad else
      var b := ReadNumber(5, a.rest);
      if b.Bad? then Bad else
        var c := ReadNumber(4, b.rest);
        if c.Bad? then Bad else
          NumberFits(5, bits);
          NumberFits(5, a.rest);
          NumberFits(4, b.rest);
          ReadBoth(a.value + 257, b.value + 1, c.value + 4, c.rest)
  }

  lemma NumberFits(n: nat, bits: BitString)
    requires n <= 5
    ensures ReadNumber(n, bits).Parsed? ==> ReadNumber(n, bits).value < Pow2(n) && Pow2(5) == 32 && Pow2(4) == 16 && Pow2(3) == 8
  {
    assert Pow2(4) == 16;
    if n <= |bits| { ToNatBound(bits[..n]); }
  }

  /** The same after the three counts. */
  ghost function ReadBoth(numLit: nat, numDist: nat, numLens: nat, bits: BitString): (p: Parse<Tables>)
    requires numLit <= 288 && numDist <= 32
    ensures p.Parsed? ==> Proper(p.value) && |p.rest| <= |bits|
  {
    if numLens > 19 then Bad else
      var lens := ReadLengths(0, numLens, NoSizes(), bits);
      if lens.Bad? || !Accepted(lens.value) then Bad else
        var sizes := ReadRuns(lens.value, numLit + numDist, [], lens.rest);
        if sizes.Parsed? then Parsed(Tables(sizes.value[..numLit], sizes.value[numLit..]), sizes.rest) else Bad
  }

  datatype Reach = Reach(len: nat, back: nat)

  /** How long a match is and how far back it reaches, after its length symbol. */
  ghost function ReadReach(dist: Sizes, sym: nat, bits: BitString): (p: Parse<Reach>)
    requires 257 <= sym <= 287
    ensures p.Parsed? ==> |p.rest| <= |bits|
  {
    var e := ReadNumber(LengthExtra(sym - 257), bits);
    if e.Bad? then Bad else
      var d := ReadSymbol(dist, e.rest);
      if d.Bad? then Bad else
        var x := ReadNumber(DistanceExtra(d.value), d.rest);
        if x.Bad? then Bad else Parsed(Reach(LengthBase(sym - 257) + e.value, DistanceBase(d.value) + x.value), x.rest)
  }

  /** The match itself: a copy of what is out, if it reaches back over bytes that are there and fits. */
  ghost function ReadCopy(dist: Sizes, sym: nat, out: seq<Byte>, capacity: nat, bits: BitString): (p: Parse<seq<Byte>>)
    requires 257 <= sym <= 287
    ensures p.Parsed? ==> |p.rest| <= |bits|
  {
    var p := ReadReach(dist, sym, bits);
    if p.Bad? then Bad
    else if p.value.back == 0 || p.value.back > |out| || |out| + p.value.len > capacity then Bad
    else Parsed(Copy(out, p.value.back, p.value.len), p.rest)
  }

  /** A block's body, after what is out already.  A literal that takes no bits would be read again and
      again until the output is full. */
  ghost function ReadCodes(t: Tables, out: seq<Byte>, capacity: nat, bits: BitString): (p: Parse<seq<Byte>>)
    requires Proper(t)
    ensures p.Parsed? ==> |p.rest| <= |bits|
    decreases |bits|, 0
  {
    var s := ReadSymbol(t.lit, bits);
    if s.Bad? then Bad
    else if s.value >= 256 then ReadSpecial(t, s.value, out, capacity, s.rest)
    else if |out| >= capacity || |s.rest| == |bits| then Bad
    else ReadCodes(t, out + [s.value], capacity, s.rest)
  }

  /** The same after a symbol that is no literal. */
  ghost function ReadSpecial(t: Tables, sym: nat, out: seq<Byte>, capacity: nat, bits: BitString): (p: Parse<seq<Byte>>)
    requires Proper(t) && 256 <= sym <= 287
    ensures p.Parsed? ==> |p.rest| <= |bits|
    decreases |bits|, 1
  {
    if sym == 256 then Parsed(out, bits)
    else
      var p := ReadCopy(t.dist, sym, out, capacity, bits);
      if p.Parsed? then ReadCodes(t, p.value, capacity, p.rest) else p
  }

  /** One step of the decoding: a symbol, and what it leads to. */
  lemma CodesStep(t: Tables, out: seq<Byte>, capacity: nat, bits: BitString)
    requires Proper(t)
    ensures var s, p := ReadSymbol(t.lit, bits), ReadCodes(t, out, capacity, bits);
            if s.Bad? then p == Bad
            else if s.value >= 256 then s.value <= 287 && p == ReadSpecial(t, s.value, out, capacity, s.rest)
            else if |out| >= capacity || |s.rest| == |bits| then p == Bad
            else p == ReadCodes(t, out + [s.value], capacity, s.rest)
  {
    hide ReadSymbol, ReadSpecial, Code;
  }

  ghost function BytesOf(bits: BitString, n: nat): (b: seq<Byte>)
    requires 8 * n <= |bits|
    ensures |b| == n
  {
    if n == 0 then [] else
      EightBits(bits[..8]);
      [ToNat(bits[..8])] + BytesOf(bits[8..], n - 1)
  }

  lemma EightBits(b: BitString)
    requires |b| == 8
    ensures ToNat(b) < 256
  {
    ToNatBound(b);
    assert Pow2(8) == 256;
  }

  /** So many bytes as they stand. */
  ghost function ReadBytes(n: nat, out: seq<Byte>, capacity: nat, bits: BitString): (p: Parse<seq<Byte>>)
    ensures p.Parsed? ==> |p.rest| <= |bits|
  {
    if |bits| < 8 * n || |out| + n > capacity then Bad else Parsed(out + BytesOf(bits, n), bits[8 * n..])
  }

  /** A stored block from the next byte boundary on; the stream ends at one. */
  ghost function ReadStored(out: seq<Byte>, capacity: nat, bits: BitString): (p: Parse<seq<Byte>>)
    ensures p.Parsed? ==> |p.rest| <= |bits|
  {
    ReadSized(out, capacity, bits[|bits| % 8..])
  }

  /** A stored block's length, its complement, and its bytes. */
  ghost function ReadSized(out: seq<Byte>, capacity: nat, bits: BitString): (p: Parse<seq<Byte>>)
    ensures p.Parsed? ==> |p.rest| <= |bits|
  {
    var n := ReadNumber(16, bits);
    if n.Bad? then Bad else
      var c := ReadNumber(16, n.rest);
      if c.Bad? || n.value + c.value != 65535 then Bad else ReadBytes(n.value, out, capacity, c.rest)
  }

  ghost function StaticTables(): (t: Tables)
    ensures Proper(t)
  {
    Tables(StaticLit(), StaticDist())
  }

  datatype Read = Read(last: bool, out: seq<Byte>)

  ghost function Marked(last: bool, p: Parse<seq<Byte>>): Parse<Read> {
    if p.Parsed? then Parsed(Read(last, p.value), p.rest) else Bad
  }

  /** One block. */
  ghost function ReadBlock(out: seq<Byte>, capacity: nat, bits: BitString): (p: Parse<Read>)
    ensures p.Parsed? ==> |p.rest| < |bits|
  {
    var h := ReadNumber(3, bits);
    if h.Bad? then Bad else
      Marked(h.value % 2 == 1, ReadContent(h.value / 2, out, capacity, h.rest))
  }

  /** A block after its type. */
  ghost function ReadContent(kind: nat, out: seq<Byte>, capacity: nat, bits: BitString): (p: Parse<seq<Byte>>)
    ensures p.Parsed? ==> |p.rest| <= |bits|
  {
    if kind == 0 then ReadStored(out, capacity, bits)
    else if kind == 1 then ReadCodes(StaticTables(), out, capacity, bits)
    else if kind == 2 then
      var t := ReadTables(bits);
      if t.Bad? then Bad
      else if Accepted(t.value.lit) && Accepted(t.value.dist) then ReadCodes(t.value, out, capacity, t.rest)
      else Bad
    else Bad
  }

  /** Block after block up to the one marked last. */
  ghost function ReadBlocks(out: seq<Byte>, capacity: nat, bits: BitString): (p: Parse<seq<Byte>>)
    ensures p.Parsed? ==> |p.rest| <= |bits|
    decreases |bits|
  {
    var b := ReadBlock(out, capacity, bits);
    if b.Bad? then Bad
    else if b.value.last then Parsed(b.value.out, b.rest)
    else ReadBlocks(b.value.out, capacity, b.rest)
  }

  /** What was read is what the stream says. */
  ghost predicate Agrees<T>(p: Parse<T>, ok: bool, value: T, rest: BitString) {
    p == if ok then Parsed(value, rest) else Bad
  }
}
