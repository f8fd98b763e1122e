/** Reading a block's tables: single numbers and symbols, and the header of a dynamic block. */
module BlockReader {
  import opened Optional
  import opened Bits
  import opened CanonicalCode
  import opened InflateTables
  import opened HuffmanDecode
  import opened CodeSizeRle
  import opened BlockHeader
  import opened InflateSpec

  /** Takes `n` bits. */
  method TakeBits(r: BitReader, n: nat) returns (b: Option<nat>)
    requires r.Valid() && n <= 16
    modifies r
    ensures r.Valid()
    ensures b.Some? ==> b.value < Pow2(n) && ReadNumber(n, old(r.Stream())) == Parsed(b.value, r.Stream())
    ensures b.None? ==> ReadNumber(n, old(r.Stream())) == Bad
    ensures |r.Stream()| <= |old(r.Stream())|
  {
    hide *;
    ghost var start := r.Stream();
    b := r.GetBits(n);
    if b.Some? { NumberIs(n, b.value, start, r.Stream()); } else { TooFew(n, start); }
  }

  /** The decoding tables of one alphabet (`m_look_up[i]` and `m_tree_i`). */
  class DecodeTable {
    const lookUp: array<int>
    const tree: array<int>
    ghost var sizes: Sizes
    ghost var nodes: NodeMap

    ghost predicate Fits(n: nat) {
      lookUp != tree && lookUp.Length == LOOKUP_SIZE && tree.Length % 2 == 0 && tree.Length >= 2 * n && tree.Length >= 10
    }

    /** The tables decode the code of `sizes`. */
    ghost predicate Ready()
      reads this, lookUp, tree
    {
      && |sizes| <= 288 && Separate(sizes, lookUp, tree) && Accepted(sizes)
      && Holds(sizes, |sizes|, Memory(lookUp, tree), nodes)
    }

    constructor (n: nat)
      requires n >= 5
      ensures Fits(n) && fresh(lookUp) && fresh(tree)
    {
      lookUp := new int[LOOKUP_SIZE](_ => 0);
      tree := new int[2 * n](_ => 0);
    }

    method Build(z: Sizes) returns (ok: bool)
      requires Fits(|z|) && |z| <= 288
      modifies this, lookUp, tree
      ensures ok == Accepted(z)
      ensures ok ==> Ready() && sizes == z
    {
      hide Accepted, Holds, Memory;
      sizes := z;
      ok, nodes := BuildTables(z, lookUp, tree);
    }

    lemma ReadyParts()
      requires Ready()
      ensures |sizes| <= 288 && Separate(sizes, lookUp, tree) && Accepted(sizes)
      ensures Holds(sizes, |sizes|, Memory(lookUp, tree), nodes)
    {
    }

    /** Decodes one symbol. */
    method Decode(r: BitReader) returns (sym: Option<nat>)
      requires r.Valid() && Ready()
      modifies r
      ensures r.Valid()
      ensures ReadSymbol(sizes, old(r.Stream())) == if sym.Some? then Parsed(sym.value, r.Stream()) else Bad
      ensures |r.Stream()| <= |old(r.Stream())|
      ensures sym.Some? && sym.value != 0 ==> sym.value < |sizes| && |r.Stream()| < |old(r.Stream())|
    {
      hide *;
      ReadyParts();
      ghost var start := r.Stream();
      sym := r.HuffDecode(sizes, lookUp, tree, nodes);
      SymbolIs(sizes, start, sym, r.Stream());
    }

    /** The same with at least fifteen bits already at hand; no code at all is an error here. */
    method DecodeFast(r: BitReader) returns (sym: Option<nat>)
      requires r.Valid() && Ready() && r.numBits >= 15
      modifies r
      ensures r.Valid() && r.numBits + 15 >= old(r.numBits)
      ensures sym.Some? ==> ReadSymbol(sizes, old(r.Stream())) == Parsed(sym.value, r.Stream())
      ensures sym.None? ==> ReadSymbol(sizes, old(r.Stream())).Parsed? && ReadSymbol(sizes, old(r.Stream())).rest == old(r.Stream())
      ensures |r.Stream()| <= |old(r.Stream())|
      ensures sym.Some? ==> |r.Stream()| < |old(r.Stream())| && (sym.value != 0 ==> sym.value < |sizes|)
    {
      hide *;
      ReadyParts();
      ghost var start, mem := r.Stream(), Memory(lookUp, tree);
      var temp, codeLen := ResolveCode(sizes, lookUp, tree, nodes, r.bitBuf);
      r.ManyBits(sizes, nodes);
      r.FitsBuffer(sizes, mem, nodes, codeLen);
      r.OnlyMatch(sizes, mem, nodes, temp, codeLen);
      if Complete(sizes) { r.SomeMatch(sizes, temp, codeLen); }
      if NoneBegins(sizes, start) { r.StrayTaken(sizes, mem, nodes, temp, codeLen); }
      r.CodeShort(codeLen);
      r.Drop(codeLen);
      FastIs(sizes, start, temp, codeLen);
      if codeLen == 0 { return None; }
      sym := Some(temp);
    }
  }

  /** The symbol decoded is the one whose code word comes next, or what a stray reading gives. */
  lemma SymbolIs(z: Sizes, start: BitString, sym: Option<nat>, rest: BitString)
    requires forall s: nat :: Used(z, s) && Code(z, s) <= start ==> sym == Some(s) && rest == start[z[s]..]
    requires Complete(z) && sym.Some? ==> Used(z, sym.value) && Code(z, sym.value) <= start
    requires !Complete(z) && NoneBegins(z, start) ==>
      if Stray(z, start) > 0 || |start| >= 15 then sym == Some(0) && rest == start[Stray(z, start)..] else sym == None
    ensures ReadSymbol(z, start) == if sym.Some? then Parsed(sym.value, rest) else Bad
  {
    hide Code, Complete, Stray;
    if NoneBegins(z, start) {
      forall s: nat ensures !Begins(z, start, s) {}
    } else {
      var s: nat :| Used(z, s) && Code(z, s) <= start;
      assert Begins(z, start, s);
      CodeFits(z, s, start);
    }
  }

  /** The same with fifteen bits at hand: there is always a symbol. */
  lemma FastIs(z: Sizes, start: BitString, sym: nat, len: nat)
    requires len <= |start| && forall s: nat :: Used(z, s) && Code(z, s) <= start ==> sym == s && len == z[s]
    requires Complete(z) ==> Used(z, sym) && Code(z, sym) <= start
    requires NoneBegins(z, start) ==> sym == 0 && len == Stray(z, start) && (len > 0 || |start| >= 15)
    ensures ReadSymbol(z, start) == Parsed(sym, start[len..]) && start[0..] == start
  {
    hide Code, Complete, Stray;
    SymbolIs(z, start, Some(sym), start[len..]);
  }

  lemma CodeFits(z: Sizes, s: nat, bits: BitString)
    requires Used(z, s) && Code(z, s) <= bits
    ensures z[s] <= |bits|
  {
  }

  lemma SmallNumbers()
    ensures Pow2(2) == 4 && Pow2(3) == 8 && Pow2(4) == 16 && Pow2(5) == 32 && Pow2(7) == 128
  {
    assert Pow2(7) == 128;
  }

  /** Reads the sizes of the code-length code; unsent ones stay zero. */
  method ReadLens(r: BitReader, n: nat) returns (ok: bool, lens: array<nat>)
    requires r.Valid() && n <= 19
    modifies r
    ensures r.Valid() && fresh(lens) && lens.Length == 19
    ensures |r.Stream()| <= |old(r.Stream())|
    ensures forall s :: 0 <= s < 19 ==> lens[s] <= 7
    ensures Agrees(ReadLengths(0, n, NoSizes(), old(r.Stream())), ok, lens[..], r.Stream())
  {
    hide *;
    SmallNumbers();
    SwizzleRange();
    lens := new nat[19](_ => 0);
    NoSizesIs(lens[..]);
    var counter := 0;
    while counter < n
      invariant counter <= n && r.Valid() && |r.Stream()| <= |old(r.Stream())|
      invariant forall s :: 0 <= s < 19 ==> lens[s] <= 7
      invariant ReadLengths(counter, n, lens[..], r.Stream()) == ReadLengths(0, n, NoSizes(), old(r.Stream()))
    {
      ghost var before, start := lens[..], r.Stream();
      LengthsStep(counter, n, before, start);
      var s := TakeBits(r, 3);
      if s.None? {
        Failed<Sizes>(lens[..], r.Stream());
        return false, lens;
      }
      lens[Swizzle(counter)] := s.value;
      assert lens[..] == before[Swizzle(counter) := s.value];
      counter := counter + 1;
    }
    LengthsEnd(n, lens[..], r.Stream());
    ok := true;
  }

  lemma Failed<T>(value: T, rest: BitString)
    ensures Agrees(Bad, false, value, rest)
  {
  }

  lemma SwizzleRange()
    ensures forall i: nat :: Swizzle(i) < 19
  {
  }

  lemma NoSizesIs(lens: seq<nat>)
    requires |lens| == 19 && forall i :: 0 <= i < 19 ==> lens[i] == 0
    ensures lens == NoSizes()
  {
  }

  lemma LengthsStep(i: nat, n: nat, lens: Sizes, bits: BitString)
    requires i < n <= 19 && |lens| == 19
    ensures ReadNumber(3, bits) == Bad ==> ReadLengths(i, n, lens, bits) == Bad
    ensures var v := ReadNumber(3, bits);
            v.Parsed? ==> v.value <= 7 && Swizzle(i) < 19
                          && ReadLengths(i, n, lens, bits) == ReadLengths(i + 1, n, lens[Swizzle(i) := v.value], v.rest)
  {
    hide Swizzle, ReadNumber;
    NumberFits(3, bits);
  }

  lemma LengthsEnd(n: nat, lens: Sizes, bits: BitString)
    requires n <= 19 && |lens| == 19
    ensures Agrees(ReadLengths(n, n, lens, bits), true, lens, bits)
  {
  }

  /** Writes `n` equal sizes. */
  method FillSizes(lenCodes: array<nat>, at: nat, n: nat, x: nat)
    requires at + n <= lenCodes.Length
    modifies lenCodes
    ensures lenCodes[..at + n] == old(lenCodes[..at]) + Rep(x, n)
  {
    var j := 0;
    while j < n
      invariant j <= n && lenCodes[..at + j] == old(lenCodes[..at]) + Rep(x, j)
    {
      lenCodes[at + j] := x;
      j := j + 1;
    }
  }

  const LEN_CODES_SIZE := 457

  ghost predicate Small(lenCodes: seq<nat>) {
    forall i :: 0 <= i < |lenCodes| ==> lenCodes[i] <= 15
  }

  /** Reads one symbol of the run-length code and what follows it, and writes the sizes it
      stands for; none when the stream ends or a repeat has nothing to repeat. */
  method ReadItem(r: BitReader, table: DecodeTable, lenCodes: array<nat>, counter: nat) returns (next: Option<nat>)
    requires r.Valid() && table.Ready() && |table.sizes| == 19 && lenCodes.Length == LEN_CODES_SIZE && counter < 320
    requires Small(lenCodes[..counter])
    modifies r, lenCodes
    ensures r.Valid() && |r.Stream()| <= |old(r.Stream())|
    ensures next.Some? ==> counter < next.value <= LEN_CODES_SIZE && Small(lenCodes[..next.value])
    ensures Agrees(ReadRun(table.sizes, old(lenCodes[..counter]), old(r.Stream())), next.Some?,
                   if next.Some? && next.value <= LEN_CODES_SIZE then lenCodes[..next.value] else [], r.Stream())
  {
    hide Code, Complete, Accepted, Holds, Memory, Separate, ReadSymbol, ReadExtra, Extended, Rep, r.Stream, table.Ready;
    ghost var before, start := lenCodes[..counter], r.Stream();
    var sym := table.Decode(r);
    if sym.None? { return None; }
    var dist := sym.value;
    if dist < 16 {
      lenCodes[counter] := dist;
      assert lenCodes[..counter + 1] == before + [dist];
      OneSize(before, dist);
      return Some(counter + 1);
    }
    next := ReadTheRest(r, lenCodes, counter, dist);
  }

  lemma OneSize(got: Sizes, x: nat)
    requires x <= 15
    ensures Extended(got, x, 1) == got + [x]
  {
    assert Rep(x, 1) == [x];
  }

  /** A run after its symbol: its extra bits give its length. */
  method ReadTheRest(r: BitReader, lenCodes: array<nat>, counter: nat, dist: nat) returns (next: Option<nat>)
    requires r.Valid() && lenCodes.Length == LEN_CODES_SIZE && counter < 320 && 16 <= dist <= 18
    requires Small(lenCodes[..counter])
    modifies r, lenCodes
    ensures r.Valid() && |r.Stream()| <= |old(r.Stream())|
    ensures next.Some? ==> counter < next.value <= LEN_CODES_SIZE && Small(lenCodes[..next.value])
    ensures Agrees(ReadExtra(old(lenCodes[..counter]), dist, old(r.Stream())), next.Some?,
                   if next.Some? && next.value <= LEN_CODES_SIZE then lenCodes[..next.value] else [], r.Stream())
  {
    hide Pow2, ReadNumber, Rep, ExtraBits, RunBase, r.Stream;
    ghost var before := lenCodes[..counter];
    if dist == 16 && counter == 0 { return None; }
    SmallExtra();
    var extra := TakeBits(r, ExtraBits(dist));
    if extra.None? { return None; }
    var s := extra.value + RunBase(dist);
    var x := if dist == 16 then lenCodes[counter - 1] else 0;
    assert x == if dist == 16 then before[counter - 1] else 0;
    FillSizes(lenCodes, counter, s, x);
    next := Some(counter + s);
  }

  lemma SmallExtra()
    ensures forall sym: nat :: 16 <= sym <= 18 ==> 3 <= RunBase(sym) && ExtraBits(sym) <= 16 && Pow2(ExtraBits(sym)) + RunBase(sym) <= 139
  {
    SmallNumbers();
  }

  /** Expands the run-length coded sizes until `total` of them are there; exactly `total` is
      required, and the buffer has room for the last run to overshoot. */
  method ReadSizes(r: BitReader, table: DecodeTable, total: nat) returns (ok: bool, lenCodes: array<nat>)
    requires r.Valid() && table.Ready() && |table.sizes| == 19 && 0 < total <= 320
    modifies r
    ensures r.Valid() && fresh(lenCodes) && lenCodes.Length == LEN_CODES_SIZE
    ensures |r.Stream()| <= |old(r.Stream())|
    ensures ok ==> Small(lenCodes[..total])
    ensures Agrees(ReadRuns(table.sizes, total, [], old(r.Stream())), ok, if ok then lenCodes[..total] else [], r.Stream())
  {
    hide Code, Complete, Accepted, Holds, Memory, Separate, ReadRun, r.Stream, table.Ready;
    ghost var z, whole := table.sizes, ReadRuns(table.sizes, total, [], r.Stream());
    lenCodes := new nat[LEN_CODES_SIZE](_ => 0);
    var counter := 0;
    assert lenCodes[..0] == [];
    while counter < total
      invariant counter <= LEN_CODES_SIZE && r.Valid() && |r.Stream()| <= |old(r.Stream())| && table.Ready() && table.sizes == z
      invariant Small(lenCodes[..counter]) && whole == ReadRuns(z, total, lenCodes[..counter], r.Stream())
    {
      var next := ReadItem(r, table, lenCodes, counter);
      if next.None? { return false, lenCodes; }
      counter := next.value;
    }
    ok := counter == total;
  }

  /** Reads how many sizes of each kind follow. */
  method ReadCounts(r: BitReader) returns (ok: bool, numLit: nat, numDist: nat, numLens: nat)
    requires r.Valid()
    modifies r
    ensures r.Valid() && 257 <= numLit <= 288 && 1 <= numDist <= 32 && 4 <= numLens <= 19
    ensures |r.Stream()| <= |old(r.Stream())|
    ensures ReadTables(old(r.Stream())) == if ok then ReadBoth(numLit, numDist, numLens, r.Stream()) else Bad
  {
    hide Pow2, ReadNumber, ReadBoth, r.Stream;
    ok, numLit, numDist, numLens := false, 257, 1, 4;
    SmallNumbers();
    var a := TakeBits(r, 5);
    if a.None? { return; }
    numLit := a.value + 257;
    var b := TakeBits(r, 5);
    if b.None? { return; }
    numDist := b.value + 1;
    var c := TakeBits(r, 4);
    if c.None? { return; }
    ok, numLens := true, c.value + 4;
  }

  /** Reads a dynamic block's header: the sizes of the two alphabets it sends. */
  method ReadHeader(r: BitReader) returns (ok: bool, lit: Sizes, dist: Sizes)
    requires r.Valid()
    modifies r
    ensures r.Valid()
    ensures |r.Stream()| <= |old(r.Stream())|
    ensures ok ==> |lit| <= 288 && |dist| <= 32
    ensures Agrees(ReadTables(old(r.Stream())), ok, Tables(lit, dist), r.Stream())
  {
    hide Pow2, Accepted, Code, Complete, Holds, Memory, ReadNumber, ReadLengths, ReadRuns, ReadTables, r.Stream;
    lit, dist, ok := [], [], false;
    var counted, numLit, numDist, numLens := ReadCounts(r);
    if !counted { return; }
    var more, lens := ReadLens(r, numLens);
    if !more { return; }
    var table := new DecodeTable(19);
    var built := table.Build(lens[..]);
    if !built { return; }
    var total := numLit + numDist;
    var lenCodes;
    ok, lenCodes := ReadSizes(r, table, total);
    if !ok { return; }
    ghost var all := lenCodes[..total];
    assert lenCodes[..numLit] == all[..numLit] && lenCodes[numLit..total] == all[numLit..];
    lit, dist := lenCodes[..numLit], lenCodes[numLit..total];
  }
}
