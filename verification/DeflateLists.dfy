/** The numbers that coder and decoder have to agree on with everybody else: the lists of RFC 1951. */
module DeflateLists {
  import opened Bits
  import opened CanonicalCode
  import opened CodeSizeRle
  import opened BlockFormat
  import opened BlockHeader
  import opened InflateSpec

  /** The order in which the sizes of the code-length code are sent (section 3.2.7). */
  lemma SwizzleList()
    ensures seq(19, i requires 0 <= i => Swizzle(i)) == [16, 17, 18, 0, 8, 7, 9, 6, 10, 5, 11, 4, 12, 3, 13, 2, 14, 1, 15]
  {
  }

  /** Extra bits and base of the length symbols from 257 on (section 3.2.5); the last two are reserved. */
  lemma LengthLists()
    ensures seq(31, i requires 0 <= i < 31 => LengthExtra(i))
      == [0, 0, 0, 0, 0, 0, 0, 0, 1, 1, 1, 1, 2, 2, 2, 2, 3, 3, 3, 3, 4, 4, 4, 4, 5, 5, 5, 5, 0, 0, 0]
    ensures seq(31, i requires 0 <= i < 31 => LengthBase(i))
      == [3, 4, 5, 6, 7, 8, 9, 10, 11, 13, 15, 17, 19, 23, 27, 31, 35, 43, 51, 59, 67, 83, 99, 115, 131, 163, 195, 227, 258, 0, 0]
  {
  }

  /** Extra bits and base of the distance symbols (section 3.2.5); the last two are reserved. */
  lemma DistanceLists()
    ensures seq(32, i requires 0 <= i => DistanceExtra(i))
      == [0, 0, 0, 0, 1, 1, 2, 2, 3, 3, 4, 4, 5, 5, 6, 6, 7, 7, 8, 8, 9, 9, 10, 10, 11, 11, 12, 12, 13, 13, 0, 0]
    ensures seq(32, i requires 0 <= i => DistanceBase(i))
      == [1, 2, 3, 4, 5, 7, 9, 13, 17, 25, 33, 49, 65, 97, 129, 193, 257, 385, 513, 769,
          1025, 1537, 2049, 3073, 4097, 6145, 8193, 12289, 16385, 24577, 0, 0]
  {
    NearBases();
    FarBases();
    hide DistanceBase;
  }

  lemma FirstBases()
    ensures DistanceBase(0) == 1 && DistanceBase(1) == 2 && DistanceBase(2) == 3 && DistanceBase(3) == 4
  {
  }

  lemma NoBases()
    ensures DistanceBase(30) == 0 && DistanceBase(31) == 0
  {
  }

  lemma NextBases(s: nat)
    requires 4 <= s < 29
    ensures DistanceBase(s) - 1 == 2 * (DistanceBase(s - 2) - 1) && DistanceBase(s + 1) - 1 == 2 * (DistanceBase(s - 1) - 1)
  {
  }

  lemma NearBases()
    ensures DistanceBase(0) == 1 && DistanceBase(1) == 2 && DistanceBase(2) == 3 && DistanceBase(3) == 4 && DistanceBase(4) == 5
    ensures DistanceBase(5) == 7 && DistanceBase(6) == 9 && DistanceBase(7) == 13 && DistanceBase(8) == 17 && DistanceBase(9) == 25
    ensures DistanceBase(10) == 33 && DistanceBase(11) == 49 && DistanceBase(12) == 65 && DistanceBase(13) == 97
    ensures DistanceBase(14) == 129 && DistanceBase(15) == 193
  {
    hide DistanceBase;
    FirstBases();
    NextBases(4);
    NextBases(6);
    NextBases(8);
    NextBases(10);
    NextBases(12);
    NextBases(14);
  }

  lemma FarBases()
    ensures DistanceBase(16) == 257 && DistanceBase(17) == 385 && DistanceBase(18) == 513 && DistanceBase(19) == 769
    ensures DistanceBase(20) == 1025 && DistanceBase(21) == 1537 && DistanceBase(22) == 2049 && DistanceBase(23) == 3073
    ensures DistanceBase(24) == 4097 && DistanceBase(25) == 6145 && DistanceBase(26) == 8193 && DistanceBase(27) == 12289
    ensures DistanceBase(28) == 16385 && DistanceBase(29) == 24577 && DistanceBase(30) == 0 && DistanceBase(31) == 0
  {
    hide DistanceBase;
    NearBases();
    NextBases(16);
    NextBases(18);
    NextBases(20);
    NextBases(22);
    NextBases(24);
    NextBases(26);
    NextBases(28);
    NoBases();
  }

  /** The deflater's symbol for a length is the last one with a base no greater; 258 has its own. */
  lemma LengthSymbol(l: nat)
    requires l < 256
    ensures LengthBase(LenSym(l) - 257) <= l + 3
    ensures l == 255 <==> LenSym(l) == 285
    ensures LenSym(l) < 285 ==> l + 3 < LengthBase(LenSym(l) - 256)
  {
  }

  /** The bases leave no gap: the extra bits of one reach up to the next. */
  lemma {:induction false} DistanceGap(s: nat)
    requires s < 29
    ensures DistanceBase(s + 1) == DistanceBase(s) + Pow2(DistanceExtra(s))
  {
    if s >= 4 { DistanceGap(s - 2); }
  }

  /** The deflater's symbol for a distance is the last one with a base no greater. */
  lemma DistanceSymbol(d: nat)
    requires d < 32768
    ensures DistSym(d) < 30 && DistanceBase(DistSym(d)) <= d + 1
    ensures DistSym(d) < 29 ==> d + 1 < DistanceBase(DistSym(d) + 1)
  {
    DistanceRoundTrip(d);
    hide DistanceBase, DistSym, Pow2;
    if DistSym(d) < 29 { DistanceGap(DistSym(d)); }
  }

  /** What the run symbols repeat, how often at least, and in how many bits the rest is sent (section 3.2.7). */
  lemma RunLists(z: Sizes, got: Sizes, e: nat)
    ensures ExtraBits(16) == 2 && ExtraBits(17) == 3 && ExtraBits(18) == 7
    ensures forall s: nat :: s < 16 ==> ExtraBits(s) == 0
    ensures RunBase(16) == 3 && RunBase(17) == 3 && RunBase(18) == 11
    ensures got != [] ==> Meaning(got, Run(16, e)) == Rep(got[|got| - 1], 3 + e)
    ensures Meaning(got, Run(17, e)) == Rep(0, 3 + e) && Meaning(got, Run(18, e)) == Rep(0, 11 + e)
  {
  }

  /** The code sizes of a static block (section 3.2.6). */
  lemma StaticSizes()
    ensures StaticLit() == Rep(8, 144) + Rep(9, 112) + Rep(7, 24) + Rep(8, 8)
    ensures StaticDist() == Rep(5, 32)
  {
  }

  /** The code words of a static block, as section 3.2.6 lists them. */
  lemma StaticWords(s: nat)
    requires s < 288
    ensures s < 144 ==> Code(StaticLit(), s) == MsbBits(0x30 + s, 8)
    ensures 144 <= s < 256 ==> Code(StaticLit(), s) == MsbBits(0x190 + (s - 144), 9)
    ensures 256 <= s < 280 ==> Code(StaticLit(), s) == MsbBits(s - 256, 7)
    ensures 280 <= s ==> Code(StaticLit(), s) == MsbBits(0xC0 + (s - 280), 8)
    ensures s < 32 ==> Code(StaticDist(), s) == MsbBits(s, 5)
  {
    hide *;
    StaticFirsts();
    StaticRanks(s);
    SizesAre(s);
    CodeIs(StaticLit(), s);
    if s < 32 { CodeIs(StaticDist(), s); }
  }

  lemma SizesAre(s: nat)
    requires s < 288
    ensures |StaticLit()| == 288 && |StaticDist()| == 32 && (s < 32 ==> StaticDist()[s] == 5)
    ensures StaticLit()[s] == if s < 144 then 8 else if s < 256 then 9 else if s < 280 then 7 else 8
  {
  }

  lemma CodeIs(z: Sizes, s: nat)
    requires s < |z|
    ensures Code(z, s) == MsbBits(First(z, z[s]) + Count(z, z[s], s), z[s])
  {
    hide First, Count, MsbBits;
  }

  /** The first code of each size. */
  lemma StaticFirsts()
    ensures First(StaticLit(), 7) == 0 && First(StaticLit(), 8) == 0x30 && First(StaticLit(), 9) == 0x190
    ensures First(StaticDist(), 5) == 0
  {
    hide Count, Total, StaticLit, StaticDist, First;
    forall len: nat { StaticTotals(len); }
    FirstZero(StaticLit(), 7);
    FirstZero(StaticDist(), 5);
    StaticFirst(StaticLit(), 7);
    StaticFirst(StaticLit(), 8);
  }

  /** How many symbols before `s` have its size. */
  lemma StaticRanks(s: nat)
    requires s < 288
    ensures Count(StaticLit(), StaticLit()[s], s)
      == if s < 144 then s else if s < 256 then s - 144 else if s < 280 then s - 256 else 144 + (s - 280)
    ensures s < 32 ==> Count(StaticDist(), 5, s) == s
  {
    hide Count, StaticLit, StaticDist;
    var z, n := StaticLit(), StaticLit()[s];
    NoneCounted(z, n);
    NoneCounted(StaticDist(), 5);
    CountStretch(z, 8, n, 0, if s < 144 then s else 144);
    CountStretch(z, 9, n, 144, if s < 144 then 144 else if s < 256 then s else 256);
    CountStretch(z, 7, n, 256, if s < 256 then 256 else if s < 280 then s else 280);
    CountStretch(z, 8, n, 280, if s < 280 then 280 else s);
    if s < 32 { CountStretch(StaticDist(), 5, 5, 0, s); }
  }

  /** The code words of the example in section 3.2.2. */
  lemma ExampleWords()
    ensures var z := [3, 3, 3, 3, 3, 2, 4, 4]; var o, i := false, true;
            && Code(z, 0) == [o, i, o] && Code(z, 1) == [o, i, i] && Code(z, 2) == [i, o, o] && Code(z, 3) == [i, o, i]
            && Code(z, 4) == [i, i, o] && Code(z, 5) == [o, o] && Code(z, 6) == [i, i, i, o] && Code(z, 7) == [i, i, i, i]
  {
    var z := [3, 3, 3, 3, 3, 2, 4, 4];
    hide MsbBits, CodeNumber;
    ExampleNumbers();
    ExampleBits();
  }

  lemma ExampleNumbers()
    ensures var z := [3, 3, 3, 3, 3, 2, 4, 4];
            && CodeNumber(z, 0) == 2 && CodeNumber(z, 1) == 3 && CodeNumber(z, 2) == 4 && CodeNumber(z, 3) == 5
            && CodeNumber(z, 4) == 6 && CodeNumber(z, 5) == 0 && CodeNumber(z, 6) == 14 && CodeNumber(z, 7) == 15
  {
    hide Count, First;
    ExampleCounts();
    ExampleFirsts();
  }

  lemma ExampleFirsts()
    ensures var z := [3, 3, 3, 3, 3, 2, 4, 4]; First(z, 2) == 0 && First(z, 3) == 2 && First(z, 4) == 14
  {
    hide Count;
    ExampleCounts();
  }

  lemma ExampleBits()
    ensures var o, i := false, true;
            && MsbBits(0, 2) == [o, o] && MsbBits(2, 3) == [o, i, o] && MsbBits(3, 3) == [o, i, i] && MsbBits(4, 3) == [i, o, o]
            && MsbBits(5, 3) == [i, o, i] && MsbBits(6, 3) == [i, i, o] && MsbBits(14, 4) == [i, i, i, o] && MsbBits(15, 4) == [i, i, i, i]
  {
  }

  lemma ExampleCounts()
    ensures var z := [3, 3, 3, 3, 3, 2, 4, 4];
            && Total(z, 1) == 0 && Total(z, 2) == 1 && Total(z, 3) == 5 && Total(z, 4) == 2
            && Count(z, 3, 0) == 0 && Count(z, 3, 1) == 1 && Count(z, 3, 2) == 2 && Count(z, 3, 3) == 3 && Count(z, 3, 4) == 4
            && Count(z, 2, 5) == 0 && Count(z, 4, 6) == 0 && Count(z, 4, 7) == 1
  {
    var z := [3, 3, 3, 3, 3, 2, 4, 4];
    forall n: nat ensures Count(z, n, 6) == (if n == 3 then 5 else if n == 2 then 1 else 0) && Total(z, n) == Count(z, n, 6) + (if n == 4 then 2 else 0) {
      NoneCounted(z, n);
      CountStretch(z, 3, n, 0, 5);
      CountStretch(z, 4, n, 6, 8);
    }
  }
}
