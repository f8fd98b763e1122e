/** The header of a dynamic block: how many codes there are, the code-length code, and the
    run-length coded sizes of the two alphabets (section 3.2.7 of RFC 1951). */
module BlockHeader {
  import opened Bits
  import opened CanonicalCode
  import opened CodeSizeRle

  /** The order in which the sizes of the code-length code are sent. */
  function Swizzle(i: nat): (s: nat)
    ensures s < 19
  {
    if i < 3 then 16 + i
    else if i == 3 then 0
    else if i >= 19 then 0
    else if i % 2 == 0 then 6 + i / 2
    else 9 - i / 2
  }

  /** Where a symbol comes in that order. */
  function Place(s: nat): (i: nat)
    ensures i < 19
  {
    if s >= 19 then 0 else if s >= 16 then s - 16
    else if s == 0 then 3 else if s >= 8 then 2 * (s - 6) else 2 * (9 - s) + 1
  }

  /** The order lists every symbol exactly once. */
  lemma SwizzlePermutes()
    ensures forall s: nat :: s < 19 ==> Swizzle(Place(s)) == s
    ensures forall i: nat :: i < 19 ==> Place(Swizzle(i)) == i
  {
  }

  datatype Header = Header(lit: Sizes, dist: Sizes, lens: Sizes, numLit: nat, numDist: nat, numLens: nat, items: seq<Item>)

  function ExtraBits(sym: nat): nat {
    if sym == REPEAT then 2 else if sym == ZEROS then 3 else if sym == LONG_ZEROS then 7 else 0
  }

  ghost predicate Sendable(t: Item, lens: Sizes)
  {
    ValidItem(t) && Used(lens, SymbolOf(t))
  }

  ghost predicate AllSendable(items: seq<Item>, lens: Sizes) {
    forall i :: 0 <= i < |items| ==> Sendable(items[i], lens)
  }

  /** A header some block could have. */
  ghost predicate ValidHeader(h: Header) {
    && |h.lit| == 288 && |h.dist| == 32 && |h.lens| == 19
    && 257 <= h.numLit <= 286 && 1 <= h.numDist <= 30 && 4 <= h.numLens <= 19
    && (forall s :: h.numLit <= s < 288 ==> h.lit[s] == 0)
    && (forall s :: h.numDist <= s < 32 ==> h.dist[s] == 0)
    && (forall i: nat :: h.numLens <= i < 19 ==> h.lens[Swizzle(i)] == 0)
    && (forall s :: 0 <= s < 19 ==> h.lens[s] <= 7)
    && Accepted(h.lit) && Accepted(h.dist) && Accepted(h.lens)
    && RepeatsSomething(h.items) && AllSendable(h.items, h.lens)
    && Unpacked(h.items) == h.lit[..h.numLit] + h.dist[..h.numDist]
  }

  /** No unused symbols at the end of either list or of the code-length sizes, and the sizes packed run by run. */
  ghost predicate ShortHeader(h: Header)
    requires ValidHeader(h)
  {
    && (h.numLit == 257 || h.lit[h.numLit - 1] != 0) && (h.numDist == 1 || h.dist[h.numDist - 1] != 0)
    && (h.numLens == 4 || h.lens[Swizzle(h.numLens - 1)] != 0)
    && h.items == RunByRun(h.lit[..h.numLit] + h.dist[..h.numDist])
  }

  ghost function ItemBits(t: Item, lens: Sizes): BitString
    requires Sendable(t, lens)
  {
    match t
    case Size(s) => Code(lens, s)
    case Run(sym, e) => Code(lens, sym) + LowBits(e, ExtraBits(sym))
  }

  ghost function ItemsBits(items: seq<Item>, lens: Sizes): BitString
    requires AllSendable(items, lens)
  {
    if items == [] then [] else ItemBits(items[0], lens) + ItemsBits(items[1..], lens)
  }

  /** The sizes of the code-length code from place `i` on, three bits each. */
  ghost function LensBits(lens: Sizes, i: nat, n: nat): BitString
    requires |lens| == 19 && i <= n <= 19
    decreases n - i
  {
    if i == n then [] else LowBits(lens[Swizzle(i)], 3) + LensBits(lens, i + 1, n)
  }

  ghost function CountBits(h: Header): BitString
    requires ValidHeader(h)
  {
    LowBits(h.numLit - 257, 5) + (LowBits(h.numDist - 1, 5) + LowBits(h.numLens - 4, 4))
  }

  /** The header's bits after the block type. */
  ghost function HeaderBits(h: Header): BitString
    requires ValidHeader(h)
  {
    CountBits(h) + (LensBits(h.lens, 0, h.numLens) + ItemsBits(h.items, h.lens))
  }
}
