/** What the bits of a compressed block mean (section 3.2.5 of RFC 1951). */
module BlockFormat {
  import opened Bits
  import opened CanonicalCode

  /** A literal byte, or a copy of `len` bytes from `dist` bytes back. */
  datatype Token = Literal(byte: Byte) | Match(len: nat, dist: nat)

  ghost predicate ValidToken(t: Token) {
    t.Match? ==> 3 <= t.len <= 258 && 1 <= t.dist <= 32768
  }

  ghost predicate ValidTokens(ts: seq<Token>) {
    forall i :: 0 <= i < |ts| ==> ValidToken(ts[i])
  }

  /** Copies byte by byte, so a copy may overlap what it writes. */
  function Copy(out: seq<Byte>, dist: nat, len: nat): (r: seq<Byte>)
    requires 1 <= dist <= |out|
    ensures |r| == |out| + len && out <= r
  {
    if len == 0 then out else
      var r := Copy(out, dist, len - 1);
      r + [r[|r| - dist]]
  }

  /** Every copy reaches back only over bytes that are there. */
  ghost predicate Fits(out: seq<Byte>, ts: seq<Token>)
  {
    ts == [] || (
      && Fits(out, ts[..|ts| - 1])
      && (ts[|ts| - 1].Match? ==> 1 <= ts[|ts| - 1].dist <= |Expand(out, ts[..|ts| - 1])|))
  }

  /** The bytes the tokens stand for, after the bytes already out. */
  ghost function Expand(out: seq<Byte>, ts: seq<Token>): (r: seq<Byte>)
    ensures out <= r
  {
    if ts == [] then out
    else
      var before := Expand(out, ts[..|ts| - 1]);
      match ts[|ts| - 1]
      case Literal(b) => before + [b]
      case Match(len, dist) => if 1 <= dist <= |before| then Copy(before, dist, len) else before
  }

  /** The symbol for match length `l + 3`, as the deflater's 256-entry table lists it. */
  function LenSym(l: nat): (s: nat)
    requires l < 256
    ensures 257 <= s <= 285
  {
    if l < 8 then 257 + l
    else if l < 16 then 265 + (l - 8) / 2
    else if l < 32 then 269 + (l - 16) / 4
    else if l < 64 then 273 + (l - 32) / 8
    else if l < 128 then 277 + (l - 64) / 16
    else if l < 255 then 281 + (l - 128) / 32
    else 285
  }

  function LenExtra(l: nat): (e: nat)
    requires l < 256
    ensures e <= 5
  {
    if l < 8 then 0 else if l < 16 then 1 else if l < 32 then 2 else if l < 64 then 3
    else if l < 128 then 4 else if l < 255 then 5 else 0
  }

  /** The inflater's tables for length symbol `257 + i`. */
  function LengthBase(i: nat): nat
    requires i <= 30
  {
    if i < 8 then 3 + i else if i < 12 then 11 + 2 * (i - 8) else if i < 16 then 19 + 4 * (i - 12)
    else if i < 20 then 35 + 8 * (i - 16) else if i < 24 then 67 + 16 * (i - 20)
    else if i < 28 then 131 + 32 * (i - 24) else if i == 28 then 258 else 0
  }

  function LengthExtra(i: nat): (e: nat)
    requires i <= 30
    ensures e <= 5
  {
    if i < 8 then 0 else if i < 12 then 1 else if i < 16 then 2 else if i < 20 then 3
    else if i < 24 then 4 else if i < 28 then 5 else 0
  }

  /** The length symbol and its extra bits give the length back. */
  lemma LengthRoundTrip(l: nat)
    requires l < 256
    ensures LengthExtra(LenSym(l) - 257) == LenExtra(l)
    ensures LengthBase(LenSym(l) - 257) + l % Pow2(LenExtra(l)) == l + 3
  {
    assert Pow2(0) == 1 && Pow2(1) == 2 && Pow2(2) == 4 && Pow2(3) == 8 && Pow2(4) == 16 && Pow2(5) == 32;
  }

  /** The symbol for distance `d + 1`, as the deflater's small and large tables list it. */
  function DistSym(d: nat): nat {
    if d < 4 then d else 2 + DistSym(d / 2)
  }

  function DistExtra(d: nat): nat {
    if d < 4 then 0 else 1 + DistExtra(d / 2)
  }

  /** The inflater's tables for distance symbol `s`; 30 and 31 are not used. */
  function DistanceBase(s: nat): nat {
    if s >= 30 then 0 else 1 + DistanceStart(s)
  }

  function DistanceStart(s: nat): nat {
    if s < 4 then s else 2 * DistanceStart(s - 2)
  }

  function DistanceExtra(s: nat): nat {
    if s < 4 || s >= 30 then 0 else s / 2 - 1
  }

  lemma {:induction false} DistBounds(d: nat, k: nat)
    requires d < Pow2(k + 2)
    ensures DistExtra(d) <= k && DistSym(d) < 2 * k + 4
    ensures d >= 4 ==> DistSym(d) >= 4
    ensures d >= 4 ==> DistSym(d) / 2 - 1 == DistExtra(d)
  {
    assert Pow2(2) == 4;
    if d >= 4 { DistBounds(d / 2, k - 1); }
  }

  lemma {:induction false} DistStart(d: nat)
    ensures DistanceStart(DistSym(d)) + d % Pow2(DistExtra(d)) == d
  {
    if d < 4 {
      assert Pow2(0) == 1;
    } else {
      DistStart(d / 2);
      ModHalves(d, Pow2(DistExtra(d / 2)));
    }
  }

  /** The distance symbol and its extra bits give the distance back. */
  lemma DistanceRoundTrip(d: nat)
    requires d < 32768
    ensures DistSym(d) < 30 && DistExtra(d) <= 13
    ensures DistanceExtra(DistSym(d)) == DistExtra(d)
    ensures DistanceBase(DistSym(d)) + d % Pow2(DistExtra(d)) == d + 1
  {
    Pow2Sixteen();
    DistBounds(d, 13);
    DistStart(d);
    if d < 4 { assert DistExtra(d) == 0; }
  }

  /** The bits of one token under a literal/length code and a distance code. */
  ghost function TokenBits(t: Token, lit: Sizes, dist: Sizes): BitString
    requires ValidToken(t) && |lit| == 288 && |dist| == 32
  {
    match t
    case Literal(b) => Code(lit, b)
    case Match(len, d) =>
      DistanceRoundTrip(d - 1);
      Code(lit, LenSym(len - 3)) + LowBits((len - 3) % Pow2(LenExtra(len - 3)), LenExtra(len - 3))
      + (Code(dist, DistSym(d - 1)) + LowBits((d - 1) % Pow2(DistExtra(d - 1)), DistExtra(d - 1)))
  }

  /** Every symbol the token needs has a code. */
  ghost predicate Coded(t: Token, lit: Sizes, dist: Sizes)
    requires ValidToken(t) && |lit| == 288 && |dist| == 32
  {
    match t
    case Literal(b) => lit[b] > 0
    case Match(len, d) =>
      DistanceRoundTrip(d - 1);
      lit[LenSym(len - 3)] > 0 && dist[DistSym(d - 1)] > 0
  }

  ghost predicate AllCoded(ts: seq<Token>, lit: Sizes, dist: Sizes)
    requires |lit| == 288 && |dist| == 32
  {
    ValidTokens(ts) && lit[256] > 0 && forall i :: 0 <= i < |ts| ==> Coded(ts[i], lit, dist)
  }

  /** The bits of a block's body, up to and including the end-of-block code. */
  ghost function BodyBits(ts: seq<Token>, lit: Sizes, dist: Sizes): BitString
    requires |lit| == 288 && |dist| == 32 && ValidTokens(ts)
  {
    if ts == [] then Code(lit, 256) else TokenBits(ts[0], lit, dist) + BodyBits(ts[1..], lit, dist)
  }

  /** The code sizes of a static block (section 3.2.6 of RFC 1951). */
  function StaticLitSize(i: nat): nat {
    if i <= 143 then 8 else if i <= 255 then 9 else if i <= 279 then 7 else 8
  }

  function StaticLit(): (z: Sizes)
    ensures |z| == 288 && forall i :: 0 <= i < 288 ==> z[i] == StaticLitSize(i)
  {
    seq(288, i requires 0 <= i < 288 => StaticLitSize(i))
  }

  function StaticDist(): (z: Sizes)
    ensures |z| == 32 && forall i :: 0 <= i < 32 ==> z[i] == 5
  {
    seq(32, i requires 0 <= i < 32 => 5)
  }

  /** A stretch of equal sizes adds its length to that size's count and nothing to any other. */
  lemma {:induction false} CountStretch(z: seq<nat>, v: nat, len: nat, a: nat, b: nat)
    requires a <= b <= |z| && forall i :: a <= i < b ==> z[i] == v
    ensures Count(z, len, b) == Count(z, len, a) + if len == v then b - a else 0
  {
    if a < b { CountStretch(z, v, len, a, b - 1); }
  }

  lemma NoneCounted(z: seq<nat>, len: nat)
    ensures Count(z, len, 0) == 0
  {
  }

  lemma StaticTotals(len: nat)
    ensures Total(StaticLit(), len) == if len == 8 then 152 else if len == 9 then 112 else if len == 7 then 24 else 0
    ensures Total(StaticDist(), len) == if len == 5 then 32 else 0
  {
    hide Count, StaticLit, StaticDist;
    var z := StaticLit();
    NoneCounted(z, len);
    NoneCounted(StaticDist(), len);
    CountStretch(z, 8, len, 0, 144);
    CountStretch(z, 9, len, 144, 256);
    CountStretch(z, 7, len, 256, 280);
    CountStretch(z, 8, len, 280, 288);
    CountStretch(StaticDist(), 5, len, 0, 32);
  }

  /** Past the longest size, each further first code doubles. */
  lemma {:induction false} FirstDoubles(z: seq<nat>, a: nat, len: nat)
    requires 1 <= a <= len && forall e: nat :: a <= e < len ==> Total(z, e) == 0
    ensures First(z, len) == First(z, a) * Pow2(len - a)
  {
    hide *;
    if len > a {
      FirstDoubles(z, a, len - 1);
      StaticFirst(z, len - 1);
      TwiceAgain(First(z, a), len - a - 1);
    } else {
      TwiceAgain(First(z, a), 0);
    }
  }

  lemma TwiceAgain(x: nat, k: nat)
    ensures x * Pow2(k + 1) == 2 * (x * Pow2(k)) && x * Pow2(0) == x
  {
    assert x * (2 * Pow2(k)) == 2 * (x * Pow2(k));
  }

  lemma StaticFirst(z: seq<nat>, a: nat)
    requires a >= 1
    ensures First(z, a + 1) == 2 * (First(z, a) + Total(z, a))
  {
  }

  lemma SmallPowers()
    ensures Pow2(6) == 64 && Pow2(10) == 1024
  {
    Pow2Sixteen();
    assert Pow2(6) == 64;
  }

  /** Both static codes are complete. */
  lemma StaticComplete()
    ensures Complete(StaticLit()) && Complete(StaticDist())
  {
    hide Count, Total, First, StaticLit, StaticDist, Pow2;
    forall len: nat { StaticTotals(len); }
    var z, d := StaticLit(), StaticDist();
    SmallPowers();
    FirstZero(z, 7);
    StaticFirst(z, 7);
    StaticFirst(z, 8);
    StaticFirst(z, 9);
    FirstDoubles(z, 10, 16);
    FirstZero(d, 5);
    StaticFirst(d, 5);
    FirstDoubles(d, 6, 16);
  }
}
