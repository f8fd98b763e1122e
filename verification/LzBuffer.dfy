/** The deflater's buffer of literals and matches: groups of eight codes behind a byte of flags. */
module LzBuffer {
  import opened Bits
  import opened BlockFormat
  import opened WeightedLengths

  const CODE_BUF_SIZE := 65536

  /** One flag per token: set for a match. */
  function FlagBits(g: seq<Token>): (r: BitString)
    ensures |r| == |g|
  {
    if g == [] then [] else FlagBits(g[..|g| - 1]) + [g[|g| - 1].Match?]
  }

  function TokenBytes(t: Token): seq<Byte>
    requires ValidToken(t)
  {
    match t
    case Literal(b) => [b]
    case Match(len, dist) => [len - 3, (dist - 1) % 256, (dist - 1) / 256]
  }

  function CodeBytes(g: seq<Token>): seq<Byte>
    requires ValidTokens(g)
  {
    if g == [] then [] else TokenBytes(g[0]) + CodeBytes(g[1..])
  }

  ghost function GroupBytes(g: seq<Token>): (r: seq<Byte>)
    requires ValidTokens(g) && |g| <= 8
  {
    if g == [] then [] else
      FlagsFit(g);
      [ToNat(FlagBits(g))] + CodeBytes(g)
  }

  ghost function Packed(ts: seq<Token>): seq<Byte>
    requires ValidTokens(ts)
  {
    if |ts| <= 8 then GroupBytes(ts) else GroupBytes(ts[..8]) + Packed(ts[8..])
  }

  lemma FlagsFit(g: seq<Token>)
    requires |g| <= 8
    ensures ToNat(FlagBits(g)) < 256
  {
    ToNatBound(FlagBits(g));
    Pow2Monotone(|g|, 8);
    assert Pow2(8) == 256;
  }

  lemma {:induction false} CodeBytesConcat(a: seq<Token>, b: seq<Token>)
    requires ValidTokens(a) && ValidTokens(b)
    ensures ValidTokens(a + b) && CodeBytes(a + b) == CodeBytes(a) + CodeBytes(b)
  {
    if a == [] {
      assert a + b == b;
    } else {
      CodeBytesConcat(a[1..], b);
      assert (a + b)[1..] == a[1..] + b;
    }
  }

  lemma NoGroup()
    ensures ValidTokens([]) && GroupBytes([]) == [] && Packed([]) == []
  {
  }

  lemma PackedSplit(ts: seq<Token>)
    requires ValidTokens(ts) && |ts| >= 8
    ensures Packed(ts) == GroupBytes(ts[..8]) + Packed(ts[8..])
  {
    hide GroupBytes, ValidToken;
    NoGroup();
    if |ts| == 8 { assert ts[..8] == ts && ts[8..] == []; }
  }

  lemma {:induction false} PackedAppend(full: seq<Token>, g: seq<Token>)
    requires ValidTokens(full) && ValidTokens(g) && |full| % 8 == 0 && |g| <= 8
    ensures ValidTokens(full + g) && Packed(full + g) == Packed(full) + GroupBytes(g)
  {
    hide GroupBytes, ValidToken;
    NoGroup();
    if full == [] {
      assert full + g == g;
    } else if g == [] {
      assert full + g == full;
    } else {
      assert (full + g)[..8] == full[..8] && (full + g)[8..] == full[8..] + g;
      PackedAppend(full[8..], g);
      PackedSplit(full);
      PackedSplit(full + g);
    }
  }

  lemma FlagBitsSnoc(g: seq<Token>, t: Token)
    ensures FlagBits(g + [t]) == FlagBits(g) + [t.Match?]
  {
    assert (g + [t])[..|g|] == g;
  }

  /** `(flags >> 1) | 0x80` for a match: after `k` codes the top `k` bits of the flag byte are
      their flags, whatever the byte held before. */
  lemma ShiftFlag(f: Byte, g: seq<Token>, t: Token)
    requires |g| < 8 && f / Pow2(8 - |g|) == ToNat(FlagBits(g))
    ensures var f' := f / 2 + 128 * BitValue(t.Match?);
            f' < 256 && f' / Pow2(7 - |g|) == ToNat(FlagBits(g + [t]))
  {
    hide *;
    var k, b := |g|, BitValue(t.Match?);
    FlagBitsSnoc(g, t);
    ToNatAppend(FlagBits(g), [t.Match?]);
    ToNatOne(t.Match?);
    DivDiv(f, Pow2(7 - k));
    PowTimes(k);
    DivPlus(f / 2, Pow2(7 - k), Pow2(k), b);
  }

  lemma ToNatOne(b: bool)
    ensures ToNat([b]) == BitValue(b) <= 1
  {
    assert [b][1..] == [] && ToNat([]) == 0;
  }

  lemma PowTimes(k: nat)
    requires k < 8
    ensures Pow2(7 - k) * Pow2(k) == 128 && Pow2(8 - k) == 2 * Pow2(7 - k)
  {
    Pow2Add(7 - k, k);
    assert Pow2(7) == 128;
  }

  lemma DivPlus(n: nat, p: nat, m: nat, b: nat)
    requires p > 0 && p * m == 128
    ensures (n + 128 * b) / p == n / p + m * b
  {
    assert p * (n / p + m * b) == p * (n / p) + 128 * b by { assert p * (m * b) == (p * m) * b; }
    ModUnique(n + 128 * b, p, n / p + m * b, n % p);
  }

  /** How often a token sends literal/length symbol `s`. */
  function SendsLit(t: Token, s: nat): nat
    requires ValidToken(t)
  {
    match t
    case Literal(b) => if b == s then 1 else 0
    case Match(len, _) => if LenSym(len - 3) == s then 1 else 0
  }

  function SendsDist(t: Token, s: nat): nat
    requires ValidToken(t)
  {
    if t.Match? && DistSym(t.dist - 1) == s then 1 else 0
  }

  function LitCount(ts: seq<Token>, s: nat): nat
    requires ValidTokens(ts)
  {
    if ts == [] then 0 else LitCount(ts[..|ts| - 1], s) + SendsLit(ts[|ts| - 1], s)
  }

  function DistCount(ts: seq<Token>, s: nat): nat
    requires ValidTokens(ts)
  {
    if ts == [] then 0 else DistCount(ts[..|ts| - 1], s) + SendsDist(ts[|ts| - 1], s)
  }

  function LitSym(t: Token): (s: nat)
    requires ValidToken(t)
    ensures s <= 285 && s != 256
  {
    match t
    case Literal(b) => b
    case Match(len, _) => LenSym(len - 3)
  }

  /** The frequency tables hold the symbols of the tokens. */
  ghost predicate Tally(ts: seq<Token>, lit: seq<nat>, dist: seq<nat>)
    requires ValidTokens(ts)
  {
    && |lit| == 288 && |dist| == 32
    && (forall s: nat :: s < 288 ==> lit[s] == LitCount(ts, s))
    && (forall s: nat :: s < 32 ==> dist[s] == DistCount(ts, s))
    && Sum(lit) == |ts| && Sum(dist) <= |ts|
  }

  lemma SumBump(f: seq<nat>, k: nat)
    requires k < |f|
    ensures Sum(f[k := f[k] + 1]) == Sum(f) + 1
  {
    var f' := f[k := f[k] + 1];
    RemoveShare(f, f, k);
    RemoveShare(f', f', k);
    assert RemoveAt(f, k) == RemoveAt(f', k);
  }

  lemma TallySnoc(ts: seq<Token>, t: Token, lit: seq<nat>, dist: seq<nat>)
    requires ValidTokens(ts) && ValidToken(t) && Tally(ts, lit, dist)
    ensures ValidTokens(ts + [t])
    ensures var lit' := lit[LitSym(t) := lit[LitSym(t)] + 1];
            if t.Match? then DistSym(t.dist - 1) < 30 && Tally(ts + [t], lit', dist[DistSym(t.dist - 1) := dist[DistSym(t.dist - 1)] + 1])
            else Tally(ts + [t], lit', dist)
  {
    hide Sum, LenSym, DistSym;
    assert (ts + [t])[..|ts|] == ts;
    SumBump(lit, LitSym(t));
    if t.Match? {
      DistanceRoundTrip(t.dist - 1);
      SumBump(dist, DistSym(t.dist - 1));
    }
  }

  /** Every symbol some token sends has been counted; the four highest were not. */
  lemma {:induction false} TallyCovers(ts: seq<Token>, i: nat)
    requires ValidTokens(ts) && i < |ts|
    ensures LitCount(ts, LitSym(ts[i])) > 0
    ensures ts[i].Match? ==> DistCount(ts, DistSym(ts[i].dist - 1)) > 0
  {
    hide LenSym, DistSym;
    if i < |ts| - 1 { TallyCovers(ts[..|ts| - 1], i); }
  }

  lemma {:induction false} NeverSent(ts: seq<Token>, s: nat)
    requires ValidTokens(ts)
    ensures s == 256 || s >= 286 ==> LitCount(ts, s) == 0
    ensures s >= 30 ==> DistCount(ts, s) == 0
  {
    hide LenSym, DistSym;
    if ts != [] {
      NeverSent(ts[..|ts| - 1], s);
      var t := ts[|ts| - 1];
      assert SendsLit(t, s) == if LitSym(t) == s then 1 else 0;
      if t.Match? { DistanceRoundTrip(t.dist - 1); }
    }
  }

  /** How many bytes of input the tokens cover. */
  function Span(ts: seq<Token>): nat {
    if ts == [] then 0 else
      Span(ts[..|ts| - 1]) + match ts[|ts| - 1] case Literal(_) => 1 case Match(len, _) => len
  }

  lemma SpanSnoc(ts: seq<Token>, t: Token)
    ensures Span(ts + [t]) == Span(ts) + match t case Literal(_) => 1 case Match(len, _) => len
  {
    assert (ts + [t])[..|ts|] == ts;
  }

  /** The buffer holds the full groups, the flag byte of the open group, and its codes. */
  ghost predicate Layout(buf: seq<Byte>, flagsAt: nat, codeEnd: nat, full: seq<Token>, group: seq<Token>) {
    && ValidTokens(full) && ValidTokens(group) && |full| % 8 == 0 && |group| < 8
    && flagsAt == |Packed(full)| && codeEnd == flagsAt + 1 + |CodeBytes(group)| <= |buf|
    && buf[..flagsAt] == Packed(full) && buf[flagsAt + 1..codeEnd] == CodeBytes(group)
    && buf[flagsAt] / Pow2(8 - |group|) == ToNat(FlagBits(group))
  }

  /** Where the open code buffer ends: a byte of flags for every eight tokens, the one of the open group, and the codes. */
  function CodeEnd(ts: seq<Token>): nat
    requires ValidTokens(ts)
  {
    |CodeBytes(ts)| + |ts| / 8 + 1
  }

  lemma {:induction false} PackedLength(full: seq<Token>)
    requires ValidTokens(full) && |full| % 8 == 0
    ensures |Packed(full)| == |CodeBytes(full)| + |full| / 8
  {
    if full == [] {
    } else if |full| <= 8 {
      GroupIs(full);
    } else {
      PackedLength(full[8..]);
      GroupIs(full[..8]);
      CodeBytesConcat(full[..8], full[8..]);
      assert full == full[..8] + full[8..];
    }
  }

  lemma LayoutEnds(buf: seq<Byte>, flagsAt: nat, codeEnd: nat, full: seq<Token>, group: seq<Token>)
    requires Layout(buf, flagsAt, codeEnd, full, group)
    ensures ValidTokens(full + group) && codeEnd == CodeEnd(full + group)
  {
    hide Packed, CodeBytes, FlagBits, ToNat, Pow2;
    PackedLength(full);
    CodeBytesConcat(full, group);
  }

  lemma CodeBytesSnoc(g: seq<Token>, t: Token)
    requires ValidTokens(g) && ValidToken(t)
    ensures ValidTokens(g + [t]) && CodeBytes(g + [t]) == CodeBytes(g) + TokenBytes(t)
  {
    CodeBytesConcat(g, [t]);
    assert CodeBytes([t]) == TokenBytes(t) + CodeBytes([t][1..]);
  }

  /** Writing a token's bytes and shifting its flag in keeps the layout. */
  lemma AddCode(buf: seq<Byte>, flagsAt: nat, codeEnd: nat, full: seq<Token>, group: seq<Token>, t: Token, buf': seq<Byte>)
    requires Layout(buf, flagsAt, codeEnd, full, group) && ValidToken(t) && |buf'| == |buf|
    requires codeEnd + |TokenBytes(t)| < |buf|
    requires buf'[..flagsAt] == buf[..flagsAt] && buf'[flagsAt] == buf[flagsAt] / 2 + 128 * BitValue(t.Match?)
    requires buf'[flagsAt + 1..codeEnd + |TokenBytes(t)|] == buf[flagsAt + 1..codeEnd] + TokenBytes(t)
    ensures |group| < 7 ==> Layout(buf', flagsAt, codeEnd + |TokenBytes(t)|, full, group + [t])
    ensures |group| == 7 ==> Layout(buf', codeEnd + |TokenBytes(t)|, codeEnd + |TokenBytes(t)| + 1, full + (group + [t]), [])
  {
    hide *;
    LayoutParts(buf, flagsAt, codeEnd, full, group);
    ShiftFlag(buf[flagsAt], group, t);
    CodeBytesSnoc(group, t);
    if |group| == 7 {
      FillGroup(buf', flagsAt, codeEnd + |TokenBytes(t)|, full, group + [t]);
    } else {
      MakeLayout(buf', flagsAt, codeEnd + |TokenBytes(t)|, full, group + [t]);
    }
  }

  lemma MakeLayout(buf: seq<Byte>, flagsAt: nat, codeEnd: nat, full: seq<Token>, group: seq<Token>)
    requires ValidTokens(full) && ValidTokens(group) && |full| % 8 == 0 && |group| < 8
    requires flagsAt == |Packed(full)| && codeEnd == flagsAt + 1 + |CodeBytes(group)| <= |buf|
    requires buf[..flagsAt] == Packed(full) && buf[flagsAt + 1..codeEnd] == CodeBytes(group)
    requires buf[flagsAt] / Pow2(8 - |group|) == ToNat(FlagBits(group))
    ensures Layout(buf, flagsAt, codeEnd, full, group)
  {
    hide Packed, CodeBytes, FlagBits, ToNat, Pow2, ValidTokens;
  }

  /** The eighth token: the group joins the full ones and an empty one begins. */
  lemma FillGroup(buf: seq<Byte>, flagsAt: nat, codeEnd: nat, full: seq<Token>, g: seq<Token>)
    requires ValidTokens(full) && ValidTokens(g) && |full| % 8 == 0 && |g| == 8
    requires flagsAt == |Packed(full)| && codeEnd == flagsAt + 1 + |CodeBytes(g)| < |buf|
    requires buf[..flagsAt] == Packed(full) && buf[flagsAt + 1..codeEnd] == CodeBytes(g)
    requires buf[flagsAt] / Pow2(0) == ToNat(FlagBits(g))
    ensures Layout(buf, codeEnd, codeEnd + 1, full + g, [])
  {
    hide *;
    PackedAppend(full, g);
    PowZero();
    GroupIs(g);
    ValidEmpty();
    assert buf[..codeEnd] == buf[..flagsAt] + [buf[flagsAt]] + buf[flagsAt + 1..codeEnd];
    EmptyGroup(buf[codeEnd]);
    assert buf[codeEnd + 1..codeEnd + 1] == [];
    MakeLayout(buf, codeEnd, codeEnd + 1, full + g, []);
  }

  lemma ValidEmpty()
    ensures ValidTokens([])
  {
  }

  lemma PowZero()
    ensures Pow2(0) == 1
  {
  }

  lemma GroupIs(g: seq<Token>)
    requires ValidTokens(g) && 1 <= |g| <= 8
    ensures ToNat(FlagBits(g)) < 256 && GroupBytes(g) == [ToNat(FlagBits(g))] + CodeBytes(g)
  {
    FlagsFit(g);
  }

  lemma EmptyGroup(f: Byte)
    ensures f / Pow2(8) == ToNat(FlagBits([])) && CodeBytes([]) == []
  {
    assert Pow2(8) == 256;
  }

  /** Shifting the open flag byte down, or dropping it when its group is empty, leaves the packed tokens. */
  lemma CloseGroup(buf: seq<Byte>, flagsAt: nat, codeEnd: nat, full: seq<Token>, group: seq<Token>, buf': seq<Byte>)
    requires Layout(buf, flagsAt, codeEnd, full, group) && |buf'| == |buf|
    requires buf'[..flagsAt] == buf[..flagsAt] && buf'[flagsAt + 1..codeEnd] == buf[flagsAt + 1..codeEnd]
    requires buf'[flagsAt] == buf[flagsAt] / Pow2(8 - |group|)
    ensures ValidTokens(full + group)
    ensures buf'[..if |group| == 0 then codeEnd - 1 else codeEnd] == Packed(full + group)
  {
    hide *;
    LayoutParts(buf, flagsAt, codeEnd, full, group);
    PackedAppend(full, group);
    if group != [] {
      GroupIs(group);
      assert buf'[..codeEnd] == buf'[..flagsAt] + [buf'[flagsAt]] + buf'[flagsAt + 1..codeEnd];
    } else {
      assert full + group == full;
    }
  }

  lemma LayoutParts(buf: seq<Byte>, flagsAt: nat, codeEnd: nat, full: seq<Token>, group: seq<Token>)
    requires Layout(buf, flagsAt, codeEnd, full, group)
    ensures ValidTokens(full) && ValidTokens(group) && |full| % 8 == 0 && |group| < 8
    ensures flagsAt < codeEnd <= |buf| && (group == [] ==> codeEnd == flagsAt + 1)
    ensures buf[..flagsAt] == Packed(full) && buf[flagsAt + 1..codeEnd] == CodeBytes(group)
    ensures buf[flagsAt] / Pow2(8 - |group|) == ToNat(FlagBits(group))
  {
  }

  lemma MatchRange(len: nat, dist: nat)
    requires ValidToken(Match(len, dist))
    ensures 0 <= len - 3 < 256 && 0 <= (dist - 1) / 256 < 256
    ensures TokenBytes(Match(len, dist)) == [len - 3, (dist - 1) % 256, (dist - 1) / 256]
  {
  }

  lemma FlagOn(t: Token)
    ensures BitValue(t.Match?) == if t.Match? then 1 else 0
  {
  }

  lemma ThreeStored(b: seq<Byte>, at: nat, start: nat, x: Byte, y: Byte, z: Byte, f: Byte)
    requires at < start && start + 3 <= |b|
    ensures var b' := b[start := x][start + 1 := y][start + 2 := z][at := f];
            b'[..at] == b[..at] && b'[at] == f && b'[at + 1..start + 3] == b[at + 1..start] + [x, y, z]
  {
  }

  /** `m_lz_code_buf` with its write position, flag byte and symbol counts. */
  class TokenBuffer {
    const buf: array<Byte>
    const litFreq: array<nat>
    const distFreq: array<nat>
    var codeEnd: nat        // m_pLZ_code_buf
    var flagsAt: nat        // m_pLZ_flags
    var flagsLeft: nat      // m_num_flags_left
    var totalBytes: nat     // m_total_lz_bytes
    ghost var full: seq<Token>   // the tokens of the completed groups
    ghost var group: seq<Token>  // the tokens of the group being filled

    ghost predicate Valid()
      reads this, buf, litFreq, distFreq
    {
      && buf.Length == CODE_BUF_SIZE && litFreq != distFreq
      && Layout(buf[..], flagsAt, codeEnd, full, group) && flagsLeft == 8 - |group|
      && ValidTokens(Tokens()) && Tally(Tokens(), litFreq[..], distFreq[..])
      && totalBytes == Span(Tokens())
    }

    /** How full the buffer is depends only on the tokens. */
    lemma EndIs()
      requires Valid()
      ensures ValidTokens(Tokens()) && codeEnd == CodeEnd(Tokens()) && totalBytes == Span(Tokens())
    {
      hide Layout, Tally, Span, CodeEnd;
      LayoutEnds(buf[..], flagsAt, codeEnd, full, group);
    }

    /** The tokens recorded since the last block. */
    ghost function Tokens(): seq<Token>
      reads `full, `group
    {
      full + group
    }

    constructor ()
      ensures Valid() && fresh(buf) && fresh(litFreq) && fresh(distFreq) && Tokens() == [] && codeEnd == 1
    {
      buf := new Byte[CODE_BUF_SIZE](_ => 0);
      litFreq := new nat[288](_ => 0);
      distFreq := new nat[32](_ => 0);
      codeEnd, flagsAt, flagsLeft, totalBytes, full, group := 1, 0, 8, 0, [], [];
      new;
      EmptyGroup(buf[0]);
      NoTally(litFreq[..], distFreq[..]);
    }

    /** Counts one code against the flag byte; after the eighth a new flag byte begins. */
    method CountFlag(ghost before: seq<Byte>, ghost start: nat, ghost t: Token)
      requires ValidToken(t) && buf.Length == CODE_BUF_SIZE && flagsLeft == 8 - |group|
      requires Layout(before, flagsAt, start, full, group) && |before| == CODE_BUF_SIZE
      requires codeEnd == start + |TokenBytes(t)| < CODE_BUF_SIZE
      requires buf[..flagsAt] == before[..flagsAt] && buf[flagsAt] == before[flagsAt] / 2 + 128 * BitValue(t.Match?)
      requires buf[flagsAt + 1..codeEnd] == before[flagsAt + 1..start] + TokenBytes(t)
      modifies `flagsLeft, `flagsAt, `codeEnd, `full, `group
      ensures Layout(buf[..], flagsAt, codeEnd, full, group) && flagsLeft == 8 - |group|
      ensures Tokens() == old(Tokens()) + [t] && codeEnd <= old(codeEnd) + 1
    {
      hide Layout, TokenBytes;
      LayoutBounds(before, flagsAt, start, full, group);
      assert buf[..][..flagsAt] == buf[..flagsAt] && buf[..][flagsAt + 1..codeEnd] == buf[flagsAt + 1..codeEnd];
      AddCode(before, flagsAt, start, full, group, t, buf[..]);
      flagsLeft := flagsLeft - 1;
      group := group + [t];
      if flagsLeft == 0 {
        flagsLeft := 8;
        flagsAt := codeEnd;
        codeEnd := codeEnd + 1;
        full, group := full + group, [];
      }
    }

    /** `tdefl_record_literal` */
    method RecordLiteral(lit: Byte)
      requires Valid() && codeEnd + 1 < CODE_BUF_SIZE
      modifies this, buf, litFreq, distFreq
      ensures Valid() && Tokens() == old(Tokens()) + [Literal(lit)] && codeEnd <= old(codeEnd) + 2
      ensures totalBytes == old(totalBytes) + 1
    {
      hide Layout, Tally, Span, ValidTokens;
      ghost var t, b, ts, lf := Literal(lit), buf[..], Tokens(), litFreq[..];
      LayoutBounds(b, flagsAt, codeEnd, full, group);
      TallySnoc(ts, t, lf, distFreq[..]);
      SpanSnoc(ts, t);
      totalBytes := totalBytes + 1;
      ghost var start := codeEnd;
      buf[codeEnd] := lit;
      codeEnd := codeEnd + 1;
      buf[flagsAt] := buf[flagsAt] / 2;
      assert buf[flagsAt + 1..codeEnd] == b[flagsAt + 1..start] + [lit];
      CountFlag(b, start, t);
      TallyLengths(ts, lf, distFreq[..]);
      litFreq[lit] := litFreq[lit] + 1;
      assert litFreq[..] == lf[lit := lf[lit] + 1];
    }

    /** The three bytes of a match, and its flag. */
    method WriteMatch(len: nat, dist: nat)
      requires buf.Length == CODE_BUF_SIZE && flagsLeft == 8 - |group| && Layout(buf[..], flagsAt, codeEnd, full, group)
      requires ValidToken(Match(len, dist)) && codeEnd + 3 < CODE_BUF_SIZE
      modifies `flagsLeft, `flagsAt, `codeEnd, `full, `group, buf
      ensures Layout(buf[..], flagsAt, codeEnd, full, group) && flagsLeft == 8 - |group|
      ensures Tokens() == old(Tokens()) + [Match(len, dist)] && codeEnd <= old(codeEnd) + 4
    {
      hide *;
      ghost var b, start, t := buf[..], codeEnd, Match(len, dist);
      MatchRange(len, dist);
      LayoutBounds(b, flagsAt, codeEnd, full, group);
      var d := dist - 1;
      buf[codeEnd] := len - 3;
      buf[codeEnd + 1] := d % 256;
      buf[codeEnd + 2] := d / 256;
      buf[flagsAt] := buf[flagsAt] / 2 + 128;
      assert buf[..] == b[start := len - 3][start + 1 := d % 256][start + 2 := d / 256][flagsAt := b[flagsAt] / 2 + 128];
      ThreeStored(b, flagsAt, start, len - 3, d % 256, d / 256, b[flagsAt] / 2 + 128);
      codeEnd := codeEnd + 3;
      assert buf[..flagsAt] == buf[..][..flagsAt] && buf[flagsAt + 1..codeEnd] == buf[..][flagsAt + 1..codeEnd];
      FlagOn(t);
      CountFlag(b, start, t);
    }

    /** `tdefl_record_match` */
    method RecordMatch(len: nat, dist: nat)
      requires Valid() && ValidToken(Match(len, dist)) && codeEnd + 3 < CODE_BUF_SIZE
      modifies this, buf, litFreq, distFreq
      ensures Valid() && Tokens() == old(Tokens()) + [Match(len, dist)] && codeEnd <= old(codeEnd) + 4
      ensures totalBytes == old(totalBytes) + len
    {
      hide Layout, Tally, Span, ValidTokens, LenSym, DistSym;
      ghost var t, ts, lf, df := Match(len, dist), Tokens(), litFreq[..], distFreq[..];
      TallySnoc(ts, t, lf, df);
      TallyLengths(ts, lf, df);
      SpanSnoc(ts, t);
      totalBytes := totalBytes + len;
      WriteMatch(len, dist);
      var d := dist - 1;
      var s := DistSym(d);
      distFreq[s] := distFreq[s] + 1;
      assert distFreq[..] == df[s := df[s] + 1];
      var l := LenSym(len - 3);
      litFreq[l] := litFreq[l] + 1;
      assert litFreq[..] == lf[l := lf[l] + 1];
    }

    /** What `tdefl_flush_block` does to the buffer before it is read: the buffer now holds
        exactly the packed tokens. */
    method Close()
      requires Valid()
      modifies buf, `codeEnd
      ensures codeEnd <= CODE_BUF_SIZE == buf.Length && buf[..codeEnd] == Packed(Tokens())
    {
      hide Layout, Tally, Span, Packed, Pow2, ValidTokens;
      ghost var b, e := buf[..], codeEnd;
      LayoutBounds(b, flagsAt, codeEnd, full, group);
      buf[flagsAt] := buf[flagsAt] / Pow2(flagsLeft);
      DivShrinks(b[flagsAt], Pow2(flagsLeft));
      if flagsLeft == 8 { codeEnd := codeEnd - 1; }
      CloseGroup(b, flagsAt, e, full, group, buf[..]);
      assert buf[..codeEnd] == buf[..][..codeEnd];
    }

    /** The buffer for the next block; the flag byte keeps its old contents. */
    method Reset()
      requires buf.Length == CODE_BUF_SIZE && litFreq != distFreq && litFreq.Length == 288 && distFreq.Length == 32
      modifies this, litFreq, distFreq
      ensures Valid() && Tokens() == [] && totalBytes == 0 && codeEnd == 1
    {
      var i := 0;
      while i < 288
        invariant i <= 288 && forall j :: 0 <= j < i ==> litFreq[j] == 0
      {
        litFreq[i] := 0;
        i := i + 1;
      }
      i := 0;
      while i < 32
        invariant i <= 32 && forall j :: 0 <= j < i ==> distFreq[j] == 0
        invariant forall j :: 0 <= j < 288 ==> litFreq[j] == 0
      {
        distFreq[i] := 0;
        i := i + 1;
      }
      codeEnd, flagsAt, flagsLeft, totalBytes, full, group := 1, 0, 8, 0, [], [];
      EmptyGroup(buf[0]);
      NoTally(litFreq[..], distFreq[..]);
    }
  }

  lemma LayoutBounds(buf: seq<Byte>, flagsAt: nat, codeEnd: nat, full: seq<Token>, group: seq<Token>)
    requires Layout(buf, flagsAt, codeEnd, full, group)
    ensures flagsAt < codeEnd <= |buf| && ValidTokens(full) && ValidTokens(group) && |group| < 8 && ValidTokens(full + group)
  {
  }

  lemma TallyLengths(ts: seq<Token>, lit: seq<nat>, dist: seq<nat>)
    requires ValidTokens(ts) && Tally(ts, lit, dist)
    ensures |lit| == 288 && |dist| == 32
  {
  }

  lemma DivShrinks(n: nat, p: nat)
    requires p > 0
    ensures n / p <= n
  {
    MulMonotone(n / p, 1, p);
  }

  lemma {:induction false} SumOfZeros(f: seq<nat>)
    requires forall i :: 0 <= i < |f| ==> f[i] == 0
    ensures Sum(f) == 0
  {
    if f != [] { SumOfZeros(f[1..]); }
  }

  lemma NoTally(lit: seq<nat>, dist: seq<nat>)
    requires |lit| == 288 && forall i :: 0 <= i < 288 ==> lit[i] == 0
    requires |dist| == 32 && forall i :: 0 <= i < 32 ==> dist[i] == 0
    ensures Tally([], lit, dist)
  {
    SumOfZeros(lit);
    SumOfZeros(dist);
  }
}
