/** The Adler-32 checksum (section 2.2 of RFC 1950): 32-bit sums that are reduced once every
    5552 bytes against the definition that reduces at every byte. */
module Adler32 {
  import opened Bits

  type Word = w: nat | w < 0x1_0000_0000

  const BASE: nat := 65521
  const BLOCK: nat := 5552

  /** 32-bit unsigned addition. */
  function Add(x: Word, y: nat): Word {
    (x + y) % 0x1_0000_0000
  }

  /** The two sums, reduced after every byte. */
  datatype Sums = Sums(s1: nat, s2: nat)

  function Step(s: Sums, c: Byte): Sums {
    Sums((s.s1 + c) % BASE, (s.s2 + (s.s1 + c) % BASE) % BASE)
  }

  function Steps(s: Sums, bytes: seq<Byte>): Sums {
    if bytes == [] then s else Step(Steps(s, bytes[..|bytes| - 1]), bytes[|bytes| - 1])
  }

  function Halves(adler: Word): Sums { Sums(adler % 0x1_0000, adler / 0x1_0000) }

  /** The checksum as defined: high half the second sum, low half the first. */
  function Checksum(adler: Word, bytes: seq<Byte>): (r: Word)
  {
    if bytes == [] then adler
    else
      StepsReduced(Halves(adler), bytes);
      Steps(Halves(adler), bytes).s2 * 0x1_0000 + Steps(Halves(adler), bytes).s1
  }

  lemma StepsReduced(s: Sums, bytes: seq<Byte>)
    requires bytes != []
    ensures Steps(s, bytes).s1 < BASE && Steps(s, bytes).s2 < BASE
  {
  }

  lemma {:induction false} StepsConcat(s: Sums, a: seq<Byte>, b: seq<Byte>)
    ensures Steps(s, a + b) == Steps(Steps(s, a), b)
    decreases |b|
  {
    if b == [] {
      assert a + b == a;
    } else {
      assert (a + b)[..|a + b| - 1] == a + b[..|b| - 1];
      StepsConcat(s, a, b[..|b| - 1]);
    }
  }

  /** A checksum can be continued: what comes later starts from what was found so far. */
  lemma Compositional(adler: Word, a: seq<Byte>, b: seq<Byte>)
    ensures Checksum(Checksum(adler, a), b) == Checksum(adler, a + b)
  {
    if a == [] {
      assert a + b == b;
    } else if b == [] {
      assert a + b == a;
    } else {
      var s := Steps(Halves(adler), a);
      StepsReduced(Halves(adler), a);
      HalvesOf(s);
      StepsConcat(Halves(adler), a, b);
    }
  }

  lemma HalvesOf(s: Sums)
    requires s.s1 < BASE && s.s2 < BASE
    ensures Halves(s.s2 * 0x1_0000 + s.s1) == s
  {
  }

  function Sum(bytes: seq<Byte>): nat {
    if bytes == [] then 0 else Sum(bytes[..|bytes| - 1]) + bytes[|bytes| - 1]
  }

  /** Every byte counted once for itself and once for each byte after it. */
  function Weighted(bytes: seq<Byte>): nat {
    if bytes == [] then 0 else Weighted(bytes[..|bytes| - 1]) + Sum(bytes)
  }

  /** The sums in closed form, without any reduction. */
  function Raw(s: Sums, bytes: seq<Byte>): Sums {
    Sums(s.s1 + Sum(bytes), s.s2 + |bytes| * s.s1 + Weighted(bytes))
  }

  lemma RawNothing(s: Sums)
    ensures Raw(s, []) == s
  {
  }

  lemma RawStep(s: Sums, bytes: seq<Byte>, k: nat)
    requires k < |bytes|
    ensures Raw(s, bytes[..k + 1]).s1 == Raw(s, bytes[..k]).s1 + bytes[k]
    ensures Raw(s, bytes[..k + 1]).s2 == Raw(s, bytes[..k]).s2 + Raw(s, bytes[..k + 1]).s1
  {
    assert bytes[..k + 1][..k] == bytes[..k];
    assert (k + 1) * s.s1 == k * s.s1 + s.s1;
  }

  lemma AddReduced(x: nat, y: nat)
    ensures (x % BASE + y) % BASE == (x + y) % BASE
    ensures (y + x % BASE) % BASE == (x + y) % BASE
  {
  }

  function Reduced(s: Sums): Sums { Sums(s.s1 % BASE, s.s2 % BASE) }

  /** Only the reduced sums matter to what follows. */
  lemma StepCongruent(s: Sums, t: Sums, c: Byte)
    requires Reduced(s) == Reduced(t)
    ensures Step(s, c) == Step(t, c)
  {
    hide *;
    StepIs(s, c);
    StepIs(t, c);
  }

  lemma SumsAgree(a: nat, b: nat, c: nat)
    ensures (a % BASE + c) % BASE == (a + c) % BASE
    ensures (b + (a + c) % BASE) % BASE == (b + a + c) % BASE
    ensures (b % BASE + a % BASE + c) % BASE == (b + a + c) % BASE
  {
    AddReduced(a, c);
    AddReduced(a + c, b);
    AddReduced(b, a % BASE + c);
    AddReduced(a, b + c);
  }

  lemma StepParts(s: Sums, c: Byte)
    ensures Step(s, c) == Sums((s.s1 + c) % BASE, (s.s2 + (s.s1 + c) % BASE) % BASE)
  {
  }

  lemma ReducedIs(a: nat, b: nat)
    ensures Reduced(Sums(a, b)) == Sums(a % BASE, b % BASE)
  {
  }

  lemma StepIs(s: Sums, c: Byte)
    ensures Step(s, c) == Reduced(Sums(Reduced(s).s1 + c, Reduced(s).s2 + Reduced(s).s1 + c))
    ensures Step(s, c) == Reduced(Sums(s.s1 + c, s.s2 + s.s1 + c))
  {
    hide Step, Reduced;
    StepParts(s, c);
    SumsAgree(s.s1, s.s2, c);
    ReducedIs(s.s1, s.s2);
    ReducedIs(s.s1 % BASE + c, s.s2 % BASE + s.s1 % BASE + c);
    ReducedIs(s.s1 + c, s.s2 + s.s1 + c);
  }

  lemma {:induction false} StepsCongruent(s: Sums, t: Sums, bytes: seq<Byte>)
    requires Reduced(s) == Reduced(t)
    ensures Reduced(Steps(s, bytes)) == Reduced(Steps(t, bytes))
  {
    hide Step, Reduced;
    if bytes != [] {
      StepsCongruent(s, t, bytes[..|bytes| - 1]);
      StepCongruent(Steps(s, bytes[..|bytes| - 1]), Steps(t, bytes[..|bytes| - 1]), bytes[|bytes| - 1]);
    }
  }

  lemma ReducedTwice(s: Sums)
    ensures Reduced(Reduced(s)) == Reduced(s)
    ensures s.s1 < BASE && s.s2 < BASE ==> Reduced(s) == s
  {
  }

  /** Reducing at the end is as good as reducing at every byte. */
  lemma {:induction false} ClosedForm(s: Sums, bytes: seq<Byte>)
    ensures Reduced(Steps(s, bytes)) == Reduced(Raw(s, bytes))
    ensures bytes != [] ==> Steps(s, bytes) == Reduced(Raw(s, bytes))
  {
    hide Step, Reduced, Raw;
    if bytes == [] {
      RawNothing(s);
    } else {
      var front, k, c := bytes[..|bytes| - 1], |bytes| - 1, bytes[|bytes| - 1];
      ClosedForm(s, front);
      RawStep(s, bytes, k);
      assert bytes[..k + 1] == bytes;
      StepCongruent(Steps(s, front), Raw(s, front), c);
      StepIs(Raw(s, front), c);
      ReducedTwice(Raw(s, bytes));
    }
  }

  lemma {:induction false} SumBound(bytes: seq<Byte>)
    ensures Sum(bytes) <= 255 * |bytes|
  {
    if bytes != [] { SumBound(bytes[..|bytes| - 1]); }
  }

  lemma {:induction false} WeightedBound(bytes: seq<Byte>)
    ensures 2 * Weighted(bytes) <= 255 * (|bytes| * (|bytes| + 1))
  {
    if bytes != [] {
      var n := |bytes|;
      WeightedBound(bytes[..n - 1]);
      SumBound(bytes);
      assert n * (n + 1) == (n - 1) * n + 2 * n;
    }
  }

  /** Half words at the start and at most 5552 bytes: neither sum reaches 32 bits. */
  lemma NoOverflow(s: Sums, bytes: seq<Byte>)
    requires s.s1 < 0x1_0000 && s.s2 < 0x1_0000 && |bytes| <= BLOCK
    ensures Raw(s, bytes).s1 < 0x1_0000_0000 && Raw(s, bytes).s2 < 0x1_0000_0000
  {
    var n := |bytes|;
    SumBound(bytes);
    WeightedBound(bytes);
    Product(n, s.s1, BLOCK, 0xffff);
    Product(n, n + 1, BLOCK, BLOCK + 1);
  }

  lemma Product(a: nat, b: nat, x: nat, y: nat)
    requires a <= x && b <= y
    ensures a * b <= x * y
  {
    assert a * b <= x * b <= x * y;
  }

  /** One byte of a block: `s1 += c, s2 += s1`. */
  method AddByte(ghost s: Sums, block: seq<Byte>, k: nat, s1: Word, s2: Word) returns (t1: Word, t2: Word)
    requires k < |block| <= BLOCK && s.s1 < 0x1_0000 && s.s2 < 0x1_0000
    requires Sums(s1, s2) == Raw(s, block[..k])
    ensures Sums(t1, t2) == Raw(s, block[..k + 1])
  {
    hide Raw;
    RawStep(s, block, k);
    NoOverflow(s, block[..k + 1]);
    t1 := Add(s1, block[k]);
    t2 := Add(s2, t1);
  }

  /** A block of at most 5552 bytes, eight at a time and then one at a time; the reduction follows. */
  method AddBlock(block: seq<Byte>, first: Word, second: Word) returns (s1: Word, s2: Word)
    requires |block| <= BLOCK && first < 0x1_0000 && second < 0x1_0000
    ensures Sums(s1, s2) == Reduced(Raw(Sums(first, second), block))
  {
    hide Raw;
    ghost var s := Sums(first, second);
    s1, s2 := first, second;
    var i: nat := 0;
    RawNothing(s);
    assert block[..0] == [];
    while i + 7 < |block|
      invariant i <= |block| && Sums(s1, s2) == Raw(s, block[..i])
    {
      s1, s2 := AddByte(s, block, i, s1, s2);
      s1, s2 := AddByte(s, block, i + 1, s1, s2);
      s1, s2 := AddByte(s, block, i + 2, s1, s2);
      s1, s2 := AddByte(s, block, i + 3, s1, s2);
      s1, s2 := AddByte(s, block, i + 4, s1, s2);
      s1, s2 := AddByte(s, block, i + 5, s1, s2);
      s1, s2 := AddByte(s, block, i + 6, s1, s2);
      s1, s2 := AddByte(s, block, i + 7, s1, s2);
      i := i + 8;
    }
    while i < |block|
      invariant i <= |block| && Sums(s1, s2) == Raw(s, block[..i])
    {
      s1, s2 := AddByte(s, block, i, s1, s2);
      i := i + 1;
    }
    assert block[..i] == block;
    s1, s2 := s1 % BASE, s2 % BASE;
  }

  /** What has been done after the first `at` bytes. */
  ghost predicate SoFar(start: Sums, bytes: seq<Byte>, at: nat, s: Sums) {
    && at <= |bytes| && s.s1 < 0x1_0000 && s.s2 < 0x1_0000
    && Reduced(s) == Reduced(Steps(start, bytes[..at]))
    && (at > 0 ==> Reduced(s) == s)
  }

  lemma BlockDone(start: Sums, bytes: seq<Byte>, at: nat, length: nat, s: Sums)
    requires SoFar(start, bytes, at, s) && at + length <= |bytes|
    ensures SoFar(start, bytes, at + length, Reduced(Raw(s, bytes[at..at + length])))
  {
    hide Steps, Raw;
    var block := bytes[at..at + length];
    var done := Reduced(Raw(s, block));
    assert bytes[..at + length] == bytes[..at] + block;
    StepsConcat(start, bytes[..at], block);
    StepsCongruent(s, Steps(start, bytes[..at]), block);
    ClosedForm(s, block);
    ReducedTwice(Raw(s, block));
  }

  /** `mz_adler32`: the first block takes the odd bytes, each later one 5552. */
  method Adler(adler: Word, bytes: seq<Byte>) returns (r: Word)
    ensures r == Checksum(adler, bytes)
  {
    hide Steps, Raw, SoFar;
    var s1: Word, s2: Word := adler % 0x1_0000, adler / 0x1_0000;
    var left, length := |bytes|, |bytes| % BLOCK;
    Begin(adler, bytes);
    while left > 0
      invariant 0 <= left <= |bytes| && 0 <= length <= BLOCK
      invariant (left > 0 ==> length <= left) && (left - length) % BLOCK == 0
      invariant bytes == [] ==> Sums(s1, s2) == Halves(adler)
      invariant SoFar(Halves(adler), bytes, |bytes| - left, Sums(s1, s2))
      decreases left, BLOCK - length
    {
      var at := |bytes| - left;
      HalfWords(Halves(adler), bytes, at, Sums(s1, s2));
      BlockDone(Halves(adler), bytes, at, length, Sums(s1, s2));
      s1, s2 := AddBlock(bytes[at..at + length], s1, s2);
      left := left - length;
      length := BLOCK;
    }
    HalfWords(Halves(adler), bytes, |bytes|, Sums(s1, s2));
    r := s2 * 0x1_0000 + s1;
    Finished(adler, bytes, Sums(s1, s2));
  }

  lemma Begin(adler: Word, bytes: seq<Byte>)
    ensures SoFar(Halves(adler), bytes, 0, Sums(adler % 0x1_0000, adler / 0x1_0000))
  {
    assert bytes[..0] == [];
  }

  lemma HalfWords(start: Sums, bytes: seq<Byte>, at: nat, s: Sums)
    requires SoFar(start, bytes, at, s)
    ensures s.s1 < 0x1_0000 && s.s2 < 0x1_0000
  {
  }

  lemma Finished(adler: Word, bytes: seq<Byte>, s: Sums)
    requires SoFar(Halves(adler), bytes, |bytes|, s)
    requires bytes == [] ==> s == Halves(adler)
    ensures s.s2 * 0x1_0000 + s.s1 == Checksum(adler, bytes)
  {
    assert bytes[..|bytes|] == bytes;
    if bytes != [] {
      StepsReduced(Halves(adler), bytes);
      ReducedTwice(Steps(Halves(adler), bytes));
    }
  }

  /** The checksum of the nine letters of "Wikipedia". */
  lemma NineLetters()
    ensures Checksum(1, [87, 105, 107, 105, 112, 101, 100, 105, 97]) == 0x11E6_0398
  {
    hide Steps, Step;
    var w: seq<Byte> := [87, 105, 107, 105, 112, 101, 100, 105, 97];
    NoSteps(w, Sums(1, 0));
    StepTo(w, 0, Sums(1, 0), Sums(1, 0), Sums(88, 88));
    StepTo(w, 1, Sums(1, 0), Sums(88, 88), Sums(193, 281));
    StepTo(w, 2, Sums(1, 0), Sums(193, 281), Sums(300, 581));
    StepTo(w, 3, Sums(1, 0), Sums(300, 581), Sums(405, 986));
    StepTo(w, 4, Sums(1, 0), Sums(405, 986), Sums(517, 1503));
    StepTo(w, 5, Sums(1, 0), Sums(517, 1503), Sums(618, 2121));
    StepTo(w, 6, Sums(1, 0), Sums(618, 2121), Sums(718, 2839));
    StepTo(w, 7, Sums(1, 0), Sums(718, 2839), Sums(823, 3662));
    StepTo(w, 8, Sums(1, 0), Sums(823, 3662), Sums(920, 4582));
    assert w[..9] == w;
  }

  /** Both sums pass 65521. */
  lemma BothReduced()
    ensures Checksum(0xFFF0_FFF0, [16, 255]) == 0x011C_010E
  {
    hide Steps, Step;
    var w: seq<Byte> := [16, 255];
    NoSteps(w, Sums(65520, 65520));
    StepTo(w, 0, Sums(65520, 65520), Sums(65520, 65520), Sums(15, 14));
    StepTo(w, 1, Sums(65520, 65520), Sums(15, 14), Sums(270, 284));
    assert w[..2] == w;
  }

  lemma NoSteps(bytes: seq<Byte>, s: Sums)
    ensures Steps(s, bytes[..0]) == s
  {
  }

  lemma StepTo(bytes: seq<Byte>, i: nat, start: Sums, before: Sums, after: Sums)
    requires i < |bytes| && Steps(start, bytes[..i]) == before && before.s1 < 0x1_0000 && before.s2 < 0x1_0000
    requires after.s1 == before.s1 + bytes[i] || after.s1 == before.s1 + bytes[i] - 65521
    requires after.s2 == before.s2 + after.s1 || after.s2 == before.s2 + after.s1 - 65521
    requires after.s1 < 65521 && after.s2 < 65521
    ensures Steps(start, bytes[..i + 1]) == after
  {
    assert bytes[..i + 1][..i] == bytes[..i];
  }
}
