/** The deflater's sliding window: a 32K ring whose first 257 bytes are mirrored behind its end,
    so that a match can be read without wrapping. */
module LzWindow {
  import opened Bits
  import opened HashChains
  import opened MatchSearch

  const MAX_MATCH_LEN := 258
  const RING_SIZE := 33025   // DICT_SIZE + MAX_MATCH_LEN - 1
  const TWO_32 := 0x1_0000_0000

  /** The ring holds the last `back` bytes before the lookahead and the lookahead itself, the low
      ring positions twice.  `seen` is all the input taken in so far. */
  ghost predicate Holds(dict: seq<Byte>, seen: seq<Byte>, lookahead: nat, back: nat) {
    && |dict| == RING_SIZE && lookahead + back <= |seen| && lookahead + back <= DICT_SIZE
    && (forall x :: |seen| - lookahead - back <= x < |seen| ==> dict[x % DICT_SIZE] == seen[x])
    && (forall x :: |seen| - lookahead - back <= x < |seen| && x % DICT_SIZE < MAX_MATCH_LEN - 1 ==>
          dict[DICT_SIZE + x % DICT_SIZE] == seen[x])
  }

  lemma HoldsLess(dict: seq<Byte>, seen: seq<Byte>, lookahead: nat, back: nat, less: nat)
    requires Holds(dict, seen, lookahead, back) && less <= back
    ensures Holds(dict, seen, lookahead, less)
  {
  }

  lemma MovedOn(dict: seq<Byte>, seen: seq<Byte>, lookahead: nat, back: nat, n: nat)
    requires Holds(dict, seen, lookahead, back) && n <= lookahead
    ensures Holds(dict, seen, lookahead - n, back + n)
  {
  }

  lemma ModApart(x: nat, y: nat)
    requires x < y < x + DICT_SIZE
    ensures x % DICT_SIZE != y % DICT_SIZE
  {
  }

  /** One more byte of input in the ring, and in the mirror if it belongs there. */
  lemma AddByte(dict: seq<Byte>, seen: seq<Byte>, lookahead: nat, back: nat, c: Byte, dict': seq<Byte>)
    requires Holds(dict, seen, lookahead, back) && lookahead + back < DICT_SIZE && |dict'| == RING_SIZE
    requires var d := |seen| % DICT_SIZE;
             dict' == (if d < MAX_MATCH_LEN - 1 then dict[d := c][DICT_SIZE + d := c] else dict[d := c])
    ensures Holds(dict', seen + [c], lookahead + 1, back)
  {
    var seen' := seen + [c];
    forall x | |seen'| - (lookahead + 1) - back <= x < |seen'|
      ensures dict'[x % DICT_SIZE] == seen'[x]
      ensures x % DICT_SIZE < MAX_MATCH_LEN - 1 ==> dict'[DICT_SIZE + x % DICT_SIZE] == seen'[x]
    {
      if x < |seen| { ModApart(x, |seen|); }
    }
  }

  /** Reading on past the end of the ring into the mirror. */
  lemma ReadAt(dict: seq<Byte>, seen: seq<Byte>, lookahead: nat, back: nat, x: nat, i: nat)
    requires Holds(dict, seen, lookahead, back) && |seen| - lookahead - back <= x && x + i < |seen| && i <= MAX_MATCH_LEN - 1
    ensures x % DICT_SIZE + i < RING_SIZE && dict[x % DICT_SIZE + i] == seen[x + i]
  {
    var r := x % DICT_SIZE;
    if r + i < DICT_SIZE {
      assert (x + i) % DICT_SIZE == r + i;
    } else {
      assert (x + i) % DICT_SIZE == r + i - DICT_SIZE;
    }
  }

  class Window {
    const dict: array<Byte>
    const next: array<nat>
    const hash: array<nat>
    var pos: nat          // m_lookahead_pos, 32 bits wide
    var lookahead: nat    // m_lookahead_size
    var dictSize: nat     // m_dict_size
    ghost var seen: seq<Byte>
    ghost var from: nat   // where the history begins that has not been forgotten

    /** How many input bytes lie before the lookahead. */
    ghost function At(): int
      reads `seen, `lookahead
    {
      |seen| - lookahead
    }

    ghost predicate Chains()
      reads {}
    {
      next.Length == DICT_SIZE && hash.Length == HASH_SIZE && next != hash
    }

    /** Every position since `from` is entered in its chain. */
    ghost predicate Entered()
      reads `seen, `from, next, hash
    {
      Chains() && Linked(next[..], hash[..], seen, from)
    }

    ghost predicate Valid()
      reads this, dict, next, hash
    {
      && Entered() && lookahead <= MAX_MATCH_LEN && lookahead <= |seen|
      && pos == (|seen| - lookahead) % TWO_32
      && dict.Length == RING_SIZE && Holds(dict[..], seen, lookahead, dictSize)
      && from <= At() && dictSize == Least(At() - from, DICT_SIZE - lookahead)
    }

    /** `tdefl_init`; the ring may start with anything in it. */
    constructor ()
      ensures Valid() && seen == [] && lookahead == 0 && from == 0 && fresh(dict) && fresh(next) && fresh(hash)
    {
      dict := new Byte[RING_SIZE];
      next := new nat[DICT_SIZE](_ => 0);
      hash := new nat[HASH_SIZE](_ => 0);
      pos, lookahead, dictSize, seen, from := 0, 0, 0, [], 0;
      new;
      NothingLinked(next[..], hash[..], [], 0);
    }

    /** Stores a byte at its ring position and in the mirror. */
    method PutByte(at: nat, c: Byte, ghost size: nat, ghost back: nat)
      requires dict.Length == RING_SIZE && Holds(dict[..], seen, size, back) && size + back < DICT_SIZE
      requires at == |seen| % DICT_SIZE
      modifies dict, `seen
      ensures seen == old(seen) + [c] && Holds(dict[..], seen, size + 1, back)
    {
      ghost var before := dict[..];
      dict[at] := c;
      if at < MAX_MATCH_LEN - 1 { dict[DICT_SIZE + at] := c; }
      AddByte(before, seen, size, back, c, dict[..]);
      seen := seen + [c];
    }

    /** Puts the position where the last three bytes begin at the head of its hash chain. */
    method InsertHash(insPos: nat, h: nat, ghost before: seq<Byte>, ghost c: Byte)
      requires Chains() && h < HASH_SIZE && Linked(next[..], hash[..], before, from)
      requires |before| >= from + 2 && SameLow(insPos, |before| - 2) && h == HashOf(before + [c], |before| - 2)
      modifies next, hash
      ensures Linked(next[..], hash[..], before + [c], from)
    {
      hide Linked, HashOf;
      LowRing(insPos, |before| - 2);
      ghost var links: seq<nat>, heads: seq<nat> := next[..], hash[..];
      next[insPos % DICT_SIZE] := hash[h];
      hash[h] := insPos % 65536;
      Enters(links, heads, before, from, c, insPos, h);
      assert next[..] == links[insPos % DICT_SIZE := heads[h]] && hash[..] == heads[h := insPos % 65536];
    }

    /** Stores one byte, rolls the hash over it, and enters the position where it begins. */
    method RollByte(dstPos: nat, insPos: nat, h: nat, c: Byte, ghost size: nat, ghost back: nat)
      returns (dstPos': nat, insPos': nat, h': nat)
      requires Rolling(dstPos, insPos, h, size, back) && size + back < DICT_SIZE
      modifies dict, `seen, next, hash
      ensures seen == old(seen) + [c] && Rolling(dstPos', insPos', h', size + 1, back)
    {
      hide Holds, Xor, Linked, HashOf, RollsOver, SameLow;
      RollsFurther(h, seen, c);
      RingNext(dstPos, |seen|);
      InsertNext(insPos, |seen| - 2);
      PutByte(dstPos, c, size, back);
      h' := Xor(h * 32, c) % HASH_SIZE;
      InsertHash(insPos, h', old(seen), c);
      dstPos', insPos' := (dstPos + 1) % DICT_SIZE, (insPos + 1) % TWO_32;
    }

    /** Positions and hash for bytes that follow the last two. */
    method StartRolling(ghost back: nat) returns (dstPos: nat, insPos: nat, h: nat)
      requires Valid() && lookahead + dictSize >= 2 && back <= dictSize
      ensures Rolling(dstPos, insPos, h, lookahead, back)
    {
      hide Holds, Xor, Linked, RollsOver, SameLow;
      dstPos := (pos + lookahead) % DICT_SIZE;
      insPos := (pos + lookahead - 2) % TWO_32;
      InsertAt(|seen|, lookahead, 2);
      LastTwo(insPos);
      h := Xor(dict[insPos % DICT_SIZE] as int * 32, dict[(insPos + 1) % DICT_SIZE]);
      HoldsLess(dict[..], seen, lookahead, dictSize, back);
      RingPos(|seen|, lookahead);
    }

    /** Fills the lookahead with up to 258 bytes when a rolling hash can be carried along. */
    method FillRolling(src: seq<Byte>, at: nat) returns (n: nat)
      requires Valid() && at <= |src| && lookahead + dictSize >= 2
      modifies this`lookahead, this`seen, dict, next, hash
      ensures Entered() && n == Least(|src| - at, MAX_MATCH_LEN - old(lookahead))
      ensures lookahead == old(lookahead) + n && seen == old(seen) + src[at..at + n]
      ensures Holds(dict[..], seen, lookahead, Least(dictSize, DICT_SIZE - lookahead))
    {
      hide Holds, Linked, RollsOver, SameLow, Rolling;
      HereInside();
      n := Least(|src| - at, MAX_MATCH_LEN - lookahead);
      ghost var size: nat, back: nat := lookahead, Least(dictSize, DICT_SIZE - (lookahead + n));
      var dstPos, insPos, h := StartRolling(back);
      lookahead := lookahead + n;
      var i := 0;
      while i < n
        invariant i <= n && seen == old(seen) + src[at..at + i] && lookahead == size + n
        invariant Rolling(dstPos, insPos, h, size + i, back)
      {
        dstPos, insPos, h := RollByte(dstPos, insPos, h, src[at + i], size + i, back);
        i := i + 1;
      }
      RollingIs(dstPos, insPos, h, size + n, back);
    }

    lemma RollingIs(dstPos: nat, insPos: nat, h: nat, size: nat, back: nat)
      requires Rolling(dstPos, insPos, h, size, back)
      ensures Entered() && dict.Length == RING_SIZE && Holds(dict[..], seen, size, back)
    {
    }

    /** Where the next byte goes, what is entered with it, and the hash carried along. */
    ghost predicate Rolling(dstPos: nat, insPos: nat, h: nat, size: nat, back: nat)
      reads `seen, `from, dict, next, hash
    {
      && Entered() && dict.Length == RING_SIZE && Holds(dict[..], seen, size, back)
      && dstPos == |seen| % DICT_SIZE && |seen| >= from + 2 && SameLow(insPos, |seen| - 2) && RollsOver(h, seen)
    }

    /** The hash over the last two bytes in the ring. */
    lemma LastTwo(insPos: nat)
      requires Valid() && lookahead + dictSize >= 2 && |seen| >= 2 && SameLow(insPos, |seen| - 2)
      ensures insPos % DICT_SIZE < RING_SIZE && |seen| >= from + 2
      ensures RollsOver(Xor(dict[insPos % DICT_SIZE] as int * 32, dict[(insPos + 1) % DICT_SIZE]), seen)
    {
      hide Xor, Linked;
      LowRing(insPos, |seen| - 2);
      RingNext(insPos % DICT_SIZE, |seen| - 2);
      RingStep(insPos);
    }

    /** Enters the three bytes that end in the new byte `c`. */
    method HashLast(c: Byte, ghost back: nat)
      requires Chains() && dict.Length == RING_SIZE && |seen| >= from + 3 && seen[|seen| - 1] == c
      requires 1 <= lookahead <= |seen| && pos == (|seen| - lookahead) % TWO_32
      requires lookahead + back >= 3 && Holds(dict[..], seen, lookahead, back)
      requires Linked(next[..], hash[..], seen[..|seen| - 1], from)
      modifies next, hash
      ensures Entered()
    {
      hide Xor, Linked;
      var insPos: nat := (pos + (lookahead - 1) - 2) % TWO_32;
      InsertAt(|seen|, lookahead, 3);
      LowRing(insPos, |seen| - 3);
      RingStep(insPos);
      RingNext(insPos % DICT_SIZE, |seen| - 3);
      assert seen[|seen| - 3] == dict[insPos % DICT_SIZE] && seen[|seen| - 2] == dict[(insPos + 1) % DICT_SIZE];
      var h := Xor(Xor(dict[insPos % DICT_SIZE] as int * 1024, dict[(insPos + 1) % DICT_SIZE] as int * 32), c) % HASH_SIZE;
      assert seen == seen[..|seen| - 1] + [c];
      InsertHash(insPos, h, seen[..|seen| - 1], c);
    }

    /** Takes one byte in at the end of the lookahead. */
    method FillOne(c: Byte)
      requires Entered() && lookahead <= |seen| && lookahead < MAX_MATCH_LEN && pos == (|seen| - lookahead) % TWO_32
      requires from <= At() && Least(At() - from, DICT_SIZE - MAX_MATCH_LEN) <= dictSize <= At() - from
      requires dict.Length == RING_SIZE && Holds(dict[..], seen, lookahead, Least(dictSize, DICT_SIZE - lookahead))
      modifies `lookahead, `seen, dict, next, hash
      ensures Entered() && lookahead == old(lookahead) + 1 && seen == old(seen) + [c]
      ensures Holds(dict[..], seen, lookahead, Least(dictSize, DICT_SIZE - lookahead))
    {
      hide Holds, Xor, Linked;
      RingPos(|seen|, lookahead);
      var dstPos := (pos + lookahead) % DICT_SIZE;
      HoldsLess(dict[..], seen, lookahead, Least(dictSize, DICT_SIZE - lookahead), Least(dictSize, DICT_SIZE - (lookahead + 1)));
      PutByte(dstPos, c, lookahead, Least(dictSize, DICT_SIZE - (lookahead + 1)));
      lookahead := lookahead + 1;
      assert seen[..|seen| - 1] == old(seen);
      if lookahead + dictSize >= 3 {
        HashLast(c, Least(dictSize, DICT_SIZE - lookahead));
      } else {
        StillNothing(next[..], hash[..], old(seen), from, c);
      }
    }

    /** The same while too few bytes are known to roll the hash. */
    method FillSlowly(src: seq<Byte>, at: nat) returns (n: nat)
      requires Valid() && at <= |src|
      modifies this`lookahead, this`seen, dict, next, hash
      ensures Entered() && n == Least(|src| - at, MAX_MATCH_LEN - old(lookahead))
      ensures lookahead == old(lookahead) + n && seen == old(seen) + src[at..at + n]
      ensures Holds(dict[..], seen, lookahead, Least(dictSize, DICT_SIZE - lookahead))
    {
      hide Holds, Xor, Linked;
      n := 0;
      HoldsLess(dict[..], seen, lookahead, dictSize, Least(dictSize, DICT_SIZE - lookahead));
      while at + n < |src| && lookahead < MAX_MATCH_LEN
        invariant at + n <= |src| && lookahead == old(lookahead) + n <= MAX_MATCH_LEN && Entered()
        invariant seen == old(seen) + src[at..at + n] && |seen| - lookahead == old(|seen| - lookahead)
        invariant Holds(dict[..], seen, lookahead, Least(dictSize, DICT_SIZE - lookahead))
      {
        FillOne(src[at + n]);
        n := n + 1;
      }
    }

    /** Takes in as much input as the lookahead has room for, enters it in the chains, and forgets history to match. */
    method Fill(src: seq<Byte>, at: nat) returns (n: nat)
      requires Valid() && at <= |src|
      modifies this, dict, next, hash
      ensures Valid() && n == Least(|src| - at, MAX_MATCH_LEN - old(lookahead)) && At() == old(At()) && from == old(from)
      ensures lookahead == old(lookahead) + n && seen == old(seen) + src[at..at + n]
      ensures dictSize == Least(old(dictSize), DICT_SIZE - lookahead)
    {
      hide Linked;
      if lookahead + dictSize >= 2 {
        n := FillRolling(src, at);
      } else {
        n := FillSlowly(src, at);
      }
      dictSize := Least(DICT_SIZE - lookahead, dictSize);
    }

    /** Moves the lookahead forward. */
    method Advance(n: nat)
      requires Valid() && n <= lookahead
      modifies this
      ensures Valid() && At() == old(At()) + n && lookahead == old(lookahead) - n && seen == old(seen) && from == old(from)
      ensures dictSize == Least(old(dictSize) + n, DICT_SIZE)
    {
      hide Linked;
      MovedOn(dict[..], seen, lookahead, dictSize, n);
      AddWraps(|seen| - lookahead, n);
      pos := (pos + n) % TWO_32;
      lookahead := lookahead - n;
      dictSize := Least(dictSize + n, DICT_SIZE);
    }

    /** A full flush makes the history unusable. */
    method Forget()
      requires Valid() && lookahead == 0
      modifies this`dictSize, this`from, hash, next
      ensures Valid() && dictSize == 0 && from == At()
    {
      HoldsLess(dict[..], seen, lookahead, dictSize, 0);
      forall i | 0 <= i < HASH_SIZE { hash[i] := 0; }
      forall i | 0 <= i < DICT_SIZE { next[i] := 0; }
      dictSize, from := 0, |seen|;
      NothingLinked(next[..], hash[..], seen, from);
    }

    /** Where a search stands. */
    ghost function Here(): Place
      reads this
      requires lookahead <= |seen|
    {
      Place(from, At(), lookahead, dictSize)
    }

    lemma HereInside()
      requires Valid()
      ensures Inside(seen, Here()) && dictSize <= At() && dictSize + lookahead <= DICT_SIZE
      ensures Chains() && dict.Length == RING_SIZE && pos == At() % TWO_32
    {
      hide Linked, Holds;
    }

    /** The link of a position on the chain is read from its place in the ring. */
    lemma LinkRead(probePos: nat, k: nat)
      requires Valid() && lookahead >= 3 && Inside(seen, Here())
      requires Reached(seen, Here(), k) >= 0 && probePos == Reached(seen, Here(), k) % DICT_SIZE
      ensures probePos < next.Length
      ensures var v := next[probePos];
              var dist := (At() - v) % 65536;
              Reached(seen, Here(), k + 1) == if v == 0 || dist == 0 || dist > dictSize then -1 else At() - dist
    {
      hide Latest, HashOf, Holds, Stamp, Reached;
      var q := Reached(seen, Here(), k);
      NextReached(seen, Here(), k);
      assert LinkedAt(next[..], seen, from, q);
    }

    /** The bytes that a probe compares. */
    lemma ProbeReads(probe: nat, dist: nat, matchLen: nat)
      requires Valid() && dist <= dictSize && probe == (At() - dist) % DICT_SIZE && 1 <= matchLen < lookahead
      ensures probe + matchLen < dict.Length && dist <= At()
      ensures dict[probe + matchLen] == seen[At() - dist + matchLen] && dict[probe + matchLen - 1] == seen[At() - dist + matchLen - 1]
    {
      hide Holds, Linked;
      ReadAt(dict[..], seen, lookahead, dictSize, At() - dist, matchLen);
      ReadAt(dict[..], seen, lookahead, dictSize, At() - dist, matchLen - 1);
    }

    /** A ring position is that of the `k`-th position on the chain. */
    ghost predicate OnChain(probe: nat, k: nat)
      reads this
      requires lookahead <= |seen| && Inside(seen, Here()) && lookahead >= 3
    {
      Reached(seen, Here(), k) >= 0 && probe == Reached(seen, Here(), k) % DICT_SIZE
    }

    /** One probe of the hash chain: give up at its end, hit, or go on. */
    method Probe(probePos: nat, matchLen: nat, c0: Byte, c1: Byte, ghost k: nat) returns (step: ProbeStep, dist: nat, probe: nat)
      requires Valid() && 3 <= lookahead && 1 <= matchLen < lookahead && Inside(seen, Here())
      requires OnChain(probePos, k)
      requires c0 == seen[At() + matchLen] && c1 == seen[At() + matchLen - 1]
      ensures step == GiveUp || dist == 0 ==> Reached(seen, Here(), k + 1) == -1 && step != Miss
      ensures step != GiveUp && dist != 0 ==> dist <= dictSize && OnChain(probe, k + 1) && Reached(seen, Here(), k + 1) == At() - dist
      ensures step != GiveUp && dist != 0 ==> (step == Hit <==> Agree(seen, At(), At() - dist, matchLen))
    {
      hide Holds, Entered, Reached;
      HereInside();
      LinkRead(probePos, k);
      var nextPos := next[probePos];
      dist := (pos - nextPos) % 65536;
      LowDistance(At(), pos, nextPos);
      if nextPos == 0 || dist > dictSize { return GiveUp, dist, probePos; }
      ChainDistance(At(), pos, nextPos, dist);
      probe := nextPos % DICT_SIZE;
      ProbeReads(probe, dist, matchLen);
      step := if dict[probe + matchLen] == c0 && dict[probe + matchLen - 1] == c1 then Hit else Miss;
    }

    /** Up to three probes, as long as no two bytes agree. */
    method Round(start: nat, matchLen: nat, c0: Byte, c1: Byte, ghost k0: nat, ghost done: nat, ghost rounds: nat, ghost len0: nat)
      returns (step: ProbeStep, dist: nat, probe: nat, ghost k: nat)
      requires Valid() && 3 <= lookahead && 1 <= len0 <= matchLen < lookahead
      requires Inside(seen, Here()) && OnChain(start, k0)
      requires c0 == seen[At() + matchLen] && c1 == seen[At() + matchLen - 1]
      requires Tried(seen, Here(), len0, matchLen, done, k0)
      ensures step == GiveUp || dist == 0 ==> Longest(seen, Here(), len0, rounds, matchLen)
      ensures step == Miss && dist != 0 ==> k == k0 + 3 && Tried(seen, Here(), len0, matchLen, done + 3, k)
      ensures step == Miss && dist != 0 ==> OnChain(probe, k)
      ensures step == Hit && dist != 0 ==> k < k0 + 3 && Tried(seen, Here(), len0, matchLen, done, k)
      ensures step == Hit && dist != 0 ==> dist <= dictSize && OnChain(probe, k + 1)
      ensures step == Hit && dist != 0 ==> Reached(seen, Here(), k + 1) == At() - dist && Agree(seen, At(), At() - dist, matchLen)
    {
      hide Holds, Entered, Tried, Longest, Reached, Agree, Before, OnChain;
      HereInside();
      k := k0;
      ghost var looked := done;
      step, dist, probe := Probe(start, matchLen, c0, c1, k);
      if step == Miss {
        TryMiss(seen, Here(), len0, matchLen, looked, k);
        looked, k := looked + 1, k + 1;
        step, dist, probe := Probe(probe, matchLen, c0, c1, k);
      }
      if step == Miss {
        TryMiss(seen, Here(), len0, matchLen, looked, k);
        looked, k := looked + 1, k + 1;
        step, dist, probe := Probe(probe, matchLen, c0, c1, k);
      }
      if step == GiveUp || dist == 0 {
        ChainOver(seen, Here(), len0, matchLen, looked, k, rounds);
      } else if step == Miss {
        TryMiss(seen, Here(), len0, matchLen, looked, k);
        k := k + 1;
      } else {
        FewerTried(seen, Here(), len0, matchLen, looked, done, k);
      }
    }

    /** Follows the chain until two bytes agree, three probes for every one counted. */
    method Chase(start: nat, matchLen: nat, c0: Byte, c1: Byte, probes: nat, ghost k0: nat, ghost rounds: nat, ghost len0: nat)
      returns (found: bool, dist: nat, probe: nat, left: nat, ghost k: nat)
      requires Valid() && 3 <= lookahead && 1 <= len0 <= matchLen < lookahead && 1 <= probes <= rounds + 1
      requires Inside(seen, Here()) && OnChain(start, k0)
      requires c0 == seen[At() + matchLen] && c1 == seen[At() + matchLen - 1]
      requires Tried(seen, Here(), len0, matchLen, 3 * (rounds + 1 - probes), k0) && k0 <= 3 * (rounds + 1 - probes)
      ensures !found || dist == 0 ==> Longest(seen, Here(), len0, rounds, matchLen)
      ensures found && dist != 0 ==> dist <= dictSize && OnChain(probe, k + 1) && 1 <= left < probes
      ensures found && dist != 0 ==> Reached(seen, Here(), k + 1) == At() - dist && Agree(seen, At(), At() - dist, matchLen)
      ensures found && dist != 0 ==> Tried(seen, Here(), len0, matchLen, 3 * (rounds - left), k) && k + 1 <= 3 * (rounds + 1 - left)
    {
      hide Holds, Entered, Tried, Longest, Reached, Agree, Before, OnChain;
      HereInside();
      left, probe, dist, k := probes, start, 0, k0;
      while true
        invariant 1 <= left <= probes && OnChain(probe, k)
        invariant Tried(seen, Here(), len0, matchLen, 3 * (rounds + 1 - left), k) && k <= 3 * (rounds + 1 - left)
        decreases left
      {
        left := left - 1;
        if left == 0 {
          RoundsOver(seen, Here(), len0, matchLen, k, rounds);
          return false, dist, probe, left, k;
        }
        var step;
        step, dist, probe, k := Round(probe, matchLen, c0, c1, k, 3 * (rounds - left), rounds, len0);
        if step == GiveUp { return false, dist, probe, left, k; }
        if step == Hit || dist == 0 { return true, dist, probe, left, k; }
      }
    }

    /** Compares the lookahead with what lies `dist` back. */
    method Compare(probe: nat, dist: nat) returns (len: nat)
      requires Valid() && 1 <= dist <= dictSize && probe == (At() - dist) % DICT_SIZE
      ensures len <= lookahead && Repeats(seen, At(), dist, len)
      ensures len < lookahead ==> Differs(seen, At(), dist, len)
    {
      hide Holds, Linked;
      HereInside();
      len := 0;
      RingPos(|seen|, lookahead);
      var at := pos % DICT_SIZE;
      assert at == At() % DICT_SIZE by { RingAt(At(), pos); }
      while len < lookahead
        invariant len <= lookahead && Repeats(seen, At(), dist, len)
      {
        ReadAt(dict[..], seen, lookahead, dictSize, At(), len);
        ReadAt(dict[..], seen, lookahead, dictSize, At() - dist, len);
        if dict[at + len] != dict[probe + len] { return; }
        len := len + 1;
      }
    }

    /** The bytes where a match of the length known so far would have to grow. */
    method GrowBytes(matchLen: nat) returns (c0: Byte, c1: Byte)
      requires Valid() && 1 <= matchLen < lookahead
      ensures c0 == seen[At() + matchLen] && c1 == seen[At() + matchLen - 1]
    {
      hide Holds, Linked;
      HereInside();
      RingAt(At(), pos);
      var at := pos % DICT_SIZE;
      ReadAt(dict[..], seen, lookahead, dictSize, At(), matchLen);
      ReadAt(dict[..], seen, lookahead, dictSize, At(), matchLen - 1);
      c0, c1 := dict[at + matchLen], dict[at + matchLen - 1];
    }

    /** What is known of the best match so far. */
    ghost predicate Best(rounds: nat, len0: nat, dist: nat, len: nat)
      reads this
      requires lookahead <= |seen| && Inside(seen, Here()) && lookahead >= 3
    {
      && (dist == 0 ==> len == len0)
      && (dist != 0 ==> dist <= dictSize && len0 < len <= lookahead && Repeats(seen, At(), dist, len)
                        && (len < lookahead ==> Differs(seen, At(), dist, len)) && exists k :: Nearest(seen, Here(), rounds, dist, len, k))
    }

    /** A candidate whose two bytes agree is compared, and is the best if it repeats further. */
    method Consider(probe: nat, dist: nat, bestDist: nat, bestLen: nat, ghost k: nat, ghost done: nat, ghost rounds: nat, ghost len0: nat)
      returns (matchDist: nat, matchLen: nat)
      requires Valid() && 3 <= lookahead && 1 <= len0 <= bestLen < lookahead && 1 <= dist <= dictSize
      requires Inside(seen, Here()) && OnChain(probe, k + 1) && Best(rounds, len0, bestDist, bestLen)
      requires Tried(seen, Here(), len0, bestLen, done, k) && k + 1 <= 3 * rounds
      requires Reached(seen, Here(), k + 1) == At() - dist && Agree(seen, At(), At() - dist, bestLen)
      ensures bestLen <= matchLen <= lookahead && Best(rounds, len0, matchDist, matchLen)
      ensures Tried(seen, Here(), len0, matchLen, done + 3, k + 1)
      ensures matchLen == bestLen ==> matchDist == bestDist
    {
      hide Holds, Linked, Tried, Longest, Nearest, Agree, Reached, Repeats, Differs;
      ghost var q := At() - dist;
      matchDist, matchLen := bestDist, bestLen;
      var probeLen := Compare(probe, dist);
      NoFurther(seen, Here(), q, dist, probeLen);
      if probeLen > matchLen {
        FoundNearest(seen, Here(), len0, matchLen, done, k, rounds, dist, probeLen);
        matchDist, matchLen := dist, probeLen;
      }
      TryHit(seen, Here(), len0, bestLen, done, k, q, matchLen);
    }

    lemma BestIs(rounds: nat, len0: nat, dist: nat, len: nat)
      requires Valid() && lookahead >= 3 && Inside(seen, Here()) && Best(rounds, len0, dist, len) && Longest(seen, Here(), len0, rounds, len)
      ensures Searched(seen, Here(), len0, rounds, dist, len)
    {
      hide Longest, Nearest, Linked, Holds, Repeats, Differs;
    }

    /** `tdefl_find_match`: the longest match among the positions that it looks at. */
    method FindMatch(maxProbes: seq<nat>, matchLen0: nat) returns (matchDist: nat, matchLen: nat)
      requires Valid() && 2 <= matchLen0 <= MAX_MATCH_LEN - 1
      requires |maxProbes| == 2 && maxProbes[0] >= 1 && maxProbes[1] >= 1
      ensures Searched(seen, Here(), matchLen0, maxProbes[if matchLen0 >= 32 then 1 else 0] - 1, matchDist, matchLen)
    {
      hide Holds, Entered, Tried, Longest, Agree, Reached, Best;
      HereInside();
      RingAt(At(), pos);
      var left := maxProbes[if matchLen0 >= 32 then 1 else 0];
      ghost var rounds, k: nat := left - 1, 0;
      matchDist, matchLen := 0, matchLen0;
      if lookahead <= matchLen { return; }
      var c0, c1 := GrowBytes(matchLen);
      var probe: nat := pos % DICT_SIZE;
      NothingBest(rounds, matchLen0);
      StartTrying(seen, Here(), matchLen0);
      while true
        invariant 1 <= left <= rounds + 1 && matchLen0 <= matchLen < lookahead && Best(rounds, matchLen0, matchDist, matchLen)
        invariant OnChain(probe, k)
        invariant c0 == seen[At() + matchLen] && c1 == seen[At() + matchLen - 1]
        invariant Tried(seen, Here(), matchLen0, matchLen, 3 * (rounds + 1 - left), k) && k <= 3 * (rounds + 1 - left)
        decreases left
      {
        var found, dist;
        found, dist, probe, left, k := Chase(probe, matchLen, c0, c1, left, k, rounds, matchLen0);
        if !found || dist == 0 {
          BestIs(rounds, matchLen0, matchDist, matchLen);
          return;
        }
        var before := matchLen;
        matchDist, matchLen := Consider(probe, dist, matchDist, matchLen, k, 3 * (rounds - left), rounds, matchLen0);
        if matchLen == lookahead {
          LookaheadOver(seen, Here(), matchLen0, rounds);
          BestIs(rounds, matchLen0, matchDist, matchLen);
          return;
        }
        if matchLen > before { c0, c1 := GrowBytes(matchLen); }
        k := k + 1;
      }
    }

    lemma NothingBest(rounds: nat, len0: nat)
      requires lookahead <= |seen| && Inside(seen, Here()) && lookahead >= 3
      ensures Best(rounds, len0, 0, len0)
    {
    }

    /** `TDEFL_RLE_MATCHES`: only repeats of the previous byte. */
    method FindRun() returns (matchDist: nat, matchLen: nat)
      requires Valid() && dictSize > 0
      ensures RunFound(seen, Here(), matchDist, matchLen)
    {
      hide Holds, Linked;
      HereInside();
      RingAt(At(), pos);
      var at := pos % DICT_SIZE;
      RingBack(At());
      ReadAt(dict[..], seen, lookahead, dictSize, At() - 1, 0);
      var c := dict[(at + DICT_SIZE - 1) % DICT_SIZE];
      matchLen, matchDist := 0, 0;
      while matchLen < lookahead
        invariant matchLen <= lookahead && Repeats(seen, At(), 1, matchLen)
        invariant c == seen[At() + matchLen - 1]
      {
        ReadAt(dict[..], seen, lookahead, dictSize, At(), matchLen);
        if dict[at + matchLen] != c {
          assert Differs(seen, At(), 1, matchLen);
          break;
        }
        matchLen := matchLen + 1;
      }
      if matchLen < 3 { matchLen := 0; } else { matchDist := 1; }
    }

    /** The byte at the head of the lookahead. */
    method Head() returns (c: Byte)
      requires Valid() && lookahead > 0
      ensures c == seen[At()]
    {
      hide Holds;
      RingAt(At(), pos);
      ReadAt(dict[..], seen, lookahead, dictSize, At(), 0);
      c := dict[pos % DICT_SIZE];
    }
  }

  /** The same low sixteen bits. */
  predicate SameLow(x: nat, p: nat) { x % 65536 == p % 65536 }

  lemma LowRing(x: nat, p: nat)
    requires SameLow(x, p)
    ensures x % DICT_SIZE == p % DICT_SIZE
  {
    var k := x / 65536 - p / 65536;
    assert x == p + DICT_SIZE * (2 * k);
    ModShift(p, 2 * k, x);
  }

  ghost predicate RollsOver(h: nat, seen: seq<Byte>) {
    |seen| >= 2 && Rolls(h, seen[|seen| - 2], seen[|seen| - 1])
  }

  lemma RollsFurther(h: nat, seen: seq<Byte>, c: Byte)
    requires RollsOver(h, seen)
    ensures Xor(h * 32, c) % HASH_SIZE == HashOf(seen + [c], |seen| - 2) && RollsOver(Xor(h * 32, c) % HASH_SIZE, seen + [c])
  {
    hide Xor, Rolls, Hash;
    RollsOn(h, seen[|seen| - 2], seen[|seen| - 1], c);
  }

  /** Where the next position is entered, from the 32-bit lookahead position. */
  lemma InsertAt(n: nat, l: nat, k: nat)
    requires l <= n && k <= n && k <= 3
    ensures SameLow(((n - l) % TWO_32 + l - k) % TWO_32, n - k)
  {
    var x := (n - l) % TWO_32 + l - k;
    var q := (n - l) / TWO_32;
    assert n - k == x + 65536 * (65536 * q);
    LowShift(x, 65536 * q, n - k);
    LowOf32(x);
  }

  lemma LowShift(x: int, m: int, y: int)
    requires y == x + 65536 * m
    ensures y % 65536 == x % 65536
  {
  }

  lemma LowOf32(x: int)
    ensures (x % TWO_32) % 65536 == x % 65536
  {
    var q := x / TWO_32;
    LowShift(x % TWO_32, 65536 * q, x);
  }

  lemma InsertNext(insPos: nat, p: nat)
    requires SameLow(insPos, p)
    ensures SameLow((insPos + 1) % TWO_32, p + 1)
  {
    LowOf32(insPos + 1);
  }

  lemma RingStep(x: nat)
    ensures (x % DICT_SIZE + 1) % DICT_SIZE == (x + 1) % DICT_SIZE
  {
  }

  datatype ProbeStep = GiveUp | Hit | Miss

  lemma RingAt(at: nat, pos: nat)
    requires pos == at % TWO_32
    ensures pos % DICT_SIZE == at % DICT_SIZE
  {
    RingPos(at, 0);
  }

  lemma RingBack(at: nat)
    requires at >= 1
    ensures (at % DICT_SIZE + DICT_SIZE - 1) % DICT_SIZE == (at - 1) % DICT_SIZE
  {
  }

  /** `(mz_uint16)(lookahead_pos - next)` is how far back the chained position lies. */
  lemma ChainDistance(at: nat, pos: nat, nextPos: nat, dist: nat)
    requires pos == at % TWO_32 && dist == (pos - nextPos) % 65536 && dist <= at
    ensures (at - dist) % DICT_SIZE == nextPos % DICT_SIZE
  {
    var q, k := at / TWO_32, (pos - nextPos) / 65536;
    assert at == pos + TWO_32 * q && pos - nextPos == 65536 * k + dist;
    var m := 131072 * q + 2 * k;
    assert at - dist == nextPos + DICT_SIZE * m;
    ModShift(nextPos, m, at - dist);
  }

  /** The 32-bit position tells the distance in sixteen bits. */
  lemma LowDistance(at: nat, pos: nat, nextPos: nat)
    requires pos == at % TWO_32
    ensures (pos - nextPos) % 65536 == (at - nextPos) % 65536
  {
    var q := at / TWO_32;
    LowShift(pos - nextPos, 65536 * q, at - nextPos);
  }

  lemma ModShift(x: nat, k: int, y: nat)
    requires y == x + DICT_SIZE * k
    ensures y % DICT_SIZE == x % DICT_SIZE
  {
  }

  function Least(a: int, b: int): int { if a <= b then a else b }

  lemma RingPos(n: nat, l: nat)
    requires l <= n
    ensures (((n - l) % TWO_32) + l) % DICT_SIZE == n % DICT_SIZE
  {
    var q := (n - l) / TWO_32;
    assert n == ((n - l) % TWO_32 + l) + DICT_SIZE * (131072 * q);
    ModPlus((n - l) % TWO_32 + l, 131072 * q);
  }

  lemma ModPlus(x: nat, k: nat)
    ensures (x + DICT_SIZE * k) % DICT_SIZE == x % DICT_SIZE
  {
  }

  lemma RingNext(at: nat, n: nat)
    requires at == n % DICT_SIZE
    ensures (at + 1) % DICT_SIZE == (n + 1) % DICT_SIZE
  {
  }

  lemma AddWraps(x: nat, n: nat)
    ensures (x % TWO_32 + n) % TWO_32 == (x + n) % TWO_32
  {
  }
}
