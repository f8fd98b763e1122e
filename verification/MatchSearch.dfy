/** What a search for earlier occurrences of the lookahead has to find. */
module MatchSearch {
  import opened Bits
  import opened HashChains

  /** `len` bytes at `at` repeat what lies `dist` back. */
  ghost predicate Repeats(seen: seq<Byte>, at: nat, dist: nat, len: nat) {
    1 <= dist <= at && at + len <= |seen| && forall i :: at <= i < at + len ==> seen[i] == seen[i - dist]
  }

  /** The same of what begins at `q`. */
  ghost predicate RepeatsFrom(seen: seq<Byte>, at: nat, q: int, len: nat) {
    0 <= q < at && Repeats(seen, at, at - q, len)
  }

  /** The input does not repeat beyond `len` bytes. */
  ghost predicate Differs(seen: seq<Byte>, at: nat, dist: nat, len: nat) {
    1 <= dist <= at && at + len < |seen| && seen[at + len] != seen[at + len - dist]
  }

  /** A search at position `at` with `look` bytes of lookahead and `size` bytes of history, of which none was
      forgotten since `from`. */
  datatype Place = Place(from: nat, at: nat, look: nat, size: nat)

  ghost predicate Inside(seen: seq<Byte>, w: Place) {
    w.from + w.size <= w.at && w.at + w.look <= |seen| && w.size + w.look <= DICT_SIZE
  }

  /** The position that the chain links a position to, as far as it can be told from sixteen bits; -1 at the end. */
  ghost function Before(seen: seq<Byte>, w: Place, q: nat): (p: int)
    requires Inside(seen, w) && w.look >= 3 && q <= w.at
    ensures p == -1 || w.at - w.size <= p < w.at
  {
    var v := Stamp(Latest(seen, w.from, q, HashOf(seen, q)));
    var dist := (w.at - v) % 65536;
    if v == 0 || dist == 0 || dist > w.size then -1 else w.at - dist
  }

  /** The position reached after `k` links. */
  ghost function Reached(seen: seq<Byte>, w: Place, k: nat): (p: int)
    requires Inside(seen, w) && w.look >= 3
    ensures p == -1 || w.at - w.size <= p <= w.at
    ensures k > 0 ==> p < w.at
  {
    if k == 0 then w.at
    else if Reached(seen, w, k - 1) < 0 then -1
    else Before(seen, w, Reached(seen, w, k - 1))
  }

  /** Two bytes in a row agree where a match could grow. */
  ghost predicate Agree(seen: seq<Byte>, at: nat, q: nat, m: nat)
    requires q <= at
  {
    1 <= m && at + m < |seen| && seen[q + m] == seen[at + m] && seen[q + m - 1] == seen[at + m - 1]
  }

  ghost predicate Close(seen: seq<Byte>, w: Place, q: nat, len: nat)
    requires q <= w.at
  {
    exists m :: len <= m < w.look && Agree(seen, w.at, q, m)
  }

  /** How many of the first `k` positions are close. */
  ghost function CloseOnes(seen: seq<Byte>, w: Place, len: nat, k: nat): (n: nat)
    requires Inside(seen, w) && w.look >= 3
    ensures n <= k
  {
    if k == 0 then 0
    else
      CloseOnes(seen, w, len, k - 1) + if Reached(seen, w, k) >= 0 && Close(seen, w, Reached(seen, w, k), len) then 1 else 0
  }

  /** The `k`-th position is looked at in any case: three are for each round, and only a close one ends a round early. */
  ghost predicate Looked(seen: seq<Byte>, w: Place, len: nat, rounds: nat, k: nat)
    requires Inside(seen, w) && w.look >= 3
  {
    k >= 1 && Reached(seen, w, k) >= 0 && k - 1 + 2 * CloseOnes(seen, w, len, k - 1) < 3 * rounds
  }

  /** The match reported is as long as it can be, and the nearest of its length on the chain. */
  ghost predicate Nearest(seen: seq<Byte>, w: Place, rounds: nat, dist: nat, len: nat, k: nat)
    requires Inside(seen, w) && w.look >= 3
  {
    && 1 <= k <= 3 * rounds && Reached(seen, w, k) == w.at - dist
    && forall j :: 1 <= j < k ==> !RepeatsFrom(seen, w.at, Reached(seen, w, j), len)
  }

  /** No position looked at repeats further. */
  ghost predicate Longest(seen: seq<Byte>, w: Place, len0: nat, rounds: nat, len: nat)
    requires Inside(seen, w) && w.look >= 3
  {
    forall k: nat, l: nat :: Looked(seen, w, len0, rounds, k) && l <= w.look && RepeatsFrom(seen, w.at, Reached(seen, w, k), l) ==> l <= len
  }

  /** What `tdefl_find_match` finds: nothing better than the length already known, or a longer match. */
  ghost predicate Searched(seen: seq<Byte>, w: Place, len0: nat, rounds: nat, dist: nat, len: nat) {
    && Inside(seen, w) && (dist == 0 ==> len == len0)
    && (dist != 0 ==> w.look >= 3 && dist <= w.size && len0 < len <= w.look && Repeats(seen, w.at, dist, len)
                      && (len < w.look ==> Differs(seen, w.at, dist, len)) && exists k :: Nearest(seen, w, rounds, dist, len, k))
    && (w.look >= 3 && w.look > len0 ==> Longest(seen, w, len0, rounds, len))
  }

  /** What the search for runs finds: how often the previous byte repeats, if at least three times. */
  ghost predicate RunFound(seen: seq<Byte>, w: Place, dist: nat, len: nat) {
    && Inside(seen, w) && len <= w.look && (dist == 0 <==> len == 0)
    && (dist != 0 ==> dist == 1 && len >= 3 && Repeats(seen, w.at, 1, len) && (len < w.look ==> Differs(seen, w.at, 1, len)))
    && (dist == 0 ==> w.look < 3 || !Repeats(seen, w.at, 1, 3))
  }

  /** The last earlier position with the same hash is the next one on the chain, if it lies in the history and its
      low sixteen bits are not all zero. */
  lemma BeforeIs(seen: seq<Byte>, w: Place, q: nat)
    requires Inside(seen, w) && w.look >= 3 && w.at - w.size <= q <= w.at
    ensures var p := Latest(seen, w.from, q, HashOf(seen, q));
            p >= w.at - w.size && p % 65536 != 0 ==> Before(seen, w, q) == p
  {
    hide Latest, HashOf;
    var p := Latest(seen, w.from, q, HashOf(seen, q));
    if p >= w.at - w.size && p % 65536 != 0 { DistanceIs(w.at, p); }
  }

  /** A link to a multiple of 65536 is no different from none: what begins there is never found. */
  lemma ChainBreaks(seen: seq<Byte>, w: Place, q: nat, p: nat)
    requires Inside(seen, w) && w.look >= 3 && q <= w.at && Latest(seen, w.from, q, HashOf(seen, q)) == p && p % 65536 == 0
    ensures Before(seen, w, q) == -1
  {
    hide Latest, HashOf;
  }

  /** So it is with the very first byte. */
  lemma FirstByteLost(seen: seq<Byte>, w: Place, q: nat)
    requires Inside(seen, w) && w.look >= 3 && 0 < q <= w.at && w.from == 0 && HashOf(seen, 0) == HashOf(seen, q)
    requires forall p :: 0 < p < q ==> HashOf(seen, p) != HashOf(seen, q)
    ensures Before(seen, w, q) == -1
  {
    hide HashOf, Before;
    LatestIs(seen, 0, q, HashOf(seen, q), 0);
    ChainBreaks(seen, w, q, 0);
  }

  lemma DistanceIs(at: nat, p: nat)
    requires p < at < p + 65536
    ensures (at - p % 65536) % 65536 == at - p
  {
  }

  /** How far a search has come: after `k` positions nothing repeats further than `len`, and so many looks are accounted for. */
  ghost predicate Tried(seen: seq<Byte>, w: Place, len0: nat, len: nat, done: nat, k: nat) {
    && Inside(seen, w) && w.look >= 3 && 1 <= len0 <= len <= w.look
    && (forall j :: 1 <= j <= k ==> Reached(seen, w, j) >= 0)
    && (forall j, l: nat :: 1 <= j <= k && l <= w.look && RepeatsFrom(seen, w.at, Reached(seen, w, j), l) ==> l <= len)
    && done <= k + 2 * CloseOnes(seen, w, len0, k)
  }

  lemma StartTrying(seen: seq<Byte>, w: Place, len0: nat)
    requires Inside(seen, w) && w.look >= 3 && 1 <= len0 <= w.look
    ensures Tried(seen, w, len0, len0, 0, 0) && Reached(seen, w, 0) == w.at
  {
  }

  lemma FewerTried(seen: seq<Byte>, w: Place, len0: nat, len: nat, done: nat, less: nat, k: nat)
    requires Tried(seen, w, len0, len, done, k) && less <= done
    ensures Tried(seen, w, len0, len, less, k)
  {
    hide Reached, CloseOnes, RepeatsFrom;
  }

  lemma NextReached(seen: seq<Byte>, w: Place, k: nat)
    requires Inside(seen, w) && w.look >= 3 && Reached(seen, w, k) >= 0
    ensures Reached(seen, w, k + 1) == Before(seen, w, Reached(seen, w, k))
  {
  }

  lemma StillRepeats(seen: seq<Byte>, at: nat, dist: nat, len: nat, l: nat)
    requires Repeats(seen, at, dist, l) && len < l
    ensures !Differs(seen, at, dist, len)
  {
    var i := at + len;
    assert seen[i] == seen[i - dist];
  }

  /** Where the repetition ends, it ends for every length. */
  lemma NoFurther(seen: seq<Byte>, w: Place, q: nat, dist: nat, len: nat)
    requires Inside(seen, w) && 1 <= dist <= w.at && q == w.at - dist && len <= w.look && (len < w.look ==> Differs(seen, w.at, dist, len))
    ensures forall l: nat :: l <= w.look && RepeatsFrom(seen, w.at, q, l) ==> l <= len
  {
    forall l: nat | l <= w.look && RepeatsFrom(seen, w.at, q, l) ensures l <= len {
      if l > len { StillRepeats(seen, w.at, dist, len, l); }
    }
  }

  /** What repeats further agrees there. */
  lemma RepeatAgrees(seen: seq<Byte>, at: nat, q: nat, len: nat, l: nat)
    requires q <= at && 1 <= len < l && RepeatsFrom(seen, at, q, l)
    ensures Agree(seen, at, q, len)
  {
    assert seen[at + len] == seen[at + len - (at - q)] && seen[at + len - 1] == seen[at + len - 1 - (at - q)];
  }

  lemma TryMiss(seen: seq<Byte>, w: Place, len0: nat, len: nat, done: nat, k: nat)
    requires Tried(seen, w, len0, len, done, k) && len < w.look
    requires Reached(seen, w, k + 1) >= 0 && !Agree(seen, w.at, Reached(seen, w, k + 1), len)
    ensures Tried(seen, w, len0, len, done + 1, k + 1)
  {
    hide Agree, RepeatsFrom, Close, Inside;
    forall j, l: nat | 1 <= j <= k + 1 && l <= w.look && RepeatsFrom(seen, w.at, Reached(seen, w, j), l) ensures l <= len {
      if j == k + 1 { MissNext(seen, w, len, k, l); }
    }
  }

  lemma MissNext(seen: seq<Byte>, w: Place, len: nat, k: nat, l: nat)
    requires Inside(seen, w) && 3 <= w.look && 1 <= len < w.look
    requires Reached(seen, w, k + 1) >= 0 && !Agree(seen, w.at, Reached(seen, w, k + 1), len)
    requires RepeatsFrom(seen, w.at, Reached(seen, w, k + 1), l)
    ensures l <= len
  {
    if l > len { RepeatAgrees(seen, w.at, Reached(seen, w, k + 1), len, l); }
  }

  lemma TryHit(seen: seq<Byte>, w: Place, len0: nat, len: nat, done: nat, k: nat, q: nat, len': nat)
    requires Tried(seen, w, len0, len, done, k) && len < w.look && len <= len' <= w.look
    requires q == Reached(seen, w, k + 1) && q <= w.at && Agree(seen, w.at, q, len)
    requires forall l: nat :: l <= w.look && RepeatsFrom(seen, w.at, q, l) ==> l <= len'
    ensures Tried(seen, w, len0, len', done + 3, k + 1)
  {
    hide Agree, RepeatsFrom;
    assert Close(seen, w, q, len0);
  }

  lemma {:induction false} CloseGrows(seen: seq<Byte>, w: Place, len: nat, j: nat, k: nat)
    requires Inside(seen, w) && w.look >= 3 && j <= k
    ensures CloseOnes(seen, w, len, j) <= CloseOnes(seen, w, len, k)
  {
    hide Close, Reached;
    if j < k { CloseGrows(seen, w, len, j, k - 1); }
  }

  /** All rounds are used up. */
  lemma RoundsOver(seen: seq<Byte>, w: Place, len0: nat, len: nat, k: nat, rounds: nat)
    requires Tried(seen, w, len0, len, 3 * rounds, k)
    ensures Longest(seen, w, len0, rounds, len)
  {
    hide Reached, CloseOnes, RepeatsFrom;
    forall m: nat, l: nat | Looked(seen, w, len0, rounds, m) && l <= w.look && RepeatsFrom(seen, w.at, Reached(seen, w, m), l) ensures l <= len {
      if m > k { CloseGrows(seen, w, len0, k, m - 1); }
    }
  }

  lemma {:induction false} EndStays(seen: seq<Byte>, w: Place, j: nat, k: nat)
    requires Inside(seen, w) && w.look >= 3 && j <= k && Reached(seen, w, j) == -1
    ensures Reached(seen, w, k) == -1
  {
    hide Before;
    if j < k { EndStays(seen, w, j, k - 1); }
  }

  /** The chain has ended. */
  lemma ChainOver(seen: seq<Byte>, w: Place, len0: nat, len: nat, done: nat, k: nat, rounds: nat)
    requires Tried(seen, w, len0, len, done, k) && Reached(seen, w, k + 1) == -1
    ensures Longest(seen, w, len0, rounds, len)
  {
    hide Reached, CloseOnes, RepeatsFrom;
    forall m: nat, l: nat | Looked(seen, w, len0, rounds, m) && l <= w.look && RepeatsFrom(seen, w.at, Reached(seen, w, m), l) ensures l <= len {
      if m > k { EndStays(seen, w, k + 1, m); }
    }
  }

  /** The whole lookahead repeats. */
  lemma LookaheadOver(seen: seq<Byte>, w: Place, len0: nat, rounds: nat)
    requires Inside(seen, w) && w.look >= 3
    ensures Longest(seen, w, len0, rounds, w.look)
  {
  }

  /** A longer match than all before is the nearest of its length. */
  lemma FoundNearest(seen: seq<Byte>, w: Place, len0: nat, len: nat, done: nat, k: nat, rounds: nat, dist: nat, len': nat)
    requires Tried(seen, w, len0, len, done, k) && len < len' <= w.look && k + 1 <= 3 * rounds
    requires Reached(seen, w, k + 1) == w.at - dist
    ensures Nearest(seen, w, rounds, dist, len', k + 1)
  {
    hide Reached, CloseOnes, RepeatsFrom;
  }

  /** How many positions from `lo` on and before `hi` have a given hash. */
  ghost function SameHash(seen: seq<Byte>, h: nat, lo: nat, hi: nat): (n: nat)
    requires hi + 2 <= |seen|
    decreases hi
  {
    if hi <= lo then 0 else SameHash(seen, h, lo, hi - 1) + if HashOf(seen, hi - 1) == h then 1 else 0
  }

  lemma {:induction false} NoneSame(seen: seq<Byte>, h: nat, lo: nat, hi: nat)
    requires hi + 2 <= |seen| && SameHash(seen, h, lo, hi) == 0
    ensures forall q :: lo <= q < hi ==> HashOf(seen, q) != h
    decreases hi
  {
    hide HashOf;
    if lo < hi { NoneSame(seen, h, lo, hi - 1); }
  }

  /** The first of several positions with a hash. */
  lemma {:induction false} FirstSame(seen: seq<Byte>, h: nat, lo: nat, hi: nat) returns (q: nat)
    requires hi + 2 <= |seen| && SameHash(seen, h, lo, hi) > 0
    ensures lo <= q < hi && HashOf(seen, q) == h && SameHash(seen, h, q + 1, hi) == SameHash(seen, h, lo, hi) - 1
    ensures forall p :: lo <= p < q ==> HashOf(seen, p) != h
    decreases hi
  {
    hide HashOf;
    if SameHash(seen, h, lo, hi - 1) > 0 {
      q := FirstSame(seen, h, lo, hi - 1);
    } else {
      q := hi - 1;
      NoneSame(seen, h, lo, hi - 1);
    }
  }

  lemma LatestIs(seen: seq<Byte>, from: nat, n: nat, h: nat, p: nat)
    requires n + 2 <= |seen| && from <= p < n && HashOf(seen, p) == h && forall q :: p < q < n ==> HashOf(seen, q) != h
    ensures Latest(seen, from, n, h) == p
  {
    hide HashOf;
  }

  /** With `k` others of its hash in between, a position in the history is the next but `k` on the chain; those that are
      multiples of 65536 break it off. */
  lemma {:induction false} OnTheChain(seen: seq<Byte>, w: Place, p: nat, k: nat)
    requires Inside(seen, w) && w.look >= 3 && w.at - w.size <= p < w.at && HashOf(seen, p) == HashOf(seen, w.at)
    requires SameHash(seen, HashOf(seen, w.at), p + 1, w.at) == k
    requires forall q :: p <= q < w.at && HashOf(seen, q) == HashOf(seen, w.at) ==> q % 65536 != 0
    ensures Reached(seen, w, k + 1) == p
    decreases k
  {
    hide HashOf, Before;
    var h := HashOf(seen, w.at);
    if k == 0 {
      NoneSame(seen, h, p + 1, w.at);
      LatestIs(seen, w.from, w.at, h, p);
      BeforeIs(seen, w, w.at);
      assert Reached(seen, w, 0) == w.at;
    } else {
      var q := FirstSame(seen, h, p + 1, w.at);
      OnTheChain(seen, w, q, k - 1);
      LatestIs(seen, w.from, q, h, p);
      BeforeIs(seen, w, q);
    }
  }

  /** Every repeat of the lookahead is found, or a longer one, unless as many other positions with its hash as there are
      rounds lie in between, or one of them is a multiple of 65536. */
  lemma RepeatIsFound(seen: seq<Byte>, w: Place, len0: nat, rounds: nat, dist: nat, len: nat, d: nat, l: nat)
    requires Searched(seen, w, len0, rounds, dist, len) && 2 <= len0 < l <= w.look && 1 <= d <= w.size && Repeats(seen, w.at, d, l)
    requires SameHash(seen, HashOf(seen, w.at), w.at - d + 1, w.at) < rounds
    requires forall q :: w.at - d <= q < w.at && HashOf(seen, q) == HashOf(seen, w.at) ==> q % 65536 != 0
    ensures dist != 0 && len >= l
  {
    hide Reached, Repeats, Differs, Nearest, CloseOnes;
    var p := w.at - d;
    SameBytes(seen, w.at, d, l);
    var k := SameHash(seen, HashOf(seen, w.at), p + 1, w.at);
    OnTheChain(seen, w, p, k);
    assert RepeatsFrom(seen, w.at, Reached(seen, w, k + 1), l);
    assert Looked(seen, w, len0, rounds, k + 1);
  }

  lemma SameBytes(seen: seq<Byte>, at: nat, d: nat, l: nat)
    requires Repeats(seen, at, d, l) && l >= 3
    ensures HashOf(seen, at - d) == HashOf(seen, at)
  {
    hide Hash;
    assert seen[at] == seen[at - d] && seen[at + 1] == seen[at + 1 - d] && seen[at + 2] == seen[at + 2 - d];
  }
}
