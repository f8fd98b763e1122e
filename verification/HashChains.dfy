/** The deflater's hash chains: positions of the input at which the same three bytes may begin, each
    linked to the one before it. */
module HashChains {
  import opened Bits

  const DICT_SIZE := 32768
  const HASH_SIZE := 32768

  /** Bitwise exclusive or. */
  function Xor(a: nat, b: nat): nat
    decreases a + b
  {
    if a == 0 then b else if b == 0 then a else
      2 * Xor(a / 2, b / 2) + (if a % 2 == b % 2 then 0 else 1)
  }

  function Hash(a: Byte, b: Byte, c: Byte): (h: nat)
    ensures h < HASH_SIZE
  {
    Xor(Xor(a as nat * 1024, b as nat * 32), c) % HASH_SIZE
  }

  /** The hash of the three bytes at a position. */
  function HashOf(seen: seq<Byte>, p: nat): (h: nat)
    requires p + 2 < |seen|
    ensures h < HASH_SIZE
  {
    Hash(seen[p], seen[p + 1], seen[p + 2])
  }

  lemma XorHalves(a: nat, b: nat)
    ensures Xor(a, b) / 2 == Xor(a / 2, b / 2) && Xor(a, b) % 2 == (if a % 2 == b % 2 then 0 else 1)
  {
    if a == 0 || b == 0 { assert Xor(0, b / 2) == b / 2; }
  }

  lemma XorZero(a: nat)
    ensures Xor(a, 0) == a && Xor(0, a) == a
  {
  }

  /** Low bits come from low bits. */
  lemma {:induction false} XorMod(a: nat, b: nat, k: nat)
    ensures Xor(a, b) % Pow2(k) == Xor(a % Pow2(k), b % Pow2(k))
  {
    if k == 0 {
      XorZero(0);
    } else {
      hide Xor;
      XorMod(a / 2, b / 2, k - 1);
      XorHalves(a, b);
      XorHalves(a % Pow2(k), b % Pow2(k));
      ModParts(a, k);
      ModParts(b, k);
      ModParts(Xor(a, b), k);
    }
  }

  lemma ModParts(n: nat, k: nat)
    requires k > 0
    ensures n % Pow2(k) / 2 == n / 2 % Pow2(k - 1) && n % Pow2(k) % 2 == n % 2
    ensures n % Pow2(k) == n % 2 + 2 * (n / 2 % Pow2(k - 1))
  {
    ModHalves(n, Pow2(k - 1));
  }

  lemma {:induction false} XorShift(a: nat, b: nat, k: nat)
    ensures Xor(a * Pow2(k), b * Pow2(k)) == Xor(a, b) * Pow2(k)
  {
    hide Xor;
    var p := Pow2(k);
    if k == 0 {
      assert a * p == a && b * p == b && Xor(a, b) * p == Xor(a, b);
    } else {
      XorShift(a, b, k - 1);
      Doubled(a, Pow2(k - 1));
      Doubled(b, Pow2(k - 1));
      Doubled(Xor(a, b), Pow2(k - 1));
      XorDouble(a * Pow2(k - 1), b * Pow2(k - 1));
    }
  }

  lemma Doubled(a: nat, p: nat)
    ensures a * (2 * p) == 2 * (a * p)
  {
  }

  lemma XorDouble(a: nat, b: nat)
    ensures Xor(2 * a, 2 * b) == 2 * Xor(a, b)
  {
    XorHalves(2 * a, 2 * b);
  }

  lemma Times32(n: nat)
    ensures (n * 32) % HASH_SIZE == 32 * (n % 1024)
  {
  }

  lemma HashPowers()
    ensures Pow2(5) == 32 && Pow2(10) == 1024 && Pow2(15) == HASH_SIZE
  {
    assert Pow2(5) == 32;
    assert Pow2(10) == 1024;
    assert Pow2(15) == 32768;
  }

  /** What a rolling hash has to know of the two bytes before the next. */
  ghost predicate Rolls(h: nat, a: Byte, b: Byte) {
    h % 1024 == Xor(a as nat * 32, b) % 1024
  }

  /** The rolling hash is the hash of the last three bytes, and rolls on. */
  lemma RollsOn(h: nat, a: Byte, b: Byte, c: Byte)
    requires Rolls(h, a, b)
    ensures Xor(h * 32, c) % HASH_SIZE == Hash(a, b, c) && Rolls(Hash(a, b, c), b, c)
  {
    hide Xor, Pow2;
    HashPowers();
    var low, pair: nat := Xor(a as nat * 32, b), Xor(a as nat * 1024, b as nat * 32);
    XorShift(a as nat * 32, b, 5);
    XorMod(h * 32, c, 15);
    XorMod(pair, c, 15);
    Times32(h);
    Times32(low);
    LowTen(a, b, c);
  }

  lemma LowTen(a: Byte, b: Byte, c: Byte)
    ensures Rolls(Hash(a, b, c), b, c)
  {
    hide Xor, Pow2;
    HashPowers();
    var x, y: nat := a as nat * 1024, b as nat * 32;
    XorMod(Xor(x, y), c, 10);
    XorMod(x, y, 10);
    XorMod(y, c, 10);
    XorZero(y % 1024);
    ModTen(Xor(Xor(x, y), c), a);
  }

  lemma ModTen(n: nat, a: Byte)
    ensures n % HASH_SIZE % 1024 == n % 1024 && (a as nat * 1024) % 1024 == 0
  {
  }

  /** The last position from `from` on and before `n` with a given hash; -1 if there is none. */
  ghost function Latest(seen: seq<Byte>, from: nat, n: nat, h: nat): (p: int)
    requires n <= from || n + 2 <= |seen|
    ensures p == -1 || (from <= p < n && p + 2 < |seen| && HashOf(seen, p) == h)
    ensures forall q :: from <= q < n && p < q ==> HashOf(seen, q) != h
  {
    if n <= from then -1 else if HashOf(seen, n - 1) == h then n - 1 else Latest(seen, from, n - 1, h)
  }

  /** How a position is stored: sixteen bits of it; 0 stands for none as well. */
  function Stamp(p: int): nat {
    if p < 0 then 0 else p % 65536
  }

  /** How many positions have been entered: all at which three bytes are known. */
  function Entered(from: nat, length: nat): (n: nat)
    ensures n <= from || n + 2 <= length
  {
    if length >= from + 2 then length - 2 else from
  }

  /** Each head is the last position with its hash, and each link in the ring leads to the last one before. */
  ghost predicate Linked(next: seq<nat>, hash: seq<nat>, seen: seq<Byte>, from: nat) {
    && |next| == DICT_SIZE && |hash| == HASH_SIZE
    && (forall h: nat :: h < HASH_SIZE ==> hash[h] == Stamp(Latest(seen, from, Entered(from, |seen|), h)))
    && (forall p: nat :: from <= p < Entered(from, |seen|) && Entered(from, |seen|) <= p + DICT_SIZE ==> LinkedAt(next, seen, from, p))
  }

  ghost predicate LinkedAt(next: seq<nat>, seen: seq<Byte>, from: nat, p: nat)
    requires |next| == DICT_SIZE && p + 2 < |seen|
  {
    next[p % DICT_SIZE] == Stamp(Latest(seen, from, p, HashOf(seen, p)))
  }

  lemma {:induction false} LatestSame(seen: seq<Byte>, more: seq<Byte>, from: nat, n: nat, h: nat)
    requires n <= from || n + 2 <= |seen|
    ensures Latest(seen + more, from, n, h) == Latest(seen, from, n, h)
  {
    if n > from { LatestSame(seen, more, from, n - 1, h); }
  }

  /** Nothing is linked yet. */
  lemma NothingLinked(next: seq<nat>, hash: seq<nat>, seen: seq<Byte>, from: nat)
    requires |next| == DICT_SIZE && |hash| == HASH_SIZE && |seen| <= from + 2
    requires forall h :: 0 <= h < HASH_SIZE ==> hash[h] == 0
    ensures Linked(next, hash, seen, from)
  {
  }

  /** Too few bytes to enter a position. */
  lemma StillNothing(next: seq<nat>, hash: seq<nat>, seen: seq<Byte>, from: nat, c: Byte)
    requires Linked(next, hash, seen, from) && |seen| < from + 2
    ensures Linked(next, hash, seen + [c], from)
  {
    forall h: nat | h < HASH_SIZE ensures hash[h] == 0 { assert hash[h] == Stamp(Latest(seen, from, Entered(from, |seen|), h)); }
  }

  /** One more byte: the position at which the last three bytes begin becomes the head of its chain and links
      to the old head. */
  lemma Enters(next: seq<nat>, hash: seq<nat>, seen: seq<Byte>, from: nat, c: Byte, at: nat, h: nat)
    requires Linked(next, hash, seen, from) && |seen| >= from + 2
    requires var p := |seen| - 2; at % DICT_SIZE == p % DICT_SIZE && at % 65536 == p % 65536 && h == HashOf(seen + [c], p)
    ensures Linked(next[at % DICT_SIZE := hash[h]], hash[h := at % 65536], seen + [c], from)
  {
    hide Latest, HashOf;
    var seen', p := seen + [c], |seen| - 2;
    var next', hash' := next[at % DICT_SIZE := hash[h]], hash[h := at % 65536];
    forall g: nat | g < HASH_SIZE ensures hash'[g] == Stamp(Latest(seen', from, p + 1, g)) {
      LatestSame(seen, [c], from, p, g);
      LatestNext(seen', from, p, g);
    }
    forall q: nat | from <= q < p + 1 && p + 1 <= q + DICT_SIZE ensures LinkedAt(next', seen', from, q) {
      if q < p { OldLink(next, hash, seen, from, c, q, at, h); } else { LatestSame(seen, [c], from, p, h); }
    }
  }

  lemma LatestNext(seen: seq<Byte>, from: nat, p: nat, h: nat)
    requires from <= p && p + 2 < |seen|
    ensures Latest(seen, from, p + 1, h) == if HashOf(seen, p) == h then p else Latest(seen, from, p, h)
  {
    hide HashOf;
  }

  /** The links entered before stay as they are. */
  lemma OldLink(next: seq<nat>, hash: seq<nat>, seen: seq<Byte>, from: nat, c: Byte, q: nat, at: nat, h: nat)
    requires Linked(next, hash, seen, from) && |seen| >= from + 2 && h < HASH_SIZE
    requires from <= q < |seen| - 2 && |seen| - 1 <= q + DICT_SIZE && at % DICT_SIZE == (|seen| - 2) % DICT_SIZE
    ensures LinkedAt(next[at % DICT_SIZE := hash[h]], seen + [c], from, q)
  {
    hide Latest, Hash;
    assert LinkedAt(next, seen, from, q);
    LatestSame(seen, [c], from, q, HashOf(seen, q));
    Elsewhere(q, |seen| - 2);
  }

  lemma Elsewhere(q: nat, p: nat)
    requires q < p < q + DICT_SIZE
    ensures q % DICT_SIZE != p % DICT_SIZE
  {
  }
}
