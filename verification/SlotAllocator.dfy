/** Executable memory in slots of 64 bytes near a given address: blocks of a page whose free slots
    form a list kept in the slots themselves. */
module SlotAllocator {
  import opened FreeRegion

  const BLOCK_SIZE: nat := 0x1000
  const SLOT_SIZE: nat := 64
  const SLOTS: nat := 63
  const REACH: nat := 0x4000_0000

  /** The words of a block header: the next block, the first free slot, the count of used slots. */
  const FREE_AT: nat := 8
  const USED_AT: nat := 16

  /** Memory as words by address; a free slot's first word is the next free slot. */
  type Memory = map<nat, nat>

  function Word(m: Memory, a: nat): nat { if a in m then m[a] else 0 }

  /** `s` is what is reached from `at` by following first words down to 0. */
  ghost predicate Chain(m: Memory, at: nat, s: seq<nat>)
    decreases |s|
  {
    if s == [] then at == 0 else at == s[0] != 0 && Chain(m, Word(m, at), s[1..])
  }

  ghost predicate Distinct(s: seq<nat>) {
    forall i, j :: 0 <= i < j < |s| ==> s[i] != s[j]
  }

  /** The block an address lies in. */
  function Page(a: nat): nat { (a / BLOCK_SIZE) * BLOCK_SIZE }

  predicate SlotOf(b: nat, x: nat) {
    b < x < b + BLOCK_SIZE && (x - b) % SLOT_SIZE == 0
  }

  ghost predicate BlockOk(m: Memory, b: nat, free: seq<nat>) {
    && b > 0 && b % BLOCK_SIZE == 0
    && Chain(m, Word(m, b + FREE_AT), free) && Distinct(free)
    && (forall x :: x in free ==> SlotOf(b, x))
    && Word(m, b + USED_AT) + |free| == SLOTS
  }

  /** The header of a block: its free list begins in the second word, and the third counts its used slots. */
  lemma HeaderIs(m: Memory, b: nat, free: seq<nat>)
    requires BlockOk(m, b, free)
    ensures b % 4096 == 0 && Chain(m, Word(m, b + 8), free) && Word(m, b + 16) + |free| == 63
    ensures forall x :: x in free ==> b < x < b + 4096 && (x - b) % 64 == 0
  {
    hide Chain;
  }

  /** The list of blocks in order and the free slots of each. */
  ghost predicate Shape(m: Memory, head: nat, blocks: seq<nat>, free: map<nat, seq<nat>>) {
    && Chain(m, head, blocks) && Distinct(blocks)
    && forall b :: b in blocks ==> b in free && BlockOk(m, b, free[b])
  }

  /** A slot that has been handed out and not been given back. */
  ghost predicate InUse(blocks: seq<nat>, free: map<nat, seq<nat>>, x: nat) {
    var b := Page(x);
    b in blocks && b in free && SlotOf(b, x) && x !in free[b]
  }

  /** The words of all slots in use are the same. */
  ghost predicate SlotsKept(blocks: seq<nat>, free: map<nat, seq<nat>>, m: Memory, m': Memory) {
    forall x: nat, a: nat :: InUse(blocks, free, x) && x <= a < x + SLOT_SIZE ==> Word(m', a) == Word(m, a)
  }

  lemma PageOfSlot(b: nat, x: nat)
    requires b % BLOCK_SIZE == 0 && b <= x < b + BLOCK_SIZE
    ensures Page(x) == b
  {
  }

  /** Every word outside the block at `b` is the same. */
  ghost predicate Outside(m: Memory, m': Memory, b: nat) {
    forall a: nat :: a < b || b + BLOCK_SIZE <= a ==> Word(m', a) == Word(m, a)
  }

  lemma {:induction false} ChainFrame(m: Memory, m': Memory, at: nat, s: seq<nat>)
    requires Chain(m, at, s) && forall x :: x in s ==> Word(m', x) == Word(m, x)
    ensures Chain(m', at, s)
    decreases |s|
  {
    if s != [] {
      assert s[0] in s && forall x :: x in s[1..] ==> x in s;
      ChainFrame(m, m', Word(m, at), s[1..]);
    }
  }

  /** A block does not notice what changes elsewhere, nor the link to the next block. */
  lemma BlockFrame(m: Memory, m': Memory, b: nat, free: seq<nat>)
    requires BlockOk(m, b, free)
    requires forall a: nat :: b < a < b + BLOCK_SIZE ==> Word(m', a) == Word(m, a)
    ensures BlockOk(m', b, free)
  {
    ChainFrame(m, m', Word(m, b + FREE_AT), free);
  }

  lemma Apart(b: nat, c: nat)
    requires b % BLOCK_SIZE == 0 && c % BLOCK_SIZE == 0 && b != c
    ensures b + BLOCK_SIZE <= c || c + BLOCK_SIZE <= b
  {
  }

  /** Changing one block, its link aside, keeps the others. */
  lemma OthersKept(m: Memory, m': Memory, head: nat, blocks: seq<nat>, free: map<nat, seq<nat>>, b: nat, now: seq<nat>)
    requires Shape(m, head, blocks, free) && b in blocks
    requires Outside(m, m', b) && Word(m', b) == Word(m, b) && BlockOk(m', b, now)
    ensures Shape(m', head, blocks, free[b := now])
  {
    hide Chain, SlotOf;
    ChainHeaders(m, m', head, blocks, free, b);
    forall c | c in blocks && c != b ensures BlockOk(m', c, free[c]) {
      assert BlockOk(m, c, free[c]) && BlockOk(m, b, free[b]);
      Apart(b, c);
      BlockFrame(m, m', c, free[c]);
    }
  }

  lemma ChainHeaders(m: Memory, m': Memory, head: nat, blocks: seq<nat>, free: map<nat, seq<nat>>, b: nat)
    requires Shape(m, head, blocks, free) && b in blocks
    requires Outside(m, m', b) && Word(m', b) == Word(m, b)
    ensures Chain(m', head, blocks)
  {
    hide Chain;
    forall c | c in blocks ensures Word(m', c) == Word(m, c) {
      assert BlockOk(m, c, free[c]) && BlockOk(m, b, free[b]);
      if c != b { Apart(b, c); }
    }
    ChainFrame(m, m', head, blocks);
  }

  /** Slots in use in other blocks lie outside; those in the block are neither its header nor free. */
  lemma SlotElsewhere(m: Memory, head: nat, blocks: seq<nat>, free: map<nat, seq<nat>>, b: nat, x: nat)
    requires Shape(m, head, blocks, free) && b in blocks && InUse(blocks, free, x)
    ensures SlotOf(Page(x), x)
    ensures Page(x) != b ==> x + SLOT_SIZE <= b || b + BLOCK_SIZE <= x
    ensures Page(x) == b ==> b + SLOT_SIZE <= x && x + SLOT_SIZE <= b + BLOCK_SIZE && x !in free[b]
  {
    hide Chain;
    assert BlockOk(m, b, free[b]) && BlockOk(m, Page(x), free[Page(x)]);
    if Page(x) != b { Apart(b, Page(x)); }
    InPage(Page(x), x);
  }

  lemma InPage(b: nat, x: nat)
    requires SlotOf(b, x)
    ensures b + SLOT_SIZE <= x && x + SLOT_SIZE <= b + BLOCK_SIZE
  {
  }

  lemma SlotsOfOneBlock(b: nat, x: nat, y: nat)
    requires SlotOf(b, x) && SlotOf(b, y) && x < y
    ensures x + SLOT_SIZE <= y
  {
  }

  /** Taking the first free slot of a block. */
  function Take(m: Memory, b: nat): Memory {
    m[b + FREE_AT := Word(m, Word(m, b + FREE_AT))][b + USED_AT := Word(m, b + USED_AT) + 1]
  }

  lemma TakeBlock(m: Memory, b: nat, free: seq<nat>)
    requires BlockOk(m, b, free) && free != []
    ensures Word(m, b + FREE_AT) == free[0] && BlockOk(Take(m, b), b, free[1..])
    ensures Outside(m, Take(m, b), b) && Word(Take(m, b), b) == Word(m, b)
  {
    hide SlotOf;
    var m' := Take(m, b);
    forall x | x in free ensures Word(m', x) == Word(m, x) { InPage(b, x); }
    assert free[0] in free && forall x :: x in free[1..] ==> x in free;
    ChainFrame(m, m', Word(m, free[0]), free[1..]);
    assert |free| <= SLOTS;
  }

  lemma TakeShape(m: Memory, head: nat, blocks: seq<nat>, free: map<nat, seq<nat>>, b: nat)
    requires Shape(m, head, blocks, free) && b in blocks && free[b] != []
    ensures Shape(Take(m, b), head, blocks, free[b := free[b][1..]])
    ensures SlotsKept(blocks, free, m, Take(m, b))
  {
    hide Chain, SlotOf, BlockOk, InUse;
    TakeBlock(m, b, free[b]);
    OthersKept(m, Take(m, b), head, blocks, free, b, free[b][1..]);
    forall x: nat, a: nat | InUse(blocks, free, x) && x <= a < x + SLOT_SIZE ensures Word(Take(m, b), a) == Word(m, a) {
      SlotElsewhere(m, head, blocks, free, b, x);
    }
  }

  /** Exactly the slot taken is new in use. */
  lemma TakeUse(m: Memory, head: nat, blocks: seq<nat>, free: map<nat, seq<nat>>, b: nat, y: nat)
    requires Shape(m, head, blocks, free) && b in blocks && free[b] != []
    ensures InUse(blocks, free[b := free[b][1..]], y) <==> InUse(blocks, free, y) || y == free[b][0]
    ensures !InUse(blocks, free, free[b][0])
  {
    hide Chain, SlotOf;
    var x := free[b][0];
    assert BlockOk(m, b, free[b]) && x in free[b];
    InPage(b, x);
    PageOfSlot(b, x);
    assert x !in free[b][1..];
    assert free[b] == [x] + free[b][1..];
  }

  /** Giving a slot back to its block. */
  function Give(m: Memory, b: nat, x: nat): Memory {
    m[x := Word(m, b + FREE_AT)][b + FREE_AT := x][b + USED_AT := if Word(m, b + USED_AT) > 0 then Word(m, b + USED_AT) - 1 else 0]
  }

  /** The first `n` slots of a block. */
  ghost function Slots(b: nat, n: nat): (r: set<nat>)
    ensures |r| == n
    ensures forall x :: x in r ==> b < x <= b + SLOT_SIZE * n
  {
    if n == 0 then {} else Slots(b, n - 1) + {b + SLOT_SIZE * n}
  }

  lemma {:induction false} InSlots(b: nat, n: nat, x: nat)
    requires b < x < b + SLOT_SIZE * (n + 1) && (x - b) % SLOT_SIZE == 0
    ensures x in Slots(b, n)
  {
    if x != b + SLOT_SIZE * n {
      Below(x - b, n);
      InSlots(b, n - 1, x);
    }
  }

  lemma Below(y: nat, n: nat)
    requires 0 < y < SLOT_SIZE * (n + 1) && y % SLOT_SIZE == 0 && y != SLOT_SIZE * n
    ensures n > 0 && y < SLOT_SIZE * n
  {
    var q := y / SLOT_SIZE;
    assert y == SLOT_SIZE * q;
  }

  ghost function SetOf(s: seq<nat>): set<nat> {
    set x | x in s
  }

  lemma {:induction false} SizeOf(s: seq<nat>)
    requires Distinct(s)
    ensures |SetOf(s)| == |s|
    decreases |s|
  {
    if s == [] {
      assert SetOf(s) == {};
    } else {
      var last, front := s[|s| - 1], s[..|s| - 1];
      SizeOf(front);
      assert s == front + [last];
      assert SetOf(s) == SetOf(front) + {last} && last !in front;
    }
  }

  lemma SlotsHold(b: nat, s: seq<nat>)
    requires Distinct(s) && forall x :: x in s ==> SlotOf(b, x)
    ensures SetOf(s) <= Slots(b, SLOTS)
    ensures |s| <= SLOTS
    ensures |Slots(b, SLOTS) - SetOf(s)| == SLOTS - |s|
  {
    forall x | x in SetOf(s) ensures x in Slots(b, SLOTS) { InSlots(b, SLOTS, x); }
    SizeOf(s);
    Fewer(SetOf(s), Slots(b, SLOTS));
  }

  lemma Fewer(s: set<nat>, all: set<nat>)
    requires s <= all
    ensures |s| <= |all| && |all - s| == |all| - |s|
  {
    assert all == s + (all - s);
  }

  /** The count in a block's header is the number of its slots in use. */
  lemma UsedCounts(m: Memory, b: nat, free: seq<nat>)
    requires BlockOk(m, b, free)
    ensures Word(m, b + USED_AT) == |Slots(b, SLOTS) - SetOf(free)|
  {
    hide Chain, Slots;
    SlotsHold(b, free);
  }

  lemma GiveWords(m: Memory, b: nat, x: nat)
    requires SlotOf(b, x)
    ensures Word(Give(m, b, x), x) == Word(m, b + FREE_AT) && Word(Give(m, b, x), b + FREE_AT) == x
    ensures Word(m, b + USED_AT) > 0 ==> Word(Give(m, b, x), b + USED_AT) == Word(m, b + USED_AT) - 1
    ensures forall a: nat :: a != x && a != b + FREE_AT && a != b + USED_AT ==> Word(Give(m, b, x), a) == Word(m, a)
  {
    InPage(b, x);
  }

  lemma GiveBlock(m: Memory, b: nat, free: seq<nat>, x: nat)
    requires BlockOk(m, b, free) && SlotOf(b, x) && x !in free
    ensures Word(m, b + USED_AT) > 0
    ensures BlockOk(Give(m, b, x), b, [x] + free)
    ensures Outside(m, Give(m, b, x), b) && Word(Give(m, b, x), b) == Word(m, b)
  {
    hide SlotOf, Give, Word;
    var now, m' := [x] + free, Give(m, b, x);
    SlotsHold(b, now);
    GiveWords(m, b, x);
    forall y | y in now ensures SlotOf(b, y) && b + SLOT_SIZE <= y { InPage(b, y); }
    InPage(b, x);
    ChainFrame(m, m', Word(m, b + FREE_AT), free);
    assert now[1..] == free;
  }

  lemma GiveShape(m: Memory, head: nat, blocks: seq<nat>, free: map<nat, seq<nat>>, b: nat, x: nat)
    requires Shape(m, head, blocks, free) && b in blocks && SlotOf(b, x) && x !in free[b]
    ensures Shape(Give(m, b, x), head, blocks, free[b := [x] + free[b]])
    ensures SlotsKept(blocks, free[b := [x] + free[b]], m, Give(m, b, x))
  {
    hide Chain, SlotOf, BlockOk, InUse;
    GiveBlock(m, b, free[b], x);
    var now := free[b := [x] + free[b]];
    OthersKept(m, Give(m, b, x), head, blocks, free, b, [x] + free[b]);
    forall y: nat, a: nat | InUse(blocks, now, y) && y <= a < y + SLOT_SIZE ensures Word(Give(m, b, x), a) == Word(m, a) {
      SlotElsewhere(Give(m, b, x), head, blocks, now, b, y);
      GiveSlotApart(blocks, now, b, x, y, a);
    }
  }

  lemma GiveSlotApart(blocks: seq<nat>, now: map<nat, seq<nat>>, b: nat, x: nat, y: nat, a: nat)
    requires InUse(blocks, now, y) && y <= a < y + SLOT_SIZE && b in now && x in now[b] && SlotOf(b, x)
    requires Page(y) != b ==> y + SLOT_SIZE <= b || b + BLOCK_SIZE <= y
    ensures a != x
  {
    InPage(b, x);
    if Page(y) == b {
      if x < y { SlotsOfOneBlock(b, x, y); } else if y < x { SlotsOfOneBlock(b, y, x); }
    }
  }

  /** Exactly the slot given back is no longer in use. */
  lemma GiveUse(m: Memory, head: nat, blocks: seq<nat>, free: map<nat, seq<nat>>, b: nat, x: nat, y: nat)
    requires Shape(m, head, blocks, free) && b in blocks && SlotOf(b, x)
    ensures InUse(blocks, free[b := [x] + free[b]], y) <==> InUse(blocks, free, y) && y != x
  {
    hide Chain, SlotOf;
    assert BlockOk(m, b, free[b]);
    InPage(b, x);
    PageOfSlot(b, x);
  }

  /** Taking block number `i` out of the list. */
  function Unlinked(m: Memory, blocks: seq<nat>, i: nat): Memory
    requires i < |blocks|
  {
    if i == 0 then m else m[blocks[i - 1] := Word(m, blocks[i])]
  }

  function Without(blocks: seq<nat>, i: nat): (r: seq<nat>)
    requires i < |blocks|
  {
    blocks[..i] + blocks[i + 1..]
  }

  lemma {:induction false} ChainAt(m: Memory, at: nat, s: seq<nat>, i: nat)
    requires Chain(m, at, s) && i <= |s|
    ensures Chain(m, if i == 0 then at else Word(m, s[i - 1]), s[i..])
    ensures i < |s| ==> s[i] != 0 && s[i] == if i == 0 then at else Word(m, s[i - 1])
    decreases i
  {
    if i > 0 {
      ChainAt(m, at, s, i - 1);
      assert s[i - 1..][1..] == s[i..];
    }
    if i < |s| { assert s[i..][0] == s[i]; }
  }

  lemma {:induction false} ChainJoin(m: Memory, at: nat, s: seq<nat>, t: seq<nat>, next: nat)
    requires Chain(m, next, t) && s != [] && Word(m, s[|s| - 1]) == next
    requires at == s[0] && 0 !in s && forall i :: 0 < i < |s| ==> s[i] == Word(m, s[i - 1])
    ensures Chain(m, at, s + t)
    decreases |s|
  {
    if |s| == 1 {
      assert (s + t)[1..] == t;
    } else {
      assert (s + t)[1..] == s[1..] + t;
      ChainJoin(m, s[1], s[1..], t, next);
    }
  }

  lemma UnlinkChain(m: Memory, head: nat, blocks: seq<nat>, i: nat)
    requires Chain(m, head, blocks) && Distinct(blocks) && i < |blocks|
    ensures Chain(Unlinked(m, blocks, i), if i == 0 then Word(m, blocks[0]) else head, Without(blocks, i))
  {
    hide Chain;
    var m', next, rest := Unlinked(m, blocks, i), Word(m, blocks[i]), blocks[i + 1..];
    ChainAt(m, head, blocks, i + 1);
    forall x | x in rest ensures Word(m', x) == Word(m, x) { }
    ChainFrame(m, m', next, rest);
    if i == 0 {
      assert Without(blocks, i) == rest;
    } else {
      forall j: nat | j < i ensures blocks[j] != 0 && blocks[j] == if j == 0 then head else Word(m, blocks[j - 1]) {
        ChainAt(m, head, blocks, j);
      }
      ChainAt(m, head, blocks, 0);
      assert blocks[..i][0] == blocks[0] == head;
      ChainJoin(m', head, blocks[..i], rest, next);
    }
  }

  lemma UnlinkShape(m: Memory, head: nat, blocks: seq<nat>, free: map<nat, seq<nat>>, i: nat)
    requires Shape(m, head, blocks, free) && i < |blocks|
    ensures Shape(Unlinked(m, blocks, i), if i == 0 then Word(m, blocks[0]) else head, Without(blocks, i), free)
    ensures SlotsKept(blocks, free, m, Unlinked(m, blocks, i))
  {
    hide Chain, SlotOf, InUse;
    var m', now := Unlinked(m, blocks, i), Without(blocks, i);
    UnlinkChain(m, head, blocks, i);
    forall b | b in now ensures b in blocks && BlockOk(m', b, free[b]) {
      if i > 0 { LinkOnly(m, head, blocks, free, b, blocks[i - 1]); }
      BlockFrame(m, m', b, free[b]);
    }
    forall x: nat, a: nat | InUse(blocks, free, x) && x <= a < x + SLOT_SIZE ensures Word(m', a) == Word(m, a) {
      if i > 0 { SlotElsewhere(m, head, blocks, free, blocks[i - 1], x); }
    }
  }

  lemma LinkOnly(m: Memory, head: nat, blocks: seq<nat>, free: map<nat, seq<nat>>, b: nat, c: nat)
    requires Shape(m, head, blocks, free) && b in blocks && c in blocks
    ensures !(b < c < b + BLOCK_SIZE)
  {
    hide Chain;
    assert BlockOk(m, b, free[b]) && BlockOk(m, c, free[c]);
    if b != c { Apart(b, c); }
  }

  /** A block all of whose slots are free holds none in use, so leaving it out changes nothing. */
  lemma UnlinkUse(m: Memory, head: nat, blocks: seq<nat>, free: map<nat, seq<nat>>, i: nat, y: nat)
    requires Shape(m, head, blocks, free) && i < |blocks| && |free[blocks[i]]| == SLOTS
    ensures InUse(Without(blocks, i), free, y) <==> InUse(blocks, free, y)
  {
    hide Chain;
    var b := blocks[i];
    assert BlockOk(m, b, free[b]);
    AllFree(m, b, free[b], y);
    WithoutIs(blocks, i);
  }

  lemma WithoutIs(blocks: seq<nat>, i: nat)
    requires Distinct(blocks) && i < |blocks|
    ensures forall c :: c in Without(blocks, i) <==> c in blocks && c != blocks[i]
  {
    forall c | c in blocks && c != blocks[i] ensures c in Without(blocks, i) {
      var k :| 0 <= k < |blocks| && blocks[k] == c;
      assert Without(blocks, i)[if k < i then k else k - 1] == c;
    }
  }

  lemma AllFree(m: Memory, b: nat, free: seq<nat>, y: nat)
    requires BlockOk(m, b, free) && |free| == SLOTS
    ensures SlotOf(b, y) ==> y in free
  {
    hide Chain;
    NoOther(b, free, y);
  }

  lemma {:induction false} SlotsAre(b: nat, n: nat, x: nat)
    requires x in Slots(b, n) && n <= SLOTS
    ensures SlotOf(b, x)
  {
    if x != b + SLOT_SIZE * n { SlotsAre(b, n - 1, x); }
  }

  /** A new block in front of the list. */
  lemma NewShape(m: Memory, m': Memory, head: nat, blocks: seq<nat>, free: map<nat, seq<nat>>, b: nat, f: seq<nat>)
    requires Shape(m, head, blocks, free) && b !in blocks && b % BLOCK_SIZE == 0
    requires Outside(m, m', b) && BlockOk(m', b, f) && Word(m', b) == head
    ensures Shape(m', b, [b] + blocks, free[b := f])
    ensures SlotsKept(blocks, free, m, m')
  {
    hide SlotOf, InUse;
    forall c | c in blocks ensures Word(m', c) == Word(m, c) && BlockOk(m', c, free[c]) {
      Apart(b, c);
      BlockFrame(m, m', c, free[c]);
    }
    ChainFrame(m, m', head, blocks);
    assert ([b] + blocks)[1..] == blocks;
    forall x: nat, a: nat | InUse(blocks, free, x) && x <= a < x + SLOT_SIZE ensures Word(m', a) == Word(m, a) {
      NewElsewhere(m, head, blocks, free, b, x);
    }
  }

  lemma NewElsewhere(m: Memory, head: nat, blocks: seq<nat>, free: map<nat, seq<nat>>, b: nat, x: nat)
    requires Shape(m, head, blocks, free) && b !in blocks && b % BLOCK_SIZE == 0 && InUse(blocks, free, x)
    ensures x + SLOT_SIZE <= b || b + BLOCK_SIZE <= x
  {
    hide Chain;
    Apart(b, Page(x));
    InPage(Page(x), x);
  }

  lemma NewUse(m: Memory, blocks: seq<nat>, free: map<nat, seq<nat>>, b: nat, f: seq<nat>, y: nat)
    requires BlockOk(m, b, f) && |f| == SLOTS && b !in blocks
    ensures InUse([b] + blocks, free[b := f], y) <==> InUse(blocks, free, y)
  {
    AllFree(m, b, f, y);
  }

  /** The lowest and the highest address of a block for an origin. */
  function Lowest(sys: System, origin: nat): nat {
    if origin > REACH && sys.low < origin - REACH then origin - REACH else sys.low
  }

  function Highest(sys: System, origin: nat): int {
    (if sys.high > origin + REACH then origin + REACH else sys.high) - (BLOCK_SIZE - 1)
  }

  /** Every byte of the slot is within reach of the origin and belongs to application memory. */
  ghost predicate Near(sys: System, origin: nat, slot: nat) {
    && origin - REACH <= slot && slot + SLOT_SIZE - 1 <= origin + REACH
    && sys.low <= slot && slot + SLOT_SIZE - 1 <= sys.high
  }

  /** A block lies within the limits exactly if it lies in application memory and all of it within 1 GiB of the origin. */
  lemma LimitsAre(sys: System, origin: nat, b: nat)
    ensures Lowest(sys, origin) <= b <= Highest(sys, origin) <==>
              sys.low <= b && b + 0xFFF <= sys.high && origin <= b + 0x4000_0000 && b + 0xFFF <= origin + 0x4000_0000
  {
  }

  lemma SlotsNear(sys: System, origin: nat, b: nat, x: nat)
    requires Lowest(sys, origin) <= b <= Highest(sys, origin) && SlotOf(b, x)
    ensures Near(sys, origin, x)
  {
    InPage(b, x);
  }

  lemma GranulesArePages(a: nat, g: nat)
    requires g > 0 && g % BLOCK_SIZE == 0 && Aligned(a, g)
    ensures a % BLOCK_SIZE == 0
  {
    var p, q := a / g, g / BLOCK_SIZE;
    AlignedMultiple(a, p, g);
    AlignedMultiple(a, p * q, BLOCK_SIZE);
    assert g == q * BLOCK_SIZE;
    assert a == (p * q) * BLOCK_SIZE by { Associate(p, q, BLOCK_SIZE); }
  }

  lemma Associate(p: nat, q: nat, r: nat)
    ensures p * (q * r) == (p * q) * r
  {
  }

  /** No free granule from `from` to before `to` is granted. */
  ghost predicate Refused(sys: System, from: int, to: int)
    requires sys.granularity > 0
  {
    forall x: nat :: from <= x < to && Aligned(x, sys.granularity) && sys.query(x).Free? ==> !sys.grants(x)
  }

  /** Going down from `top`, no granule is to be had before `lo`, or before one at which the query fails. */
  ghost predicate NoneDown(sys: System, lo: nat, top: nat)
    requires sys.granularity > 0
  {
    Refused(sys, lo, top) || exists t: nat :: lo <= t < top && sys.query(t).Unknown? && Refused(sys, t + 1, top)
  }

  /** The same going up from `from`, up to `hi`. */
  ghost predicate NoneUp(sys: System, from: nat, hi: int)
    requires sys.granularity > 0
  {
    Refused(sys, from, hi + 1) || exists t: nat :: from <= t <= hi && sys.query(t).Unknown? && Refused(sys, from, t)
  }

  /** The system has no page to give within reach, as far as it can be asked. */
  ghost predicate NoPage(sys: System, origin: nat)
    requires sys.granularity > 0
  {
    NoneDown(sys, Lowest(sys, origin), RoundDown(origin, sys.granularity)) && NoneUp(sys, origin + 1, Highest(sys, origin))
  }

  lemma DownFails(sys: System, held: set<nat>, origin: nat, at: nat, min: nat)
    requires Honest(sys, held) && at <= origin && (at == origin || Aligned(at, sys.granularity))
    requires Refused(sys, at, RoundDown(origin, sys.granularity))
    requires FailsBelow(sys, min, RoundDown(at, sys.granularity)) || NoneFree(sys, min, RoundDown(at, sys.granularity))
    requires RoundDown(at, sys.granularity) <= RoundDown(origin, sys.granularity)
    ensures NoneDown(sys, min, RoundDown(origin, sys.granularity))
  {
    hide *;
    Positive(sys, held);
    var g, top := sys.granularity, RoundDown(origin, sys.granularity);
    var low := RoundDown(at, g);
    Rounding(at, g);
    if at != origin { GranulesApart(low, at, g); }
    assert low == at || at == origin;
    NothingRefused(sys, low, top);
    JoinDown(sys, min, low, top);
  }

  lemma RoundingOrder(a: nat, b: nat, g: nat)
    requires g > 0 && a <= b
    ensures RoundDown(a, g) <= RoundDown(b, g)
  {
    Rounding(a, g);
    Rounding(b, g);
    if RoundDown(a, g) > RoundDown(b, g) { GranulesApart(RoundDown(b, g), RoundDown(a, g), g); }
  }

  lemma Positive(sys: System, held: set<nat>)
    requires Honest(sys, held)
    ensures sys.granularity > 0
  {
  }

  lemma NothingRefused(sys: System, from: int, to: int)
    requires sys.granularity > 0
    ensures from >= to ==> Refused(sys, from, to)
  {
  }

  lemma JoinDown(sys: System, min: nat, low: nat, top: nat)
    requires sys.granularity > 0 && Refused(sys, low, top) && (FailsBelow(sys, min, low) || NoneFree(sys, min, low)) && low <= top
    ensures NoneDown(sys, min, top)
  {
    hide Aligned;
    if t: nat :| min <= t < low && Aligned(t, sys.granularity) && sys.query(t).Unknown? && NoneFree(sys, t + 1, low) {
      assert Refused(sys, t + 1, top);
    } else {
      assert Refused(sys, min, top);
    }
  }

  lemma UpFails(sys: System, origin: nat, at: nat, max: nat)
    requires sys.granularity > 0 && origin <= at && Refused(sys, origin + 1, at + 1)
    requires FailsAbove(sys, at, max) || NoneFree(sys, at + 1, max + 1)
    ensures NoneUp(sys, origin + 1, max)
  {
    if t: nat :| at < t <= max && Aligned(t, sys.granularity) && sys.query(t).Unknown? && NoneFree(sys, at + 1, t) {
      assert Refused(sys, origin + 1, t);
    } else {
      assert Refused(sys, origin + 1, max + 1);
    }
  }

  /** A page for a new block: below the origin as long as the system grants one, then above. */
  method ReservePage(sys: System, ghost held: set<nat>, origin: nat) returns (b: nat)
    requires Honest(sys, held) && sys.low <= origin <= sys.high
    ensures b != 0 ==> Lowest(sys, origin) <= b <= Highest(sys, origin) && b % BLOCK_SIZE == 0 && b !in held
    ensures b != 0 ==> sys.query(b).Free? && sys.grants(b)
    ensures b == 0 ==> NoPage(sys, origin)
  {
    hide NoneDown, NoneUp, FailsBelow, FailsAbove;
    b := PageBelow(sys, held, origin, Lowest(sys, origin));
    if b == 0 { b := PageAbove(sys, held, origin, Highest(sys, origin)); }
  }

  method PageBelow(sys: System, ghost held: set<nat>, origin: nat, min: nat) returns (b: nat)
    requires Honest(sys, held) && sys.granularity <= min <= origin
    ensures b != 0 ==> min <= b <= origin && b % BLOCK_SIZE == 0 && b !in held && sys.query(b).Free? && sys.grants(b)
    ensures b != 0 ==> b + sys.granularity <= origin
    ensures b == 0 ==> NoneDown(sys, min, RoundDown(origin, sys.granularity))
  {
    hide NoneDown, FailsBelow;
    ghost var top := RoundDown(origin, sys.granularity);
    Rounding(origin, sys.granularity);
    var at: nat := origin;
    while at >= min
      invariant min <= at <= origin && (at == origin || Aligned(at, sys.granularity)) && Refused(sys, at, top)
      decreases at
    {
      var r := FindPrevFreeRegion(sys, held, at, min);
      if r == 0 { break; }
      Rounding(at, sys.granularity);
      if at != origin { GranulesApart(RoundDown(at, sys.granularity), at, sys.granularity); }
      at := r;
      if sys.grants(at) {
        GranulesArePages(at, sys.granularity);
        return at;
      }
    }
    RoundingOrder(at, origin, sys.granularity);
    DownFails(sys, held, origin, at, min);
    b := 0;
  }

  method PageAbove(sys: System, ghost held: set<nat>, origin: nat, max: nat) returns (b: nat)
    requires Honest(sys, held)
    ensures b != 0 ==> origin < b <= max && b % BLOCK_SIZE == 0 && b !in held && sys.query(b).Free? && sys.grants(b)
    ensures b == 0 ==> NoneUp(sys, origin + 1, max)
  {
    hide NoneUp, FailsAbove;
    var at: nat := origin;
    while at <= max
      invariant at >= origin && Refused(sys, origin + 1, at + 1) && (at > origin ==> at <= max)
      decreases max - at
    {
      var r := FindNextFreeRegion(sys, held, at, max);
      if r == 0 {
        UpFails(sys, origin, at, max);
        return 0;
      }
      at := r;
      if sys.grants(at) {
        GranulesArePages(at, sys.granularity);
        return at;
      }
    }
    NothingAbove(sys, origin, max);
    b := 0;
  }

  lemma NothingAbove(sys: System, origin: nat, max: nat)
    requires sys.granularity > 0 && max < origin
    ensures NoneUp(sys, origin + 1, max)
  {
    assert Refused(sys, origin + 1, max + 1);
  }

  /** The slots of a new block, lowest first in memory and last in its list. */
  ghost predicate Listed(m: Memory, b: nat, f: seq<nat>) {
    && Chain(m, Word(m, b + FREE_AT), f) && Word(m, b + USED_AT) == 0
    && forall i :: 0 <= i < |f| ==> f[i] == b + SLOT_SIZE * (|f| - i)
  }

  lemma ListedMore(m: Memory, b: nat, f: seq<nat>)
    requires Listed(m, b, f) && |f| < SLOTS && b > 0
    ensures Listed(Pushed(m, b, b + SLOT_SIZE * (|f| + 1)), b, [b + SLOT_SIZE * (|f| + 1)] + f)
    ensures Outside(m, Pushed(m, b, b + SLOT_SIZE * (|f| + 1)), b)
  {
    var x := b + SLOT_SIZE * (|f| + 1);
    ChainFrame(m, Pushed(m, b, x), Word(m, b + FREE_AT), f);
    assert ([x] + f)[1..] == f;
  }

  /** A slot put in front of the free list. */
  function Pushed(m: Memory, b: nat, x: nat): Memory {
    m[x := Word(m, b + FREE_AT)][b + FREE_AT := x]
  }

  lemma ListedAll(m: Memory, b: nat, f: seq<nat>, next: nat)
    requires Listed(m, b, f) && |f| == SLOTS && b > 0 && b % BLOCK_SIZE == 0
    ensures BlockOk(m[b := next], b, f)
  {
    hide Chain;
    ChainFrame(m, m[b := next], Word(m, b + FREE_AT), f);
  }

  /** MinHook's buffers: the head of the block list and the memory it lives in. */
  class Allocator {
    var head: nat
    var memory: Memory
    ghost var blocks: seq<nat>
    ghost var free: map<nat, seq<nat>>

    ghost predicate Shaped()
      reads this
    {
      Shape(memory, head, blocks, free)
    }

    /** Between calls no listed block is without a slot in use. */
    ghost predicate Valid()
      reads this
    {
      Shaped() && forall b :: b in blocks ==> |free[b]| < SLOTS
    }

    ghost predicate Live(x: nat)
      reads this
    {
      InUse(blocks, free, x)
    }

    /** Every listed block in reach of the origin is full. */
    ghost predicate FullAround(sys: System, origin: nat)
      requires Shaped()
      reads this
    {
      forall b :: b in blocks && Lowest(sys, origin) <= b < Highest(sys, origin) ==> free[b] == []
    }

    /** Block number `i` of the list is the first in reach that has a free slot. */
    ghost predicate FirstUsable(sys: System, origin: nat, b: nat, i: nat)
      requires Shaped()
      reads this
    {
      && i < |blocks| && blocks[i] == b && free[b] != [] && Lowest(sys, origin) <= b < Highest(sys, origin)
      && forall k :: 0 <= k < i && Lowest(sys, origin) <= blocks[k] < Highest(sys, origin) ==> free[blocks[k]] == []
    }

    constructor ()
      ensures Valid() && blocks == []
    {
      head := 0;
      memory := map[];
      blocks := [];
      free := map[];
    }

    /** The first listed block in reach that has a free slot. */
    method FindReachable(sys: System, origin: nat) returns (b: nat)
      requires Shaped()
      ensures b != 0 ==> exists i: nat :: FirstUsable(sys, origin, b, i)
      ensures b == 0 ==> FullAround(sys, origin)
    {
      hide BlockOk;
      var min, max := Lowest(sys, origin), Highest(sys, origin);
      b := head;
      ghost var i: nat := 0;
      assert blocks[0..] == blocks;
      while b != 0
        invariant i <= |blocks| && Chain(memory, b, blocks[i..])
        invariant forall k :: 0 <= k < i && min <= blocks[k] < max ==> free[blocks[k]] == []
        decreases |blocks| - i
      {
        assert blocks[i..][0] == blocks[i] && blocks[i..][1..] == blocks[i + 1..];
        FreeListHead(memory, b, free[b]);
        if min <= b < max && Word(memory, b + FREE_AT) != 0 {
          assert FirstUsable(sys, origin, b, i);
          return;
        }
        b := Word(memory, b);
        i := i + 1;
      }
      forall c | c in blocks && min <= c < max ensures free[c] == [] {
        var k :| 0 <= k < |blocks| && blocks[k] == c;
      }
    }

    /** The block to take a slot from, made and put in front of the list if none is at hand. */
    method GetMemoryBlock(sys: System, origin: nat) returns (b: nat)
      requires Valid() && Honest(sys, SetOf(blocks)) && sys.low <= origin <= sys.high
      modifies this
      ensures Shaped() && b != 0 ==> b in blocks && free[b] != [] && Lowest(sys, origin) <= b <= Highest(sys, origin)
      ensures Shaped() && forall c :: c in blocks && c != b ==> |free[c]| < SLOTS
      ensures old(blocks) == blocks ==> head == old(head) && memory == old(memory) && free == old(free)
      ensures old(blocks) == blocks || (b != 0 && b !in old(blocks) && blocks == [b] + old(blocks))
      ensures b == 0 || blocks != old(blocks) ==> old(FullAround(sys, origin))
      ensures b == 0 ==> NoPage(sys, origin)
      ensures b != 0 && blocks == old(blocks) ==> exists i: nat :: FirstUsable(sys, origin, b, i)
      ensures forall y: nat :: Live(y) <==> old(Live(y))
      ensures SlotsKept(old(blocks), old(free), old(memory), memory)
    {
      hide Chain, BlockOk, InUse, Lowest, Highest, NoPage;
      b := FindReachable(sys, origin);
      if b != 0 { return; }
      b := ReservePage(sys, SetOf(blocks), origin);
      if b == 0 { return; }
      var m, f := BuildSlots(memory, b);
      ghost var was := memory;
      memory := m[b := head];
      ListedAll(m, b, f, head);
      NewShape(was, memory, head, blocks, free, b, f);
      forall y: nat ensures InUse([b] + blocks, free[b := f], y) <==> InUse(blocks, free, y) {
        NewUse(memory, blocks, free, b, f, y);
      }
      head := b;
      blocks := [b] + blocks;
      free := free[b := f];
    }

    /** `FreeBuffer`: the slot goes back to its block; a block without slots in use leaves the list
        and its page is released.  An address in no listed block is ignored. */
    method FreeBuffer(x: nat)
      requires Valid() && (Live(x) || Page(x) !in blocks)
      modifies this
      ensures Valid()
      ensures forall y: nat :: Live(y) <==> old(Live(y)) && y != x
      ensures SlotsKept(blocks, free, old(memory), memory)
      ensures old(!Live(x) || Others(blocks, free, x)) ==> blocks == old(blocks)
      ensures old(Live(x) && !Others(blocks, free, x)) ==>
        exists i: nat :: i < |old(blocks)| && old(blocks)[i] == Page(x) && blocks == Without(old(blocks), i)
    {
      hide Chain, InUse, SlotOf, Page, BlockOk, Others;
      var block, prev, i := FindBlock(x);
      if block != 0 {
        assert Live(x);
        LiveSlot(memory, head, blocks, free, x);
        Release(x, block, prev, i);
      } else {
        NotListed(blocks, free, x);
      }
    }

    /** The listed block the address lies in, and the one before it in the list; 0 if there is none. */
    method FindBlock(x: nat) returns (block: nat, prev: nat, ghost i: nat)
      requires Shaped()
      ensures block == 0 ==> Page(x) !in blocks
      ensures block != 0 ==> i < |blocks| && block == blocks[i] == Page(x) && prev == if i == 0 then 0 else blocks[i - 1]
    {
      hide Chain, Page, BlockOk;
      block, prev := head, 0;
      i := 0;
      assert blocks[0..] == blocks;
      while block != 0 && block != Page(x)
        invariant i <= |blocks| && Chain(memory, block, blocks[i..])
        invariant prev == if i == 0 then 0 else blocks[i - 1]
        invariant forall k :: 0 <= k < i ==> blocks[k] != Page(x)
        decreases |blocks| - i
      {
        ChainStep(memory, block, blocks, i);
        prev := block;
        block := Word(memory, block);
        i := i + 1;
      }
      ChainStep(memory, block, blocks, i);
    }

    /** The rest of it once the block is found, after `prev` in the list or at its head. */
    method Release(x: nat, block: nat, prev: nat, ghost i: nat)
      requires Valid() && i < |blocks| && block == blocks[i] && prev == (if i == 0 then 0 else blocks[i - 1])
      requires SlotOf(block, x) && x !in free[block]
      modifies this
      ensures Valid()
      ensures forall y: nat :: Live(y) <==> old(Live(y)) && y != x
      ensures SlotsKept(blocks, free, old(memory), memory)
      ensures blocks == if old(Others(blocks, free, x)) then old(blocks) else Without(old(blocks), i)
    {
      hide Chain, InUse, SlotOf, Page, Give, Others, SlotsKept;
      ghost var now := free[block := [x] + free[block]];
      GivenBack(memory, head, blocks, free, i, x);
      OthersLeft(memory, block, blocks, free, x);
      forall y: nat ensures InUse(blocks, now, y) <==> InUse(blocks, free, y) && y != x {
        GiveUse(memory, head, blocks, free, block, x, y);
      }
      ghost var m := Give(memory, block, x);
      memory := Give(memory, block, x);
      free := now;
      if Word(memory, block + USED_AT) == 0 {
        UnlinkShape(m, head, blocks, now, i);
        WithoutIs(blocks, i);
        if i > 0 { assert BlockOk(m, blocks[i - 1], now[blocks[i - 1]]); }
        forall y: nat ensures InUse(Without(blocks, i), now, y) <==> InUse(blocks, now, y) { UnlinkUse(m, head, blocks, now, i, y); }
        if prev != 0 { memory := memory[prev := Word(memory, block)]; } else { head := Word(memory, block); }
        assert memory == Unlinked(m, old(blocks), i);
        blocks := Without(blocks, i);
        KeptAfter(old(blocks), now, blocks, now, old(memory), m, memory);
      }
    }

    /** What the owner of a slot writes there, links included, disturbs nothing else. */
    method Write(x: nat, offset: nat, value: nat)
      requires Valid() && Live(x) && offset < SLOT_SIZE
      modifies `memory
      ensures Valid() && Word(memory, x + offset) == value
      ensures forall a: nat :: a != x + offset ==> Word(memory, a) == old(Word(memory, a))
    {
      WriteShape(memory, head, blocks, free, x, x + offset, value);
      memory := memory[x + offset := value];
    }

    /** `AllocateBuffer`: a slot near the origin that was not in use, or 0. */
    method AllocateBuffer(sys: System, origin: nat) returns (slot: nat)
      requires Valid() && Honest(sys, SetOf(blocks)) && sys.low <= origin <= sys.high
      modifies this
      ensures Valid()
      ensures slot != 0 ==> slot % SLOT_SIZE == 0 && Near(sys, origin, slot) && !old(Live(slot))
      ensures forall y: nat :: Live(y) <==> old(Live(y)) || (slot != 0 && y == slot)
      ensures SlotsKept(old(blocks), old(free), old(memory), memory)
      ensures blocks == old(blocks) || (slot != 0 && blocks == [Page(slot)] + old(blocks))
      ensures slot == 0 || blocks != old(blocks) ==> old(FullAround(sys, origin))
      ensures slot == 0 ==> NoPage(sys, origin)
      ensures slot != 0 && blocks == old(blocks) ==> exists i: nat :: old(FirstUsable(sys, origin, Page(slot), i))
      ensures slot == 0 ==> head == old(head) && memory == old(memory) && free == old(free)
    {
      hide Chain, InUse, SlotOf, Near, Lowest, Highest, Page, NoPage;
      var b := GetMemoryBlock(sys, origin);
      if b == 0 { return 0; }
      ghost var i: nat;
      if blocks == old(blocks) {
        i :| FirstUsable(sys, origin, b, i);
        assert old(FirstUsable(sys, origin, b, i));
      }
      forall y: nat ensures InUse(old(blocks), old(free), y) <==> InUse(blocks, free, y) { assert Live(y) == old(Live(y)); }
      slot := Word(memory, b + FREE_AT);
      ghost var m, f := memory, free;
      assert BlockOk(m, b, f[b]);
      TakeBlock(m, b, f[b]);
      TakeShape(m, head, blocks, f, b);
      SlotTaken(sys, origin, m, b, f[b]);
      forall y: nat ensures InUse(blocks, f[b := f[b][1..]], y) <==> InUse(blocks, f, y) || y == slot {
        TakeUse(m, head, blocks, f, b, y);
      }
      TakeUse(m, head, blocks, f, b, slot);
      memory := Take(memory, b);
      free := free[b := free[b][1..]];
      KeptTwice(old(blocks), old(free), blocks, f, old(memory), m, memory);
    }
  }

  /** What giving back slot `x` of block number `i` makes of the list. */
  lemma GivenBack(m: Memory, head: nat, blocks: seq<nat>, free: map<nat, seq<nat>>, i: nat, x: nat)
    requires Shape(m, head, blocks, free) && (forall b :: b in blocks ==> |free[b]| < SLOTS)
    requires i < |blocks| && SlotOf(blocks[i], x) && x !in free[blocks[i]]
    ensures Word(m, blocks[i] + USED_AT) > 0 && |free[blocks[i]]| == SLOTS - Word(m, blocks[i] + USED_AT)
    ensures Shape(Give(m, blocks[i], x), head, blocks, free[blocks[i] := [x] + free[blocks[i]]])
    ensures SlotsKept(blocks, free[blocks[i] := [x] + free[blocks[i]]], m, Give(m, blocks[i], x))
    ensures Word(Give(m, blocks[i], x), blocks[i] + USED_AT) == Word(m, blocks[i] + USED_AT) - 1
    ensures Page(x) == blocks[i]
  {
    hide Chain, SlotOf, InUse, Give;
    var b := blocks[i];
    assert BlockOk(m, b, free[b]);
    GiveBlock(m, b, free[b], x);
    GiveWords(m, b, x);
    GiveShape(m, head, blocks, free, b, x);
    InPage(b, x);
    PageOfSlot(b, x);
  }

  /** The other slots of the block of `x` that are in use. */
  ghost predicate Others(blocks: seq<nat>, free: map<nat, seq<nat>>, x: nat) {
    exists y: nat :: y != x && Page(y) == Page(x) && InUse(blocks, free, y)
  }

  lemma OthersLeft(m: Memory, b: nat, blocks: seq<nat>, free: map<nat, seq<nat>>, x: nat)
    requires b in blocks && b in free && BlockOk(m, b, free[b]) && SlotOf(b, x) && x !in free[b]
    ensures Others(blocks, free, x) <==> |free[b]| + 1 < SLOTS
  {
    hide Chain;
    var now := [x] + free[b];
    InPage(b, x);
    PageOfSlot(b, x);
    SlotsHold(b, now);
    if |now| < SLOTS {
      var y := Another(b, now);
      assert InUse(blocks, free, y);
    } else {
      forall y: nat ensures !(y != x && Page(y) == b && InUse(blocks, free, y)) { NoOther(b, now, y); }
    }
  }

  lemma Another(b: nat, now: seq<nat>) returns (y: nat)
    requires b % BLOCK_SIZE == 0 && |now| < SLOTS && Distinct(now) && forall x :: x in now ==> SlotOf(b, x)
    ensures SlotOf(b, y) && y !in now && Page(y) == b
  {
    hide Slots;
    SlotsHold(b, now);
    var left := Slots(b, SLOTS) - SetOf(now);
    assert left != {};
    y :| y in left;
    SlotsAre(b, SLOTS, y);
    PageOfSlot(b, y);
  }

  lemma NoOther(b: nat, now: seq<nat>, y: nat)
    requires |now| == SLOTS && Distinct(now) && forall x :: x in now ==> SlotOf(b, x)
    ensures SlotOf(b, y) ==> y in now
  {
    hide Slots;
    SlotsHold(b, now);
    if SlotOf(b, y) {
      InSlots(b, SLOTS, y);
      assert Slots(b, SLOTS) - SetOf(now) == {};
      assert y in SetOf(now);
    }
  }

  lemma ChainStep(m: Memory, at: nat, blocks: seq<nat>, i: nat)
    requires i <= |blocks| && Chain(m, at, blocks[i..])
    ensures at != 0 <==> i < |blocks|
    ensures i < |blocks| ==> at == blocks[i] && Chain(m, Word(m, at), blocks[i + 1..])
  {
    if i < |blocks| { assert blocks[i..][0] == blocks[i] && blocks[i..][1..] == blocks[i + 1..]; }
  }

  lemma NotListed(blocks: seq<nat>, free: map<nat, seq<nat>>, x: nat)
    requires Page(x) !in blocks
    ensures !InUse(blocks, free, x)
  {
  }

  lemma LiveSlot(m: Memory, head: nat, blocks: seq<nat>, free: map<nat, seq<nat>>, x: nat)
    requires Shape(m, head, blocks, free) && InUse(blocks, free, x)
    ensures SlotOf(Page(x), x) && x !in free[Page(x)]
  {
  }

  lemma KeptAfter(blocks: seq<nat>, free: map<nat, seq<nat>>, blocks': seq<nat>, free': map<nat, seq<nat>>,
                  m: Memory, m': Memory, m'': Memory)
    requires SlotsKept(blocks, free, m, m') && SlotsKept(blocks, free, m', m'')
    requires forall y: nat :: InUse(blocks', free', y) ==> InUse(blocks, free, y)
    ensures SlotsKept(blocks', free', m, m'')
  {
    hide InUse;
  }

  lemma WriteShape(m: Memory, head: nat, blocks: seq<nat>, free: map<nat, seq<nat>>, x: nat, a: nat, value: nat)
    requires Shape(m, head, blocks, free) && InUse(blocks, free, x) && x <= a < x + SLOT_SIZE
    ensures Shape(m[a := value], head, blocks, free)
  {
    hide Chain, SlotOf;
    var m' := m[a := value];
    forall b | b in blocks ensures Word(m', b) == Word(m, b) && BlockOk(m', b, free[b]) {
      assert BlockOk(m, b, free[b]);
      SlotElsewhere(m, head, blocks, free, b, x);
      if Page(x) == b { WriteBlock(m, m', b, free[b], x, a); } else { BlockFrame(m, m', b, free[b]); }
    }
    ChainFrame(m, m', head, blocks);
  }

  lemma WriteBlock(m: Memory, m': Memory, b: nat, free: seq<nat>, x: nat, a: nat)
    requires BlockOk(m, b, free) && SlotOf(b, x) && x !in free && x <= a < x + SLOT_SIZE
    requires forall c :: c != a ==> Word(m', c) == Word(m, c)
    ensures BlockOk(m', b, free)
  {
    hide Chain;
    InPage(b, x);
    forall y | y in free ensures y != a {
      InPage(b, y);
      if x < y { SlotsOfOneBlock(b, x, y); }
    }
    ChainFrame(m, m', Word(m, b + FREE_AT), free);
  }

  lemma FreeListHead(m: Memory, b: nat, free: seq<nat>)
    requires BlockOk(m, b, free)
    ensures Word(m, b + FREE_AT) != 0 <==> free != []
  {
  }

  /** All slots of a new block, each put in front of the one before. */
  method BuildSlots(memory: Memory, b: nat) returns (m: Memory, ghost f: seq<nat>)
    requires b > 0
    ensures Listed(m, b, f) && |f| == SLOTS && Outside(memory, m, b)
  {
    hide Chain, Pushed;
    m := memory[b + FREE_AT := 0][b + USED_AT := 0];
    f := [];
    var slot := b + SLOT_SIZE;
    ListedNone(memory, b);
    while true
      invariant |f| < SLOTS && slot == b + SLOT_SIZE * (|f| + 1) && Listed(m, b, f) && Outside(memory, m, b)
      decreases SLOTS - |f|
    {
      ListedMore(m, b, f);
      m := Pushed(m, b, slot);
      f := [slot] + f;
      slot := slot + SLOT_SIZE;
      if slot - b > BLOCK_SIZE - SLOT_SIZE { break; }
    }
  }

  lemma ListedNone(m: Memory, b: nat)
    ensures Listed(m[b + FREE_AT := 0][b + USED_AT := 0], b, [])
    ensures Outside(m, m[b + FREE_AT := 0][b + USED_AT := 0], b)
  {
  }

  lemma SlotTaken(sys: System, origin: nat, m: Memory, b: nat, free: seq<nat>)
    requires BlockOk(m, b, free) && free != [] && Lowest(sys, origin) <= b <= Highest(sys, origin)
    ensures free[0] > 0 && free[0] % SLOT_SIZE == 0 && Near(sys, origin, free[0]) && Page(free[0]) == b
    ensures |free[1..]| < SLOTS
  {
    hide *;
    FirstSlot(m, b, free);
    SlotsNear(sys, origin, b, free[0]);
    PageOfSlot(b, free[0]);
  }

  lemma FirstSlot(m: Memory, b: nat, free: seq<nat>)
    requires BlockOk(m, b, free) && free != []
    ensures SlotOf(b, free[0]) && b < free[0] < b + BLOCK_SIZE && b % BLOCK_SIZE == 0 && free[0] % SLOT_SIZE == 0
    ensures |free[1..]| < SLOTS
  {
    hide Chain, Word, Distinct;
    assert free[0] in free;
  }

  lemma KeptTwice(blocks: seq<nat>, free: map<nat, seq<nat>>, blocks': seq<nat>, free': map<nat, seq<nat>>,
                  m: Memory, m': Memory, m'': Memory)
    requires SlotsKept(blocks, free, m, m') && SlotsKept(blocks', free', m', m'')
    requires forall y: nat :: InUse(blocks, free, y) ==> InUse(blocks', free', y)
    ensures SlotsKept(blocks, free, m, m'')
  {
    hide InUse;
  }
}
