/** The analyser's set of visited instruction addresses: an open-addressed table with linear
    probing that is kept at most half full. */
module VisitedMap {
  import opened Bits
  import opened ProbePath

  /** `cfg_info_t` */
  datatype Info = Info(cmovId: nat, unresolvedBranch: bool)

  datatype Slot = Empty | Used(address: nat, info: Info)

  /** The slot `d` steps on from where a hash starts. */
  function Spot(h: nat, n: nat, d: nat): (i: nat)
    requires n > 0
    ensures i < n
  {
    (h + d) % n
  }

  lemma NextSpot(h: nat, n: nat, d: nat)
    requires n > 0
    ensures Spot(h, n, 0) == h % n && (Spot(h, n, d) + 1) % n == Spot(h, n, d + 1)
  {
    ModSum(h + d, 1, n);
  }

  /** Every slot can be reached from every start. */
  lemma Reach(h: nat, n: nat, i: nat) returns (d: nat)
    requires i < n
    ensures d < n && Spot(h, n, d) == i
  {
    var q, r := h / n, h % n;
    assert h == n * q + r;
    if r <= i {
      d := i - r;
      ModUnique(h + d, n, q, i);
    } else {
      d := i + n - r;
      assert n * (q + 1) == n * q + n;
      ModUnique(h + d, n, q + 1, i);
    }
  }

  function UsedCount(s: seq<Slot>): nat {
    if s == [] then 0 else UsedCount(s[..|s| - 1]) + if s[|s| - 1].Used? then 1 else 0
  }

  lemma {:induction false} UsedMore(s: seq<Slot>, i: nat, x: Slot)
    requires i < |s| && s[i].Empty? && x.Used?
    ensures UsedCount(s[i := x]) == UsedCount(s) + 1
  {
    var n := |s| - 1;
    if i < n {
      assert s[i := x][..n] == s[..n][i := x];
      UsedMore(s[..n], i, x);
    } else {
      assert s[i := x][..n] == s[..n];
    }
  }

  lemma {:induction false} UsedSame(s: seq<Slot>, i: nat, x: Slot)
    requires i < |s| && s[i].Used? && x.Used?
    ensures UsedCount(s[i := x]) == UsedCount(s)
  {
    var n := |s| - 1;
    if i < n {
      assert s[i := x][..n] == s[..n][i := x];
      UsedSame(s[..n], i, x);
    } else {
      assert s[i := x][..n] == s[..n];
    }
  }

  lemma {:induction false} SomeEmpty(s: seq<Slot>) returns (i: nat)
    requires UsedCount(s) < |s|
    ensures i < |s| && s[i].Empty?
  {
    var n := |s| - 1;
    if s[n].Empty? { i := n; } else { i := SomeEmpty(s[..n]); }
  }

  lemma {:induction false} NoneUsed(s: seq<Slot>)
    requires forall i :: 0 <= i < |s| ==> s[i].Empty?
    ensures UsedCount(s) == 0
  {
    if s != [] { NoneUsed(s[..|s| - 1]); }
  }

  /** The slots before step `d` from a hash are all used. */
  ghost predicate Walked(s: seq<Slot>, h: nat, d: nat)
    requires |s| > 0
  {
    forall e: nat :: e < d ==> s[Spot(h, |s|, e)].Used?
  }

  /** An address is in the slot it should be in. */
  ghost predicate Placed(hash: nat -> nat, s: seq<Slot>, at: map<nat, nat>, m: map<nat, Info>, a: nat)
    requires |s| > 0
  {
    a in m && a in at && s[Spot(hash(a), |s|, at[a])] == Used(a, m[a]) && Walked(s, hash(a), at[a])
  }

  /** The table holds exactly the entries of `m`; `at` says how far each is from its hash. */
  ghost predicate Holds(hash: nat -> nat, s: seq<Slot>, at: map<nat, nat>, m: map<nat, Info>) {
    && |s| > 0 && UsedCount(s) == |m|
    && (forall a :: a in m ==> Placed(hash, s, at, m, a))
    && (forall i :: 0 <= i < |s| && s[i].Used? ==> s[i].address in m && Spot(hash(s[i].address), |s|, at[s[i].address]) == i)
  }

  /** A search that has passed only other addresses and stops: the slot decides. */
  lemma SearchEnds(hash: nat -> nat, s: seq<Slot>, at: map<nat, nat>, m: map<nat, Info>, a: nat, d: nat)
    requires Holds(hash, s, at, m) && Walked(s, hash(a), d)
    requires forall e: nat :: e < d ==> s[Spot(hash(a), |s|, e)].address != a
    ensures var slot := s[Spot(hash(a), |s|, d)];
            if slot.Empty? then a !in m else slot.address == a ==> a in m && m[a] == slot.info
  {
    hide Spot, UsedCount;
    if a in m {
      assert Placed(hash, s, at, m, a);
      assert at[a] >= d;
    }
    var i := Spot(hash(a), |s|, d);
    if s[i].Used? && s[i].address == a { assert Placed(hash, s, at, m, a); }
  }

  /** A new entry in the empty slot where its search ended. */
  lemma AddEntry(hash: nat -> nat, s: seq<Slot>, at: map<nat, nat>, m: map<nat, Info>, a: nat, d: nat, info: Info)
    requires Holds(hash, s, at, m) && Walked(s, hash(a), d) && s[Spot(hash(a), |s|, d)].Empty? && a !in m
    ensures Holds(hash, s[Spot(hash(a), |s|, d) := Used(a, info)], at[a := d], m[a := info])
  {
    hide Spot, UsedCount, Walked;
    var i := Spot(hash(a), |s|, d);
    var s', at', m' := s[i := Used(a, info)], at[a := d], m[a := info];
    UsedMore(s, i, Used(a, info));
    OneMore(m, a, info);
    forall b | b in m' ensures Placed(hash, s', at', m', b) {
      if b != a { assert Placed(hash, s, at, m, b); }
      WalkedGrows(s, i, Used(a, info), hash(b), at'[b]);
    }
  }

  lemma OneMore(m: map<nat, Info>, a: nat, info: Info)
    requires a !in m
    ensures |m[a := info]| == |m| + 1
  {
    assert m[a := info].Keys == m.Keys + {a};
    assert |m[a := info]| == |m[a := info].Keys| && |m| == |m.Keys|;
  }

  lemma WalkedGrows(s: seq<Slot>, i: nat, x: Slot, h: nat, d: nat)
    requires i < |s| && x.Used? && Walked(s, h, d)
    ensures Walked(s[i := x], h, d)
  {
    hide Spot;
  }

  /** Changing what is stored with an address. */
  lemma ChangeEntry(hash: nat -> nat, s: seq<Slot>, at: map<nat, nat>, m: map<nat, Info>, i: nat, info: Info)
    requires Holds(hash, s, at, m) && i < |s| && s[i].Used?
    ensures Holds(hash, s[i := Used(s[i].address, info)], at, m[s[i].address := info])
  {
    hide Spot, UsedCount;
    var a := s[i].address;
    var s', m' := s[i := Used(a, info)], m[a := info];
    UsedSame(s, i, Used(a, info));
    assert a in m && m'.Keys == m.Keys;
    assert |m'| == |m'.Keys| == |m.Keys| == |m|;
    forall b | b in m' ensures Placed(hash, s', at, m', b) { assert Placed(hash, s, at, m, b); }
  }

  /** No table, or a power of two of slots, at least 16, of which at most half are used. */
  ghost predicate Sized(s: seq<Slot>, count: nat) {
    if s == [] then count == 0 else count <= |s| / 2 && |s| >= 16 && exists k: nat :: |s| == Pow2(k)
  }

  class Map {
    const hash: nat -> nat
    var slots: seq<Slot>
    var count: nat
    ghost var at: map<nat, nat>
    ghost var model: map<nat, Info>

    ghost predicate Valid()
      reads this
    {
      && Sized(slots, count) && count == |model|
      && (if slots == [] then model == map[] else Holds(hash, slots, at, model))
    }

    constructor (hash: nat -> nat)
      ensures Valid() && model == map[] && this.hash == hash
    {
      this.hash, slots, count, at, model := hash, [], 0, map[], map[];
    }

    lemma TableThere()
      requires Valid() && slots != []
      ensures UsedCount(slots) < |slots| && Holds(hash, slots, at, model)
    {
    }

    /** Walks from the hash of an address to its slot, or to the empty slot that shows it is absent. */
    method Search(address: nat) returns (slot: nat, ghost d: nat)
      requires Valid() && slots != []
      ensures slot < |slots| && slot == Spot(hash(address), |slots|, d) && Walked(slots, hash(address), d)
      ensures slots[slot].Used? ==> slots[slot].address == address && address in model && model[address] == slots[slot].info
      ensures slots[slot].Empty? ==> address !in model
    {
      hide Spot, UsedCount, Holds;
      TableThere();
      var h, n := hash(address), |slots|;
      var free := SomeEmpty(slots);
      ghost var last := Reach(h, n, free);
      slot, d := h % n, 0;
      NextSpot(h, n, 0);
      while slots[slot].Used? && slots[slot].address != address
        invariant slot == Spot(h, n, d) && d <= last && Walked(slots, h, d)
        invariant forall e: nat :: e < d ==> slots[Spot(h, n, e)].address != address
        decreases last - d
      {
        NextSpot(h, n, d);
        slot, d := (slot + 1) % n, d + 1;
      }
      SearchEnds(hash, slots, at, model, address, d);
    }

    /** `find_visited_map` */
    method Find(address: nat) returns (found: bool, slot: nat)
      requires Valid()
      ensures found == (address in model)
      ensures found ==> slot < |slots| && slots[slot] == Used(address, model[address])
    {
      found, slot := false, 0;
      if slots == [] { return; }
      ghost var d;
      slot, d := Search(address);
      found := slots[slot].Used?;
    }

    /** `resize_visited_map`: to at least 16 slots; false, and nothing is changed, unless that is a power
        of two.  Every entry finds a new slot. */
    method Resize(capacity: nat) returns (ok: bool)
      requires Valid() && (PowerOfTwo(Raised(capacity)) ==> count < Raised(capacity))
      modifies `slots, `at
      ensures model == old(model) && count == old(count) && ok == PowerOfTwo(Raised(capacity))
      ensures ok ==> |slots| == (if capacity < 16 then 16 else capacity) && Holds(hash, slots, at, model)
      ensures !ok ==> slots == old(slots) && at == old(at) && Valid()
    {
      ok := PowerOfTwo(Raised(capacity));
      if !ok { return; }
      var new', place := Rehash(hash, slots, Raised(capacity), at, model);
      slots, at := new', place;
    }

    /** `insert_visited_map`: the address's slot, which is new unless it was there; an entry that was
        there keeps what is stored with it. */
    method Insert(address: nat, info: Info) returns (slot: nat)
      requires Valid()
      modifies this
      ensures Valid() && address in model && slot < |slots| && slots[slot] == Used(address, model[address])
      ensures model == if address in old(model) then old(model) else old(model)[address := info]
      ensures |slots| == if old(slots) == [] then 16 else if old(count) + 1 > |old(slots)| / 2 then 2 * |old(slots)| else |old(slots)|
    {
      hide Spot, UsedCount, Holds, Walked;
      if slots == [] || count + 1 > |slots| / 2 {
        var capacity := if slots == [] then 16 else 2 * |slots|;
        TwiceAsMany(slots, count);
        var ok := Resize(capacity);
        assert ok;
      }
      ghost var d;
      slot, d := Search(address);
      if slots[slot].Empty? {
        AddEntry(hash, slots, at, model, address, d, info);
        OneMore(model, address, info);
        at, model := at[address := d], model[address := info];
        slots := slots[slot := Used(address, info)];
        count := count + 1;
      }
    }

    /** What a caller writes through the slot it was given. */
    method SetInfo(slot: nat, info: Info)
      requires Valid() && slot < |slots| && slots[slot].Used?
      modifies `slots, `model
      ensures Valid() && model == old(model)[old(slots[slot]).address := info]
    {
      hide Spot, UsedCount, Walked;
      ChangeEntry(hash, slots, at, model, slot, info);
      assert model[slots[slot].address := info].Keys == model.Keys;
      assert |model[slots[slot].address := info]| == |model[slots[slot].address := info].Keys| && |model| == |model.Keys|;
      model := model[slots[slot].address := info];
      slots := slots[slot := Used(slots[slot].address, info)];
    }
  }

  /** `(n & (n - 1)) == 0`, for a positive number */
  predicate PowerOfTwo(n: nat) {
    n == 1 || (n > 0 && n % 2 == 0 && PowerOfTwo(n / 2))
  }

  function Raised(capacity: nat): nat { if capacity < 16 then 16 else capacity }

  lemma {:induction false} PowersAre(n: nat)
    ensures PowerOfTwo(n) <==> exists k: nat :: n == Pow2(k)
  {
    if n == 1 {
      assert n == Pow2(0);
    } else if n > 0 && n % 2 == 0 {
      PowersAre(n / 2);
      if k: nat :| n / 2 == Pow2(k) { assert n == Pow2(k + 1); }
      if k: nat :| n == Pow2(k) { assert n / 2 == Pow2(k - 1); }
    } else {
      forall k: nat ensures n != Pow2(k) { PowParity(k); }
    }
  }

  lemma PowParity(k: nat)
    ensures Pow2(k) > 0 && (if k == 0 then Pow2(k) == 1 else Pow2(k) % 2 == 0)
  {
  }

  lemma TwiceAsMany(s: seq<Slot>, count: nat)
    requires Sized(s, count)
    ensures var n := if s == [] then 16 else 2 * |s|; n == Raised(n) && PowerOfTwo(n) && exists k: nat :: n == Pow2(k)
  {
    if s == [] {
      assert Pow2(4) == 16;
      PowersAre(16);
    } else {
      var k: nat :| |s| == Pow2(k);
      assert 2 * |s| == Pow2(k + 1);
      PowersAre(2 * |s|);
    }
  }

  /** The new table of a resize: every entry is put in the first empty slot on its way. */
  method Rehash(hash: nat -> nat, s: seq<Slot>, capacity: nat, ghost at: map<nat, nat>, ghost m: map<nat, Info>)
    returns (new': seq<Slot>, ghost place: map<nat, nat>)
    requires |m| < capacity && (if s == [] then m == map[] else Holds(hash, s, at, m))
    ensures |new'| == capacity && Holds(hash, new', place, m)
  {
    hide Spot, UsedCount, Holds, Moved;
    new' := Blank(capacity);
    place := map[];
    ghost var part: map<nat, Info> := map[];
    NoneUsed(new');
    StartMoving(hash, s, at, m, new');
    var i: nat := 0;
    while i < |s|
      invariant i <= |s| && |new'| == capacity && Moved(hash, s, m, i, new', place, part)
    {
      if s[i].Used? {
        var a := s[i].address;
        MovedRoom(hash, s, m, i, new', place, part);
        ghost var d;
        var slot;
        slot, d := FreeSlot(new', hash(a));
        MoveOne(hash, s, at, m, i, new', place, part, d);
        new' := new'[slot := s[i]];
        place, part := place[a := d], part[a := m[a]];
      } else {
        SkipOne(hash, s, m, i, new', place, part);
      }
      i := i + 1;
    }
    MovedAll(hash, s, at, m, new', place, part);
  }

  function Blank(n: nat): (s: seq<Slot>)
    ensures |s| == n && forall i :: 0 <= i < n ==> s[i].Empty?
  {
    seq(n, _ => Empty)
  }

  /** The first empty slot from a hash on. */
  method FreeSlot(s: seq<Slot>, h: nat) returns (slot: nat, ghost d: nat)
    requires UsedCount(s) < |s|
    ensures slot < |s| && slot == Spot(h, |s|, d) && Walked(s, h, d) && s[slot].Empty?
  {
    hide Spot, UsedCount;
    var free := SomeEmpty(s);
    ghost var last := Reach(h, |s|, free);
    slot, d := h % |s|, 0;
    NextSpot(h, |s|, 0);
    while s[slot].Used?
      invariant slot == Spot(h, |s|, d) && d <= last && Walked(s, h, d)
      decreases last - d
    {
      NextSpot(h, |s|, d);
      slot, d := (slot + 1) % |s|, d + 1;
    }
  }

  /** The first `i` slots of the old table have been moved to the new one. */
  ghost predicate Moved(hash: nat -> nat, s: seq<Slot>, m: map<nat, Info>, i: nat, new': seq<Slot>, place: map<nat, nat>, part: map<nat, Info>) {
    && i <= |s| && |m| < |new'| && Holds(hash, new', place, part)
    && (forall a :: a in part ==> a in m && part[a] == m[a])
    && (forall j :: 0 <= j < i && s[j].Used? ==> s[j].address in part)
    && (forall j :: i <= j < |s| && s[j].Used? ==> s[j].address !in part)
  }

  lemma StartMoving(hash: nat -> nat, s: seq<Slot>, at: map<nat, nat>, m: map<nat, Info>, new': seq<Slot>)
    requires |m| < |new'| && UsedCount(new') == 0 && forall i :: 0 <= i < |new'| ==> new'[i].Empty?
    ensures Moved(hash, s, m, 0, new', map[], map[])
  {
  }

  lemma MovedRoom(hash: nat -> nat, s: seq<Slot>, m: map<nat, Info>, i: nat, new': seq<Slot>, place: map<nat, nat>, part: map<nat, Info>)
    requires Moved(hash, s, m, i, new', place, part)
    ensures UsedCount(new') < |new'|
  {
    hide UsedCount;
    assert part.Keys <= m.Keys;
    Fewer(part.Keys, m.Keys);
    assert |part| == |part.Keys| && |m| == |m.Keys|;
  }

  lemma Fewer(a: set<nat>, b: set<nat>)
    requires a <= b
    ensures |a| <= |b|
  {
    assert b == a + (b - a);
  }

  lemma MoveOne(hash: nat -> nat, s: seq<Slot>, at: map<nat, nat>, m: map<nat, Info>, i: nat,
                new': seq<Slot>, place: map<nat, nat>, part: map<nat, Info>, d: nat)
    requires Moved(hash, s, m, i, new', place, part) && i < |s| && s[i].Used? && Holds(hash, s, at, m)
    requires Walked(new', hash(s[i].address), d) && new'[Spot(hash(s[i].address), |new'|, d)].Empty?
    ensures s[i].address in m
    ensures Moved(hash, s, m, i + 1, new'[Spot(hash(s[i].address), |new'|, d) := s[i]], place[s[i].address := d], part[s[i].address := m[s[i].address]])
  {
    hide Spot, UsedCount, Walked;
    var a := s[i].address;
    assert Placed(hash, s, at, m, a);
    assert s[i] == Used(a, m[a]);
    AddEntry(hash, new', place, part, a, d, m[a]);
    forall j | i < j < |s| && s[j].Used? ensures s[j].address != a { }
  }

  lemma SkipOne(hash: nat -> nat, s: seq<Slot>, m: map<nat, Info>, i: nat, new': seq<Slot>, place: map<nat, nat>, part: map<nat, Info>)
    requires Moved(hash, s, m, i, new', place, part) && i < |s| && s[i].Empty?
    ensures Moved(hash, s, m, i + 1, new', place, part)
  {
    hide Holds;
  }

  lemma MovedAll(hash: nat -> nat, s: seq<Slot>, at: map<nat, nat>, m: map<nat, Info>, new': seq<Slot>, place: map<nat, nat>, part: map<nat, Info>)
    requires Moved(hash, s, m, |s|, new', place, part) && (if s == [] then m == map[] else Holds(hash, s, at, m))
    ensures Holds(hash, new', place, m)
  {
    hide Spot, UsedCount, Walked;
    forall a | a in m ensures a in part { assert Placed(hash, s, at, m, a); }
    assert part == m;
  }
}
