/** Run-length coding of the code sizes in a dynamic block header (section 3.2.7 of RFC 1951). */
module CodeSizeRle {
  import opened Bits
  import opened WeightedLengths

  const REPEAT := 16   // the previous size again, 3 to 6 times
  const ZEROS := 17    // 3 to 10 zeros
  const LONG_ZEROS := 18  // 11 to 138 zeros

  function Rep(x: nat, n: nat): (r: seq<nat>)
    ensures |r| == n && forall i :: 0 <= i < n ==> r[i] == x
  {
    if n == 0 then [] else Rep(x, n - 1) + [x]
  }

  lemma {:induction false} RepAdd(x: nat, a: nat, b: nat)
    ensures Rep(x, a + b) == Rep(x, a) + Rep(x, b)
  {
    if b > 0 {
      RepAdd(x, a, b - 1);
      assert Rep(x, a) + (Rep(x, b - 1) + [x]) == (Rep(x, a) + Rep(x, b - 1)) + [x];
    }
  }

  /** A packed sequence is made of sizes, and of run symbols each followed by its extra value. */
  datatype Item = Size(size: nat) | Run(symbol: nat, extra: nat)

  ghost predicate ValidItem(t: Item) {
    match t
    case Size(s) => s <= 15
    case Run(sym, e) => (sym == REPEAT && e < 4) || (sym == ZEROS && e < 8) || (sym == LONG_ZEROS && e < 128)
  }

  ghost function ItemBytes(t: Item): seq<nat> {
    match t
    case Size(s) => [s]
    case Run(sym, e) => [sym, e]
  }

  ghost function Flat(items: seq<Item>): seq<nat> {
    if items == [] then [] else Flat(items[..|items| - 1]) + ItemBytes(items[|items| - 1])
  }

  ghost predicate AllValid(items: seq<Item>) {
    forall i :: 0 <= i < |items| ==> ValidItem(items[i])
  }

  /** What one item stands for after the sizes `before`; a repeat needs something to repeat. */
  ghost function Meaning(before: seq<nat>, t: Item): seq<nat> {
    match t
    case Size(s) => [s]
    case Run(sym, e) =>
      if sym == REPEAT then (if before == [] then [] else Rep(before[|before| - 1], e + 3))
      else if sym == ZEROS then Rep(0, e + 3)
      else Rep(0, e + 11)
  }

  /** The sizes a packed sequence stands for. */
  ghost function Unpacked(items: seq<Item>): seq<nat> {
    if items == [] then [] else
      var before := Unpacked(items[..|items| - 1]);
      before + Meaning(before, items[|items| - 1])
  }

  /** No repeat comes first, so a decoder never has to repeat nothing. */
  ghost predicate RepeatsSomething(items: seq<Item>) {
    forall i :: 0 <= i < |items| && items[i].Run? && items[i].symbol == REPEAT ==> Unpacked(items[..i]) != []
  }

  lemma AppendItem(items: seq<Item>, t: Item)
    requires AllValid(items) && ValidItem(t) && RepeatsSomething(items)
    requires t.Run? && t.symbol == REPEAT ==> Unpacked(items) != []
    ensures AllValid(items + [t]) && RepeatsSomething(items + [t])
    ensures Unpacked(items + [t]) == Unpacked(items) + Meaning(Unpacked(items), t)
    ensures Flat(items + [t]) == Flat(items) + ItemBytes(t)
  {
    assert (items + [t])[..|items|] == items;
    forall i | 0 <= i <= |items| ensures (items + [t])[..i] == items[..i] {}
  }

  /** The symbol an item sends. */
  ghost function SymbolOf(t: Item): nat {
    match t
    case Size(s) => s
    case Run(sym, _) => sym
  }

  /** Every symbol written has been counted once per item. */
  ghost predicate Tallied(items: seq<Item>, counts: seq<nat>) {
    && |counts| == 19 && Sum(counts) == |items|
    && forall i :: 0 <= i < |items| ==> SymbolOf(items[i]) < 19 && counts[SymbolOf(items[i])] > 0
  }

  lemma TallyOne(items: seq<Item>, counts: seq<nat>, t: Item)
    requires Tallied(items, counts) && ValidItem(t)
    ensures SymbolOf(t) < 19 == |counts|
    ensures Tallied(items + [t], counts[SymbolOf(t) := counts[SymbolOf(t)] + 1])
  {
    var k := SymbolOf(t);
    RemoveShare(counts, counts, k);
    var counts' := counts[k := counts[k] + 1];
    RemoveShare(counts', counts', k);
    assert RemoveAt(counts, k) == RemoveAt(counts', k);
  }

  lemma {:induction false} UnpackedGrows(items: seq<Item>)
    requires AllValid(items) && RepeatsSomething(items)
    ensures |Unpacked(items)| >= |items|
  {
    if items != [] {
      var n := |items| - 1;
      FrontRepeats(items, n);
      UnpackedGrows(items[..n]);
      assert items[..n] + [items[n]] == items && items[n] in items;
      MeaningGrows(Unpacked(items[..n]), items[n]);
    }
  }

  lemma FrontRepeats(items: seq<Item>, n: nat)
    requires AllValid(items) && RepeatsSomething(items) && n <= |items|
    ensures AllValid(items[..n]) && RepeatsSomething(items[..n])
  {
    hide Unpacked;
    forall i | 0 <= i < n ensures items[..n][i] == items[i] && items[..n][..i] == items[..i] {}
  }

  lemma MeaningGrows(before: seq<nat>, t: Item)
    requires ValidItem(t) && (t.Run? && t.symbol == REPEAT ==> before != [])
    ensures |Meaning(before, t)| >= 1
  {
  }

  /** Sizes one by one. */
  ghost function Each(x: nat, n: nat): (r: seq<Item>)
    ensures |r| == n
  {
    if n == 0 then [] else Each(x, n - 1) + [Size(x)]
  }

  /** A run of zeros: as many as one item takes, again and again, and what is left. */
  ghost function ZeroItems(n: nat): seq<Item> {
    if n >= 138 then [Run(LONG_ZEROS, 127)] + ZeroItems(n - 138)
    else if n >= 11 then [Run(LONG_ZEROS, n - 11)]
    else if n >= 3 then [Run(ZEROS, n - 3)]
    else Each(0, n)
  }

  /** Repeats of the size before, six at a time. */
  ghost function RepeatItems(x: nat, n: nat): seq<Item> {
    if n >= 6 then [Run(REPEAT, 3)] + RepeatItems(x, n - 6)
    else if n >= 3 then [Run(REPEAT, n - 3)]
    else Each(x, n)
  }

  ghost function RunItems(x: nat, n: nat): seq<Item>
    requires n > 0
  {
    if x == 0 then ZeroItems(n) else [Size(x)] + RepeatItems(x, n - 1)
  }

  /** How long the last run of equal sizes is. */
  ghost function LastRun(sizes: seq<nat>): (n: nat)
    ensures n <= |sizes| && (sizes != [] ==> n > 0)
  {
    if |sizes| <= 1 then |sizes|
    else if sizes[|sizes| - 2] == sizes[|sizes| - 1] then 1 + LastRun(sizes[..|sizes| - 1])
    else 1
  }

  /** The sizes run by run. */
  ghost function RunByRun(sizes: seq<nat>): seq<Item> {
    if sizes == [] then [] else
      var n := |sizes| - LastRun(sizes);
      RunByRun(sizes[..n]) + RunItems(sizes[|sizes| - 1], |sizes| - n)
  }

  ghost predicate TightRun(base: seq<nat>, x: nat, n: nat, items: seq<Item>, zeros: nat, repeats: nat)
    requires n > 0
  {
    && items == RunByRun(base) + Flushed(x, n)
    && (if x == 0 then zeros == n % 138 && repeats == 0 else zeros == 0 && repeats == (n - 1) % 6)
  }

  /** The held-back rest completes the run. */
  lemma TightEnd(base: seq<nat>, x: nat, n: nat, items: seq<Item>, zeros: nat, repeats: nat)
    requires n > 0 && Fresh(base, x) && TightRun(base, x, n, items, zeros, repeats)
    ensures RunByRun(base + Rep(x, n)) == items + if x == 0 then ZeroItems(zeros) else RepeatItems(x, repeats)
  {
    hide RunByRun, Flushed, ZeroItems, RepeatItems, RunItems;
    RunDone(base, x, n);
    RunSplit(x, n);
  }

  /** One more of the run: held back, or another full item. */
  lemma TightMore(base: seq<nat>, x: nat, n: nat, items: seq<Item>, zeros: nat, repeats: nat)
    requires n > 0 && TightRun(base, x, n, items, zeros, repeats)
    ensures x == 0 && zeros < 137 ==> TightRun(base, x, n + 1, items, zeros + 1, 0)
    ensures x == 0 && zeros == 137 ==> TightRun(base, x, n + 1, items + [Run(LONG_ZEROS, 127)], 0, 0)
    ensures x != 0 && repeats < 5 ==> TightRun(base, x, n + 1, items, 0, repeats + 1)
    ensures x != 0 && repeats == 5 ==> TightRun(base, x, n + 1, items + [Run(REPEAT, 3)], 0, 0)
  {
    hide RunByRun;
    Quotients(n, 138);
    Quotients(n - 1, 6);
  }

  lemma Quotients(n: nat, d: nat)
    requires d > 0
    ensures n % d < d - 1 ==> (n + 1) / d == n / d && (n + 1) % d == n % d + 1
    ensures n % d == d - 1 ==> (n + 1) / d == n / d + 1 && (n + 1) % d == 0
  {
    var q, r := n / d, n % d;
    if r < d - 1 { ModUnique(n + 1, d, q, r + 1); } else { ModUnique(n + 1, d, q + 1, 0); }
  }

  /** The first of a run. */
  lemma TightNew(base: seq<nat>, x: nat)
    ensures x == 0 ==> TightRun(base, x, 1, RunByRun(base), 1, 0)
    ensures x != 0 ==> TightRun(base, x, 1, RunByRun(base) + [Size(x)], 0, 0)
  {
    hide RunByRun;
  }

  ghost predicate Fresh(base: seq<nat>, x: nat) {
    base == [] || base[|base| - 1] != x
  }

  lemma {:induction false} LastRunIs(base: seq<nat>, x: nat, n: nat)
    requires Fresh(base, x) && n > 0
    ensures LastRun(base + Rep(x, n)) == n
  {
    var all := base + Rep(x, n);
    if n > 1 {
      LastRunIs(base, x, n - 1);
      assert all[..|all| - 1] == base + Rep(x, n - 1);
    }
  }

  lemma RunDone(base: seq<nat>, x: nat, n: nat)
    requires Fresh(base, x) && n > 0
    ensures RunByRun(base + Rep(x, n)) == RunByRun(base) + RunItems(x, n)
  {
    LastRunIs(base, x, n);
    assert (base + Rep(x, n))[..|base|] == base;
  }

  ghost function Full(t: Item, k: nat): seq<Item> {
    if k == 0 then [] else Full(t, k - 1) + [t]
  }

  /** What has been written of a run so far: full items. */
  ghost function Flushed(x: nat, n: nat): seq<Item>
    requires n > 0
  {
    if x == 0 then Full(Run(LONG_ZEROS, 127), n / 138) else [Size(x)] + Full(Run(REPEAT, 3), (n - 1) / 6)
  }

  lemma {:induction false} FullFront(t: Item, k: nat)
    ensures Full(t, k + 1) == [t] + Full(t, k)
  {
    if k == 0 {
      assert Full(t, 0) == [];
    } else {
      FullFront(t, k - 1);
    }
  }

  lemma {:induction false} ZerosSplit(n: nat)
    ensures ZeroItems(n) == Full(Run(LONG_ZEROS, 127), n / 138) + ZeroItems(n % 138)
  {
    if n >= 138 {
      ZerosSplit(n - 138);
      FullFront(Run(LONG_ZEROS, 127), n / 138 - 1);
    }
  }

  lemma {:induction false} RepeatsSplit(x: nat, n: nat)
    ensures RepeatItems(x, n) == Full(Run(REPEAT, 3), n / 6) + RepeatItems(x, n % 6)
  {
    if n >= 6 {
      RepeatsSplit(x, n - 6);
      FullFront(Run(REPEAT, 3), n / 6 - 1);
    }
  }

  /** Full items, and what is held back: the whole run. */
  lemma RunSplit(x: nat, n: nat)
    requires n > 0
    ensures x == 0 ==> RunItems(x, n) == Flushed(x, n) + ZeroItems(n % 138)
    ensures x != 0 ==> RunItems(x, n) == Flushed(x, n) + RepeatItems(x, (n - 1) % 6)
  {
    hide ZeroItems, RepeatItems, Full;
    if x == 0 { ZerosSplit(n); } else { RepeatsSplit(x, n - 1); }
  }

  /** The packer's state: what it has written, and the run it still holds back. */
  class Packer {
    var packed: seq<nat>        // packed_code_sizes
    var counts: seq<nat>        // m_huff_count[2]
    var zeros: nat              // rle_z_count
    var repeats: nat            // rle_repeat_count
    var prev: nat               // prev_code_size
    ghost var items: seq<Item>
    ghost var base: seq<nat>    // the sizes before the run of equal ones
    ghost var run: nat          // how long that run is

    ghost predicate Written()
      reads `items, `packed, `counts
    {
      AllValid(items) && RepeatsSomething(items) && packed == Flat(items) && Tallied(items, counts)
    }

    ghost predicate EndsWith(x: nat)
      reads `items
    {
      Unpacked(items) != [] && Unpacked(items)[|Unpacked(items)| - 1] == x
    }

    ghost predicate Valid()
      reads this
    {
      && Written()
      && zeros < 138 && repeats < 6 && (zeros == 0 || repeats == 0)
      && (prev == 255 || prev <= 15)
      && (repeats > 0 ==> 1 <= prev <= 15)
      && (zeros > 0 ==> prev == 0)
      && (zeros == 0 && prev <= 15 ==> EndsWith(prev))
    }

    /** What has been written is the packing of the sizes before the run and as much of the run as fills items. */
    ghost predicate Tight()
      reads this
    {
      if run == 0 then base == [] && items == [] && prev == 255 && zeros == 0 && repeats == 0
      else prev <= 15 && Fresh(base, prev) && Taken() == base + Rep(prev, run) && TightRun(base, prev, run, items, zeros, repeats)
    }

    /** The sizes taken in so far. */
    ghost function Taken(): seq<nat>
      reads this
    {
      Unpacked(items) + Rep(if repeats > 0 then prev else 0, zeros + repeats)
    }

    lemma WhatIsWritten()
      requires Written()
      ensures AllValid(items) && RepeatsSomething(items) && packed == Flat(items) && Tallied(items, counts)
    {
    }

    constructor ()
      ensures Valid() && Tight() && Taken() == []
    {
      packed, counts, zeros, repeats, prev, items, base, run := [], Rep(0, 19), 0, 0, 255, [], [], 0;
      new;
      SumZero(19);
    }

    /** Writes one item and counts its symbol. */
    method Write(t: Item)
      requires Written() && ValidItem(t) && (t.Run? && t.symbol == REPEAT ==> Unpacked(items) != [])
      modifies `packed, `counts, `items
      ensures Written() && items == old(items) + [t]
      ensures Unpacked(items) == old(Unpacked(items)) + Meaning(old(Unpacked(items)), t)
    {
      hide Unpacked, Flat, Meaning, RepeatsSomething, AllValid, Tallied;
      TallyOne(items, counts, t);
      AppendItem(items, t);
      match t {
        case Size(s) =>
          counts := counts[s := counts[s] + 1];
          packed := packed + [s];
        case Run(sym, e) =>
          counts := counts[sym := counts[sym] + 1];
          packed := packed + [sym, e];
      }
      items := items + [t];
    }

    /** Writes one item that stands for `n` sizes `x`. */
    method WriteRun(t: Item, ghost x: nat, ghost n: nat)
      requires Written() && ValidItem(t) && n > 0 && (t.Run? && t.symbol == REPEAT ==> EndsWith(x))
      requires Meaning(Unpacked(items), t) == Rep(x, n)
      modifies `packed, `counts, `items
      ensures Written() && Unpacked(items) == old(Unpacked(items)) + Rep(x, n) && EndsWith(x) && items == old(items) + [t]
    {
      Write(t);
    }

    /** Writes a short run size by size. */
    method WriteEach(x: nat, n: nat)
      requires Written() && n > 0 && x <= 15
      modifies `packed, `counts, `items
      ensures Written() && Unpacked(items) == old(Unpacked(items)) + Rep(x, n) && EndsWith(x) && items == old(items) + Each(x, n)
    {
      hide Unpacked, Flat, Meaning, Written, RepeatsSomething, AllValid, Tallied, EndsWith;
      NoItems(items);
      var left := n;
      while left > 0
        invariant left <= n && Written() && (left < n ==> EndsWith(x)) && items == old(items) + Each(x, n - left)
        invariant Unpacked(items) == old(Unpacked(items)) + Rep(x, n - left)
      {
        OneMeaning(Unpacked(items), x);
        WriteRun(Size(x), x, 1);
        RepAdd(x, n - left, 1);
        left := left - 1;
      }
    }

    /** `TDEFL_RLE_PREV_CODE_SIZE`: writes the held-back repeats of the previous size. */
    method FlushRepeats()
      requires Valid()
      modifies this
      ensures Valid() && Taken() == old(Taken()) && repeats == 0 && zeros == old(zeros) && prev == old(prev)
      ensures items == old(items) + RepeatItems(prev, old(repeats)) && base == old(base) && run == old(run)
    {
      hide Unpacked, Flat, Meaning, Written, RepeatsSomething, AllValid, Tallied;
      NoItems(items);
      if repeats == 0 { return; }
      if repeats < 3 {
        WriteEach(prev, repeats);
      } else {
        RepeatMeaning(Unpacked(items), prev, repeats);
        WriteRun(Run(REPEAT, repeats - 3), prev, repeats);
      }
      repeats := 0;
    }

    /** `TDEFL_RLE_ZERO_CODE_SIZE`: writes the held-back zeros. */
    method FlushZeros()
      requires Written() && zeros <= 138
      modifies this
      ensures Written() && zeros == 0 && repeats == old(repeats) && prev == old(prev)
      ensures Unpacked(items) == old(Unpacked(items)) + Rep(0, old(zeros))
      ensures old(zeros) > 0 ==> EndsWith(0)
      ensures items == old(items) + ZeroItems(old(zeros)) && base == old(base) && run == old(run)
    {
      hide Unpacked, Flat, Meaning, Written, RepeatsSomething, AllValid, Tallied;
      NoItems(items);
      if zeros == 0 { return; }
      if zeros < 3 {
        WriteEach(0, zeros);
      } else if zeros <= 10 {
        ZeroMeaning(Unpacked(items), zeros);
        WriteRun(Run(ZEROS, zeros - 3), 0, zeros);
      } else {
        ZeroMeaning(Unpacked(items), zeros);
        WriteRun(Run(LONG_ZEROS, zeros - 11), 0, zeros);
      }
      zeros := 0;
    }

    /** What is written with all that is held back is the packing of all sizes so far. */
    lemma EndOfRun()
      requires Tight()
      ensures RunByRun(Taken()) == items + if prev == 0 then ZeroItems(zeros) else if prev == 255 then [] else RepeatItems(prev, repeats)
      ensures run > 0 && prev == 0 ==> repeats == 0
      ensures run > 0 && 0 < prev <= 15 ==> zeros == 0
      ensures run == 0 ==> prev == 255 && zeros == 0 && repeats == 0 && Taken() == []
      ensures run > 0 ==> prev <= 15 && Taken() != [] && Taken()[|Taken()| - 1] == prev
    {
      hide Unpacked, ZeroItems, RepeatItems, RunByRun, TightRun;
      if run > 0 {
        TightEnd(base, prev, run, items, zeros, repeats);
        RunParts(base, prev, run, items, zeros, repeats);
      } else {
        NothingShort();
        NothingTaken();
        NoItems(items);
      }
    }

    lemma NothingTaken()
      requires Tight()
      ensures run == 0 ==> Taken() == []
    {
    }

    /** A zero is held back; after 138 of them they are written. */
    method TakeZero()
      requires Valid() && Tight()
      modifies this
      ensures Valid() && Tight() && Taken() == old(Taken()) + [0]
    {
      hide Unpacked, Flat, Meaning, Written, RepeatsSomething, AllValid, Tallied, RunByRun, TightRun, ZeroItems, RepeatItems;
      EndOfRun();
      NoRepeats(prev);
      NoItems(items);
      if prev != 0 { base, run := Taken(), 0; }
      FlushRepeats();
      HoldZero();
    }

    /** A zero after zeros, or after nothing that is held back. */
    method HoldZero()
      requires Valid() && repeats == 0
      requires if prev == 0 then run > 0 && Tight() else run == 0 && base == Taken() && items == RunByRun(base) && Fresh(base, 0)
      modifies this
      ensures Valid() && Tight() && Taken() == old(Taken()) + [0]
    {
      hide Unpacked, Flat, Meaning, Written, RepeatsSomething, AllValid, Tallied, RunByRun, TightRun, ZeroItems, RepeatItems;
      ghost var taken := Taken();
      assert taken == Unpacked(items) + Rep(0, zeros);
      if prev == 0 { TightMore(base, 0, run, items, zeros, repeats); } else { TightNew(base, 0); }
      zeros, run, prev := zeros + 1, run + 1, 0;
      assert taken + [0] == Unpacked(items) + Rep(0, zeros);
      if zeros == 138 {
        LongRun();
        FlushZeros();
      }
      assert taken + [0] == base + Rep(0, run);
    }

    /** A size that differs from the one before is written at once. */
    method TakeNew(codeSize: nat)
      requires Valid() && zeros == 0 && 1 <= codeSize <= 15 && codeSize != prev
      requires RunByRun(Taken()) == items + RepeatItems(prev, repeats) && (prev == 255 ==> Taken() == [])
      requires prev != 255 ==> Taken() != [] && Taken()[|Taken()| - 1] == prev
      modifies this
      ensures Valid() && Tight() && Taken() == old(Taken()) + [codeSize]
    {
      hide Unpacked, Flat, Meaning, Written, RepeatsSomething, AllValid, Tallied, RunByRun, TightRun, RepeatItems;
      base, run := Taken(), 1;
      FlushRepeats();
      OneMeaning(Unpacked(items), codeSize);
      WriteRun(Size(codeSize), codeSize, 1);
      TightNew(base, codeSize);
      assert Rep(codeSize, 1) == Rep(codeSize, 0) + [codeSize];
      prev := codeSize;
    }

    /** A size like the one before is held back; after six of them they are written. */
    method TakeSame()
      requires Valid() && Tight() && zeros == 0 && 1 <= prev <= 15
      modifies this
      ensures Valid() && Tight() && Taken() == old(Taken()) + [prev] && prev == old(prev)
    {
      hide Unpacked, Flat, Meaning, Written, RepeatsSomething, AllValid, Tallied, RunByRun, TightRun;
      ghost var taken := Taken();
      assert taken == Unpacked(items) + Rep(prev, repeats);
      TightMore(base, prev, run, items, zeros, repeats);
      repeats, run := repeats + 1, run + 1;
      assert taken + [prev] == Unpacked(items) + Rep(prev, repeats);
      if repeats == 6 { FlushSix(); }
      assert taken + [prev] == base + Rep(prev, run);
    }

    /** Takes in one code size. */
    method Take(codeSize: nat)
      requires Valid() && Tight() && codeSize <= 15
      modifies this
      ensures Valid() && Tight() && Taken() == old(Taken()) + [codeSize]
    {
      hide TightRun, RunByRun, Unpacked, Written, ZeroItems, RepeatItems;
      if codeSize == 0 {
        TakeZero();
      } else {
        EndOfRun();
        NoRepeats(prev);
        NoItems(items);
        EndZeros();
        if codeSize != prev {
          TakeNew(codeSize);
        } else {
          TakeSame();
        }
      }
    }

    /** Writes the zeros held back, as another size comes. */
    method EndZeros()
      requires Valid()
      modifies this
      ensures Valid() && Taken() == old(Taken()) && zeros == 0 && prev == old(prev) && repeats == old(repeats)
      ensures items == old(items) + ZeroItems(old(zeros)) && base == old(base) && run == old(run)
    {
      hide Unpacked, Flat, Meaning, Written, RepeatsSomething, AllValid, Tallied;
      ghost var taken := Taken();
      FlushZeros();
      assert taken == Unpacked(items) + Rep(prev, repeats);
    }

    /** The flush after the sixth repeat. */
    method FlushSix()
      requires Written() && repeats == 6 && zeros == 0 && 1 <= prev <= 15 && EndsWith(prev)
      modifies this
      ensures Written() && repeats == 0 && zeros == 0 && prev == old(prev) && EndsWith(prev) && base == old(base) && run == old(run)
      ensures Unpacked(items) == old(Unpacked(items)) + Rep(prev, 6) && items == old(items) + [Run(REPEAT, 3)]
    {
      hide Unpacked, Flat, Meaning, Written, RepeatsSomething, AllValid, Tallied;
      RepeatMeaning(Unpacked(items), prev, 6);
      WriteRun(Run(REPEAT, 3), prev, 6);
      repeats := 0;
    }

    /** Writes whatever is still held back. */
    method Finish()
      requires Valid() && Tight()
      modifies this
      ensures Written() && Unpacked(items) == old(Taken()) && items == RunByRun(old(Taken()))
    {
      hide Written, RunByRun, ZeroItems, RepeatItems, Tight, Unpacked;
      EndOfRun();
      NoRepeats(prev);
      NoItems(items);
      if repeats > 0 { FlushRepeats(); } else { FlushZeros(); }
      NoItems(items);
    }
  }

  lemma RunParts(base: seq<nat>, x: nat, n: nat, items: seq<Item>, zeros: nat, repeats: nat)
    requires n > 0 && TightRun(base, x, n, items, zeros, repeats)
    ensures x == 0 ==> repeats == 0
    ensures x != 0 ==> zeros == 0
  {
  }

  lemma NothingShort()
    ensures RunByRun([]) == []
  {
  }

  lemma NoRepeats(x: nat)
    ensures RepeatItems(x, 0) == [] && ZeroItems(0) == []
  {
  }

  lemma LongRun()
    ensures ZeroItems(138) == [Run(LONG_ZEROS, 127)]
  {
    assert ZeroItems(0) == [];
  }

  lemma NoItems(items: seq<Item>)
    ensures items + [] == items
  {
  }

  lemma OneMeaning(before: seq<nat>, x: nat)
    ensures Meaning(before, Size(x)) == Rep(x, 1)
  {
    assert Rep(x, 1) == Rep(x, 0) + [x];
  }

  lemma RepeatMeaning(before: seq<nat>, x: nat, n: nat)
    requires before != [] && before[|before| - 1] == x && 3 <= n
    ensures Meaning(before, Run(REPEAT, n - 3)) == Rep(x, n)
  {
  }

  lemma ZeroMeaning(before: seq<nat>, n: nat)
    requires 3 <= n
    ensures Meaning(before, Run(ZEROS, n - 3)) == Rep(0, n)
    ensures n >= 11 ==> Meaning(before, Run(LONG_ZEROS, n - 11)) == Rep(0, n)
  {
  }

  lemma {:induction false} SumZero(n: nat)
    ensures Sum(Rep(0, n)) == 0
  {
    if n > 0 {
      SumZero(n - 1);
      SumConcat(Rep(0, n - 1), [0]);
      assert Sum([0]) == 0 + Sum([]);
    }
  }

  /** Packs a sequence of code sizes and counts the symbols it will send. */
  method PackCodeSizes(sizes: seq<nat>) returns (packed: seq<nat>, counts: seq<nat>, ghost items: seq<Item>)
    requires forall i :: 0 <= i < |sizes| ==> sizes[i] <= 15
    ensures packed == Flat(RunByRun(sizes)) && Tallied(RunByRun(sizes), counts)
    ensures items == RunByRun(sizes) && Unpacked(items) == sizes && packed == Flat(items)
    ensures AllValid(items) && RepeatsSomething(items) && Tallied(items, counts) && |items| <= |sizes|
  {
    hide *;
    var p := new Packer();
    var i := 0;
    while i < |sizes|
      invariant i <= |sizes| && fresh(p) && p.Valid() && p.Tight() && p.Taken() == sizes[..i]
    {
      p.Take(sizes[i]);
      assert sizes[..i + 1] == sizes[..i] + [sizes[i]];
      i := i + 1;
    }
    assert sizes[..i] == sizes;
    p.Finish();
    p.WhatIsWritten();
    UnpackedGrows(p.items);
    return p.packed, p.counts, p.items;
  }
}
