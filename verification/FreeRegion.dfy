/** Looking for free address space around an address, one allocation granule after another.  What
    the operating system answers is a parameter. */
module FreeRegion {
  import opened Bits

  /** The answer to a query: none, or the extent of equal pages around the address. */
  datatype Region = Unknown | Free(base: nat, size: nat) | Taken(allocation: nat, base: nat, size: nat)

  /** `grants` says where an allocation would succeed. */
  datatype System = System(granularity: nat, low: nat, high: nat, query: nat -> Region, grants: nat -> bool)

  /** What the system keeps to: answers are about the address asked for, a reservation begins on a
      granule and has no free pages up to the end of the answer, and memory held is not free. */
  ghost predicate Honest(sys: System, held: set<nat>) {
    && 0 < sys.granularity <= sys.low <= sys.high && sys.granularity % 0x1000 == 0
    && (forall a: nat :: !sys.query(a).Unknown? ==> sys.query(a).base <= a < sys.query(a).base + sys.query(a).size)
    && (forall a: nat :: sys.query(a).Taken? ==> Aligned(sys.query(a).allocation, sys.granularity) && sys.query(a).allocation <= a)
    && (forall a: nat, x: nat :: sys.query(a).Taken? && sys.query(x).Free? ==>
      x < sys.query(a).allocation || sys.query(a).base + sys.query(a).size <= x)
    && (forall a :: a in held ==> !sys.query(a).Free?)
  }

  predicate Aligned(a: int, granularity: nat)
    requires granularity > 0
  {
    a % granularity == 0
  }

  function RoundDown(a: nat, granularity: nat): nat
    requires granularity > 0
  {
    a - a % granularity
  }

  function RoundUp(a: nat, granularity: nat): nat
    requires granularity > 0
  {
    RoundDown(a + (granularity - 1), granularity)
  }

  lemma AlignedMultiple(a: int, q: int, granularity: nat)
    requires granularity > 0
    ensures Aligned(q * granularity, granularity)
    ensures Aligned(a, granularity) ==> a == (a / granularity) * granularity
  {
    ModUnique(q * granularity, granularity, q, 0);
  }

  /** Two granules lie at least a granule apart. */
  lemma GranulesApart(a: int, b: int, g: nat)
    requires g > 0 && Aligned(a, g) && Aligned(b, g)
    ensures a < b ==> a + g <= b
    ensures Aligned(a - g, g) && Aligned(a + g, g)
  {
    var p, q := a / g, b / g;
    AlignedMultiple(a, p - 1, g);
    AlignedMultiple(a, p + 1, g);
    AlignedMultiple(b, q, g);
    assert (p - 1) * g == p * g - g && (p + 1) * g == p * g + g;
    if p < q { Growing(p + 1, q, g); }
    if q <= p { Growing(q, p, g); }
  }

  lemma Growing(p: int, q: int, g: nat)
    requires p <= q
    ensures p * g <= q * g
  {
  }

  lemma Rounding(a: nat, g: nat)
    requires g > 0
    ensures Aligned(RoundDown(a, g), g) && RoundDown(a, g) <= a < RoundDown(a, g) + g
    ensures Aligned(RoundUp(a, g), g) && a <= RoundUp(a, g) < a + g
  {
    RoundDownAligned(a, g);
    RoundDownAligned(a + (g - 1), g);
  }

  lemma RoundDownAligned(a: nat, g: nat)
    requires g > 0
    ensures Aligned(RoundDown(a, g), g)
  {
    assert a == (a / g) * g + a % g;
    AlignedMultiple(a, a / g, g);
  }

  /** No granule from `from` to before `to` is free. */
  ghost predicate NoneFree(sys: System, from: int, to: int)
    requires sys.granularity > 0
  {
    forall x: nat :: from <= x < to && Aligned(x, sys.granularity) ==> !sys.query(x).Free?
  }

  lemma NoneBetween(sys: System, from: int, to: int)
    requires sys.granularity > 0 && Aligned(from, sys.granularity) && to <= from + sys.granularity
    ensures NoneFree(sys, from + 1, to)
  {
    forall x: nat ensures !(from < x < to && Aligned(x, sys.granularity)) {
      GranulesApart(from, if Aligned(x, sys.granularity) then x else from, sys.granularity);
    }
  }

  /** A query fails at a granule from `min` on that lies below `top` with nothing free between. */
  ghost predicate FailsBelow(sys: System, min: nat, top: nat)
    requires sys.granularity > 0
  {
    exists t: nat :: min <= t < top && Aligned(t, sys.granularity) && sys.query(t).Unknown? && NoneFree(sys, t + 1, top)
  }

  /** The same above `address`, up to `max`. */
  ghost predicate FailsAbove(sys: System, address: nat, max: nat)
    requires sys.granularity > 0
  {
    exists t: nat :: address < t <= max && Aligned(t, sys.granularity) && sys.query(t).Unknown? && NoneFree(sys, address + 1, t)
  }

  /** Every granule from the beginning of a reservation to the end of an answer is taken. */
  lemma ReservationTaken(sys: System, held: set<nat>, a: nat)
    requires Honest(sys, held) && sys.query(a).Taken?
    ensures NoneFree(sys, sys.query(a).allocation, sys.query(a).base + sys.query(a).size)
  {
  }

  /** `FindPrevFreeRegion`: the nearest free granule below, down to `min`; 0 if there is none. */
  method FindPrevFreeRegion(sys: System, ghost held: set<nat>, address: nat, min: nat) returns (r: nat)
    requires Honest(sys, held) && sys.granularity <= min <= address
    ensures r != 0 ==> min <= r && r + sys.granularity <= address && Aligned(r, sys.granularity) && sys.query(r).Free?
    ensures r != 0 ==> NoneFree(sys, r + 1, RoundDown(address, sys.granularity))
    ensures r == 0 ==> FailsBelow(sys, min, RoundDown(address, sys.granularity)) || NoneFree(sys, min, RoundDown(address, sys.granularity))
  {
    var g := sys.granularity;
    ghost var top := RoundDown(address, g);
    Rounding(address, g);
    var t: int := RoundDown(address, g) - g;
    GranulesApart(top, top, g);
    NoneBetween(sys, t, top);
    while t >= min
      invariant t + g <= top && Aligned(t, g) && NoneFree(sys, t + 1, top)
    {
      var region := sys.query(t);
      if region.Unknown? { return 0; }
      if region.Free? { return t; }
      ReservationTaken(sys, held, t);
      if region.allocation < g {
        assert NoneFree(sys, min, top);
        return 0;
      }
      ghost var was := t;
      t := region.allocation - g;
      GranulesApart(region.allocation, was, g);
      forall x: nat | t + 1 <= x < top && Aligned(x, g) ensures !sys.query(x).Free? {
        GranulesApart(t, x, g);
      }
    }
    r := 0;
  }

  /** `FindNextFreeRegion`: the nearest free granule above, up to `max`; 0 if there is none. */
  method FindNextFreeRegion(sys: System, ghost held: set<nat>, address: nat, max: nat) returns (r: nat)
    requires Honest(sys, held)
    ensures r != 0 ==> address < r <= max && Aligned(r, sys.granularity) && sys.query(r).Free?
    ensures r != 0 ==> NoneFree(sys, address + 1, r)
    ensures r == 0 ==> FailsAbove(sys, address, max) || NoneFree(sys, address + 1, max + 1)
  {
    var g := sys.granularity;
    Rounding(address, g);
    GranulesApart(RoundDown(address, g), 0, g);
    var t := RoundDown(address, g) + g;
    NoneBetween(sys, RoundDown(address, g), t);
    while t <= max
      invariant address < t && Aligned(t, g) && NoneFree(sys, address + 1, t)
      decreases max - t
    {
      var region := sys.query(t);
      if region.Unknown? { return 0; }
      if region.Free? { return t; }
      ReservationTaken(sys, held, t);
      ghost var was := t;
      var end := region.base + region.size;
      t := RoundUp(end, g);
      Rounding(end, g);
      forall x: nat | address + 1 <= x < t && Aligned(x, g) ensures !sys.query(x).Free? {
        if x >= end { GranulesApart(x, t, g); }
      }
    }
    r := 0;
  }
}
