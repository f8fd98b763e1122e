/** Choosing between overlapping candidate lists of encrypted regions: one sweep over all regions
    in address order. */
module RegionSweep {
  import RegionTable

  /** An entropy; none stands for a value that compares with nothing. */
  datatype Entropy = Entropy(value: real) | NotANumber

  predicate Greater(a: Entropy, b: Entropy) {
    a.Entropy? && b.Entropy? && a.value > b.value
  }

  /** A region together with the list it comes from. */
  datatype Reference = Reference(list: nat, rva: nat, size: nat)

  function End(r: Reference): nat { r.rva + r.size }

  /** `regions_intersect` */
  predicate Intersect(a: Reference, b: Reference) {
    if End(a) < End(b) then End(a) > b.rva else End(b) > a.rva
  }

  predicate Covers(r: Reference, x: nat) { r.rva <= x < End(r) }

  /** For regions that are not empty: they have an address in common. */
  lemma IntersectIs(a: Reference, b: Reference)
    requires a.size > 0 && b.size > 0
    ensures Intersect(a, b) <==> exists x: nat :: Covers(a, x) && Covers(b, x)
  {
    var x := if a.rva <= b.rva then b.rva else a.rva;
    if Intersect(a, b) { assert Covers(a, x) && Covers(b, x); }
  }

  predicate Before(a: Reference, b: Reference) {
    a.rva < b.rva || (a.rva == b.rva && a.size <= b.size)
  }

  /** Sorted by address and then size; each list's own regions ascend and are disjoint. */
  ghost predicate Sorted(regions: seq<Reference>, lists: nat) {
    && (forall i, j :: 0 <= i < j < |regions| ==> Before(regions[i], regions[j]))
    && (forall i, j :: 0 <= i < j < |regions| && regions[i].list == regions[j].list ==> End(regions[i]) <= regions[j].rva)
    && (forall i :: 0 <= i < |regions| ==> regions[i].list < lists)
  }

  /** Every reference is to a region of a list, and no region is referred to twice. */
  ghost predicate Refers(refs: seq<Reference>, lists: seq<seq<RegionTable.Region>>, at: seq<nat>) {
    && |at| == |refs|
    && (forall k :: 0 <= k < |refs| ==> RefersAt(refs[k], lists, at[k]))
    && (forall k, l :: 0 <= k < l < |refs| && refs[k].list == refs[l].list ==> at[k] != at[l])
  }

  ghost predicate RefersAt(r: Reference, lists: seq<seq<RegionTable.Region>>, i: nat) {
    && r.list < |lists| && i < |lists[r.list]|
    && r.rva == lists[r.list][i].rva && r.size == lists[r.list][i].size
  }

  /** The regions of the lists that the parsers accept, put in order, are fit for the sweep. */
  lemma AcceptedAreSorted(refs: seq<Reference>, lists: seq<seq<RegionTable.Region>>, at: seq<nat>)
    requires Refers(refs, lists, at) && forall k :: 0 <= k < |lists| ==> RegionTable.Ascending(lists[k], 0, 0)
    requires forall i, j :: 0 <= i < j < |refs| ==> Before(refs[i], refs[j])
    ensures Sorted(refs, |lists|)
  {
    hide RegionTable.Ascending;
    forall i | 0 <= i < |refs| ensures refs[i].list < |lists| { assert RefersAt(refs[i], lists, at[i]); }
    forall i, j | 0 <= i < j < |refs| && refs[i].list == refs[j].list ensures End(refs[i]) <= refs[j].rva {
      assert RefersAt(refs[i], lists, at[i]) && RefersAt(refs[j], lists, at[j]);
      var l := lists[refs[i].list];
      if at[i] < at[j] {
        RegionTable.AscendingApart(l, 0, 0, at[i], at[j]);
      } else {
        RegionTable.AscendingApart(l, 0, 0, at[j], at[i]);
      }
    }
  }

  /** Two regions in order that do not intersect: the first ends before the second begins. */
  lemma Apart(a: Reference, b: Reference)
    requires Before(a, b)
    ensures !Intersect(a, b) ==> End(a) <= b.rva
    ensures End(a) <= b.rva ==> forall x: nat :: !(Covers(a, x) && Covers(b, x))
  {
  }

  /** The surviving regions among the first `k` follow one another without overlap, and none but
      the best reaches past its beginning. */
  ghost predicate Clear(regions: seq<Reference>, out: seq<bool>, k: nat, best: nat) {
    && best < k <= |regions| && (forall i :: 0 <= i < |regions| ==> regions[i].list < |out|)
    && !out[regions[best].list]
    && (forall i :: 0 <= i < k && i != best && !out[regions[i].list] ==> i < best && End(regions[i]) <= regions[best].rva)
    && (forall i, j :: 0 <= i < j < k && !out[regions[i].list] && !out[regions[j].list] ==> End(regions[i]) <= regions[j].rva)
  }

  /** Why a list is gone: one of its regions intersects a region of another candidate, and its entropy is
      greater than that of the other, or not less if its own region comes later. */
  ghost predicate Because(regions: seq<Reference>, was: seq<bool>, entropies: seq<Entropy>, x: nat) {
    exists i: nat, j: nat :: Rivals(regions, was, entropies, x, i, j)
  }

  ghost predicate Rivals(regions: seq<Reference>, was: seq<bool>, entropies: seq<Entropy>, x: nat, i: nat, j: nat) {
    && i < |regions| && j < |regions| && regions[i].list == x && regions[j].list != x
    && regions[j].list < |was| && !was[regions[j].list] && x < |entropies| && regions[j].list < |entropies|
    && if i < j then Intersect(regions[i], regions[j]) && Greater(entropies[x], entropies[regions[j].list])
       else Intersect(regions[j], regions[i]) && !Greater(entropies[regions[j].list], entropies[x])
  }

  ghost predicate Justified(regions: seq<Reference>, was: seq<bool>, out: seq<bool>, entropies: seq<Entropy>) {
    && |out| == |was| == |entropies|
    && (forall x :: 0 <= x < |was| ==> (was[x] ==> out[x]) && (out[x] && !was[x] ==> Because(regions, was, entropies, x)))
  }

  /** List `x` is a candidate whose entropy is strictly the lowest. */
  ghost predicate Lowest(was: seq<bool>, entropies: seq<Entropy>, x: nat) {
    && |was| == |entropies| && x < |was| && !was[x]
    && forall y :: 0 <= y < |was| && y != x && !was[y] ==> Greater(entropies[y], entropies[x])
  }

  /** What is finally kept. */
  ghost predicate Resolved(regions: seq<Reference>, was: seq<bool>, out: seq<bool>, entropies: seq<Entropy>) {
    && Justified(regions, was, out, entropies) && (forall i :: 0 <= i < |regions| ==> regions[i].list < |out|)
    && (forall i, j :: 0 <= i < j < |regions| && !out[regions[i].list] && !out[regions[j].list] ==> End(regions[i]) <= regions[j].rva)
    && ((exists i :: 0 <= i < |regions| && !was[regions[i].list]) ==> exists i :: 0 <= i < |regions| && !out[regions[i].list])
    && (forall x: nat :: Lowest(was, entropies, x) ==> !out[x])
  }

  /** The next region becomes the best: the old best ends before it. */
  lemma MoveBest(regions: seq<Reference>, out: seq<bool>, i: nat, best: nat)
    requires Sorted(regions, |out|) && Clear(regions, out, i, best) && i < |regions|
    requires End(regions[best]) <= regions[i].rva && !out[regions[i].list]
    ensures Clear(regions, out, i + 1, i)
  {
    forall a | 0 <= a < i && !out[regions[a].list] ensures End(regions[a]) <= regions[i].rva {
      if a != best { assert Before(regions[best], regions[i]); }
    }
  }

  lemma SkipOne(regions: seq<Reference>, out: seq<bool>, i: nat, best: nat)
    requires Clear(regions, out, i, best) && i < |regions| && out[regions[i].list]
    ensures Clear(regions, out, i + 1, best)
  {
  }

  /** Fewer lists leave fewer regions. */
  lemma DropBest(regions: seq<Reference>, was: seq<bool>, out: seq<bool>, entropies: seq<Entropy>, i: nat, best: nat)
    requires Sorted(regions, |out|) && Clear(regions, out, i, best) && Justified(regions, was, out, entropies) && i < |regions|
    requires regions[best].list != regions[i].list && !out[regions[i].list] && Intersect(regions[best], regions[i])
    requires Greater(entropies[regions[best].list], entropies[regions[i].list])
    ensures Clear(regions, out[regions[best].list := true], i + 1, i)
    ensures Justified(regions, was, out[regions[best].list := true], entropies) && !Lowest(was, entropies, regions[best].list)
  {
    hide Intersect;
    var x := regions[best].list;
    var out2 := out[x := true];
    assert Rivals(regions, was, entropies, x, best, i);
    assert Because(regions, was, entropies, x);
    hide Because, Rivals;
    forall a | 0 <= a < i && !out2[regions[a].list] ensures End(regions[a]) <= regions[i].rva {
      assert a != best;
      assert Before(regions[best], regions[i]);
    }
  }

  lemma DropCurrent(regions: seq<Reference>, was: seq<bool>, out: seq<bool>, entropies: seq<Entropy>, i: nat, best: nat)
    requires Sorted(regions, |out|) && Clear(regions, out, i, best) && Justified(regions, was, out, entropies) && i < |regions|
    requires regions[best].list != regions[i].list && !out[regions[i].list] && Intersect(regions[best], regions[i])
    requires !Greater(entropies[regions[best].list], entropies[regions[i].list])
    ensures Clear(regions, out[regions[i].list := true], i + 1, best)
    ensures Justified(regions, was, out[regions[i].list := true], entropies) && !Lowest(was, entropies, regions[i].list)
  {
    hide Intersect;
    var x := regions[i].list;
    assert Rivals(regions, was, entropies, x, i, best);
    assert Because(regions, was, entropies, x);
    hide Because, Rivals;
  }

  lemma AllApart(regions: seq<Reference>, was: seq<bool>, out: seq<bool>, best: nat, entropies: seq<Entropy>)
    requires Sorted(regions, |out|) && Clear(regions, out, |regions|, best) && Justified(regions, was, out, entropies)
    requires NoneLost(was, out, entropies)
    ensures Resolved(regions, was, out, entropies)
  {
    hide Intersect, Because, Lowest, Before;
  }

  /** No address belongs to regions of two different surviving lists, nor twice to one list. */
  lemma NoAddressTwice(regions: seq<Reference>, was: seq<bool>, out: seq<bool>, entropies: seq<Entropy>, i: nat, j: nat, x: nat)
    requires Resolved(regions, was, out, entropies) && Sorted(regions, |out|) && i < j < |regions|
    requires !out[regions[i].list] && !out[regions[j].list]
    ensures !(Covers(regions[i], x) && Covers(regions[j], x))
  {
    hide Justified, Lowest;
  }

  lemma Unchanged(regions: seq<Reference>, was: seq<bool>, entropies: seq<Entropy>)
    requires Sorted(regions, |entropies|) && |was| == |entropies|
    requires forall i :: 0 <= i < |regions| ==> was[regions[i].list]
    ensures Resolved(regions, was, was, entropies)
  {
    hide Because;
  }

  lemma Begin(regions: seq<Reference>, was: seq<bool>, entropies: seq<Entropy>, best: nat)
    requires Sorted(regions, |entropies|) && |was| == |entropies| && best < |regions| && !was[regions[best].list]
    requires forall i :: 0 <= i < best ==> was[regions[i].list]
    ensures Clear(regions, was, best + 1, best) && Justified(regions, was, was, entropies)
    ensures NoneLost(was, was, entropies)
  {
    hide Because;
  }

  ghost predicate NoneLost(was: seq<bool>, out: seq<bool>, entropies: seq<Entropy>) {
    |was| == |out| && forall x: nat :: Lowest(was, entropies, x) ==> !out[x]
  }

  lemma StillNotLost(was: seq<bool>, out: seq<bool>, entropies: seq<Entropy>, x: nat)
    requires NoneLost(was, out, entropies) && x < |out| && !Lowest(was, entropies, x)
    ensures NoneLost(was, out[x := true], entropies)
  {
  }

  /** One region of the sweep. */
  method Visit(regions: seq<Reference>, entropies: seq<Entropy>, eliminated: array<bool>, i: nat, best: nat, ghost was: seq<bool>)
    returns (best': nat)
    requires Sorted(regions, |entropies|) && eliminated.Length == |entropies| && i < |regions|
    requires Clear(regions, eliminated[..], i, best) && Justified(regions, was, eliminated[..], entropies)
    requires NoneLost(was, eliminated[..], entropies)
    modifies eliminated
    ensures Clear(regions, eliminated[..], i + 1, best') && Justified(regions, was, eliminated[..], entropies)
    ensures NoneLost(was, eliminated[..], entropies)
  {
    hide Because, Intersect, Before, Justified, NoneLost, Lowest, Greater;
    ghost var out := eliminated[..];
    var currentList, bestList := regions[i].list, regions[best].list;
    best' := best;
    if currentList == bestList {
      MoveBest(regions, out, i, best);
      best' := i;
    } else if eliminated[currentList] {
      SkipOne(regions, out, i, best);
    } else if !Intersect(regions[best], regions[i]) {
      Apart(regions[best], regions[i]);
      MoveBest(regions, out, i, best);
      best' := i;
    } else if Greater(entropies[bestList], entropies[currentList]) {
      DropBest(regions, was, out, entropies, i, best);
      StillNotLost(was, out, entropies, bestList);
      eliminated[bestList] := true;
      assert eliminated[..] == out[bestList := true];
      best' := i;
    } else {
      DropCurrent(regions, was, out, entropies, i, best);
      StillNotLost(was, out, entropies, currentList);
      eliminated[currentList] := true;
      assert eliminated[..] == out[currentList := true];
    }
  }

  /** The sweep of `dearxan_resolve_encrypted_region_lists` over the sorted regions. */
  method Sweep(regions: seq<Reference>, entropies: seq<Entropy>, eliminated: array<bool>)
    requires Sorted(regions, |entropies|) && eliminated.Length == |entropies|
    modifies eliminated
    ensures |old(eliminated[..])| == |entropies| && Resolved(regions, old(eliminated[..]), eliminated[..], entropies)
  {
    hide Because, Intersect, Before, Justified, NoneLost, Resolved, Clear;
    ghost var was := eliminated[..];
    var best: nat := 0;
    while best < |regions| && eliminated[regions[best].list]
      invariant best <= |regions| && eliminated[..] == was
      invariant forall i :: 0 <= i < best ==> was[regions[i].list]
    {
      best := best + 1;
    }
    if best == |regions| {
      Unchanged(regions, was, entropies);
      return;
    }
    Begin(regions, was, entropies, best);
    var i := best + 1;
    while i < |regions|
      invariant i <= |regions| && Clear(regions, eliminated[..], i, best)
      invariant Justified(regions, was, eliminated[..], entropies) && NoneLost(was, eliminated[..], entropies)
    {
      best := Visit(regions, entropies, eliminated, i, best, was);
      i := i + 1;
    }
    AllApart(regions, was, eliminated[..], best, entropies);
  }
}
