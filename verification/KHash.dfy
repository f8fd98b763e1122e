/** The open-addressed hash table: triangular probing, tombstones, and an in-place rehash that
    kicks elements out of the buckets it needs. */
module KHash {
  import opened Optional
  import opened Bits
  import opened ProbePath

  datatype Flag = Live | Deleted | Empty

  /** `(khint_t)(n * 0.77 + 0.5)`: the whole number nearest to 77 parts in a hundred. */
  function UpperBound(n: nat): (u: nat)
    ensures n >= 4 ==> n < 2 * u && u < n
    ensures 100 * u <= 77 * n + 50 < 100 * u + 100
  {
    (77 * n + 50) / 100
  }

  /** `kroundup32`: the least power of two that is no smaller. */
  function RoundUp(x: nat): (m: nat)
    ensures x <= Pow2(m) && (m > 0 ==> Pow2(m - 1) < x)
  {
    RoundFrom(x, 0)
  }

  function RoundFrom(x: nat, m: nat): (k: nat)
    requires m > 0 ==> Pow2(m - 1) < x
    ensures x <= Pow2(k) && (k > 0 ==> Pow2(k - 1) < x)
    decreases x - Pow2(m)
  {
    if x <= Pow2(m) then m else RoundFrom(x, m + 1)
  }

  function CountIf(flags: seq<Flag>, f: Flag): (c: nat)
    ensures c <= |flags|
  {
    if flags == [] then 0 else CountIf(flags[..|flags| - 1], f) + if flags[|flags| - 1] == f then 1 else 0
  }

  lemma {:induction false} CountSet(flags: seq<Flag>, i: nat, f: Flag, v: Flag)
    requires i < |flags|
    ensures CountIf(flags[i := v], f) + (if flags[i] == f then 1 else 0) == CountIf(flags, f) + if v == f then 1 else 0
  {
    var n := |flags| - 1;
    if i == n {
      assert flags[i := v][..n] == flags[..n];
    } else {
      CountSet(flags[..n], i, f, v);
      assert flags[i := v][..n] == flags[..n][i := v];
    }
  }

  lemma {:induction false} SomeFlag(flags: seq<Flag>, f: Flag) returns (i: nat)
    requires CountIf(flags, f) > 0
    ensures i < |flags| && flags[i] == f
  {
    var n := |flags| - 1;
    if flags[n] == f { i := n; } else { i := SomeFlag(flags[..n], f); }
  }

  lemma {:induction false} CountAll(flags: seq<Flag>)
    ensures CountIf(flags, Live) + CountIf(flags, Deleted) + CountIf(flags, Empty) == |flags|
  {
    if flags != [] { CountAll(flags[..|flags| - 1]); }
  }

  function AllEmpty(n: nat): (s: seq<Flag>)
    ensures |s| == n && forall i :: 0 <= i < n ==> s[i] == Empty
  {
    seq(n, i requires 0 <= i < n => Empty)
  }

  lemma {:induction false} CountNone(flags: seq<Flag>, f: Flag)
    requires forall i :: 0 <= i < |flags| ==> flags[i] != f
    ensures CountIf(flags, f) == 0
  {
    if flags != [] { CountNone(flags[..|flags| - 1], f); }
  }

  /** Probe `d` is reached: no bucket before it on the path is empty. */
  ghost predicate Reached(flags: seq<Flag>, h: nat, d: nat)
    requires |flags| > 0
  {
    d < |flags| && forall e :: 0 <= e < d ==> flags[Path(h, |flags|, e)] != Empty
  }

  /** An empty bucket lies on every path. */
  lemma FirstEmpty(flags: seq<Flag>, h: nat, m: nat) returns (d: nat)
    requires |flags| == Pow2(m) && CountIf(flags, Empty) > 0
    ensures Reached(flags, h, d) && flags[Path(h, |flags|, d)] == Empty
  {
    hide Path, CountIf;
    var i := SomeFlag(flags, Empty);
    var far := EveryBucket(h, m, i);
    d := 0;
    while flags[Path(h, |flags|, d)] != Empty
      invariant d <= far && forall e :: 0 <= e < d ==> flags[Path(h, |flags|, e)] != Empty
      decreases far - d
    {
      d := d + 1;
    }
  }

  /** Where each live key sits, and how many probes lead there. */
  ghost predicate Indexed<K(!new), V>(hash: K -> nat, flags: seq<Flag>, keys: seq<K>, vals: seq<V>, steps: seq<nat>,
    at: map<K, nat>, model: map<K, V>)
  {
    && |flags| > 0 && |steps| == |flags| && |keys| == |flags| && |vals| == |flags| && at.Keys == model.Keys
    && (forall k :: k in model ==> at[k] < |flags| && flags[at[k]] == Live && keys[at[k]] == k && vals[at[k]] == model[k])
    && (forall i :: 0 <= i < |flags| && flags[i] == Live ==> keys[i] in model && at[keys[i]] == i)
    && (forall i :: 0 <= i < |flags| && flags[i] == Live ==> OnPath(flags, hash(keys[i]), steps[i], i))
  }

  ghost predicate OnPath(flags: seq<Flag>, h: nat, d: nat, i: nat)
    requires |flags| > 0
  {
    Reached(flags, h, d) && Path(h, |flags|, d) == i
  }

  /** Bucket `i` holds key `k`. */
  predicate Has<K(==)>(flags: seq<Flag>, keys: seq<K>, i: nat, k: K)
    requires i < |flags| <= |keys|
  {
    flags[i] == Live && keys[i] == k
  }

  lemma HasIs<K>(flags: seq<Flag>, keys: seq<K>, i: nat, k: K)
    requires i < |flags| <= |keys|
    ensures Has(flags, keys, i, k) <==> flags[i] == Live && keys[i] == k
  {
  }

  /** The first `d` probes found neither an empty bucket nor the key. */
  ghost predicate Missed<K(!new)>(hash: K -> nat, flags: seq<Flag>, keys: seq<K>, k: K, d: nat)
    requires 0 < |flags| <= |keys|
  {
    forall e :: 0 <= e < d ==> flags[Path(hash(k), |flags|, e)] != Empty && !Has(flags, keys, Path(hash(k), |flags|, e), k)
  }

  /** Where an absent key goes: the last tombstone on its path before the first empty bucket, or else that bucket. */
  ghost predicate Spot(flags: seq<Flag>, h: nat, x: nat) {
    |flags| > 0 && x < |flags| && exists d: nat, e: nat :: SpotAt(flags, h, x, d, e)
  }

  ghost predicate SpotAt(flags: seq<Flag>, h: nat, x: nat, d: nat, e: nat)
    requires x < |flags|
  {
    && d <= e && Path(h, |flags|, d) == x && flags[Path(h, |flags|, e)] == Empty
    && (forall j :: 0 <= j < e ==> flags[Path(h, |flags|, j)] != Empty)
    && (if d < e then flags[x] == Deleted && LiveBetween(flags, h, d + 1, e) else LiveBetween(flags, h, 0, e))
  }

  ghost predicate LiveBetween(flags: seq<Flag>, h: nat, d: nat, e: nat)
    requires |flags| > 0
  {
    forall j :: d <= j < e ==> flags[Path(h, |flags|, j)] == Live
  }

  /** As long as the path has missed a present key, the key is still ahead and the path is not at an end. */
  lemma StillAhead<K(!new), V>(hash: K -> nat, flags: seq<Flag>, keys: seq<K>, vals: seq<V>, steps: seq<nat>,
    at: map<K, nat>, model: map<K, V>, k: K, d: nat)
    requires Indexed(hash, flags, keys, vals, steps, at, model) && Missed(hash, flags, keys, k, d)
    ensures k in model ==> flags[Path(hash(k), |flags|, d)] != Empty
  {
    hide Path;
    if k in model {
      var j := at[k];
      assert OnPath(flags, hash(keys[j]), steps[j], j);
      assert Has(flags, keys, Path(hash(k), |flags|, steps[j]), k);
    }
  }

  /** A bucket that holds the key is the key's place. */
  lemma Found<K(!new), V>(hash: K -> nat, flags: seq<Flag>, keys: seq<K>, vals: seq<V>, steps: seq<nat>,
    at: map<K, nat>, model: map<K, V>, k: K, i: nat)
    requires Indexed(hash, flags, keys, vals, steps, at, model) && i < |flags| && Has(flags, keys, i, k)
    ensures k in model && at[k] == i && vals[i] == model[k]
  {
  }

  /** Where a key is while the table is being rehashed: in a bucket not yet emptied, in its new
      bucket, or in hand. */
  datatype Place = Old(i: nat) | New(i: nat) | Hand

  datatype Entry<K, V> = Entry(key: K, val: V)

  /** Every key of the map is in exactly one place, with its value; the keys in new buckets are
      where probing for them leads. */
  ghost predicate Moving<K(!new), V>(hash: K -> nat, was: seq<Flag>, now: seq<Flag>, keys: seq<K>, vals: seq<V>, steps: seq<nat>,
    place: map<K, Place>, model: map<K, V>, hand: Option<Entry<K, V>>)
  {
    && |now| > 0 && |steps| == |now| && |keys| == |vals| >= |now| && |keys| >= |was| && place.Keys == model.Keys
    && (forall k :: k in model ==> Placed(was, now, keys, vals, place[k], Entry(k, model[k]), hand))
    && (forall i :: 0 <= i < |was| && was[i] == Live ==> keys[i] in model && place[keys[i]] == Old(i))
    && (forall i :: 0 <= i < |now| && now[i] == Live ==> keys[i] in model && place[keys[i]] == New(i))
    && (forall i :: 0 <= i < |now| && now[i] == Live ==> OnPath(now, hash(keys[i]), steps[i], i))
    && (hand.Some? ==> hand.value.key in model && place[hand.value.key] == Hand)
    && (forall i :: 0 <= i < |now| ==> now[i] != Deleted)
  }

  ghost predicate Placed<K, V>(was: seq<Flag>, now: seq<Flag>, keys: seq<K>, vals: seq<V>, p: Place, e: Entry<K, V>, hand: Option<Entry<K, V>>)
  {
    match p
    case Old(i) => i < |was| && i < |keys| && i < |vals| && was[i] == Live && keys[i] == e.key && vals[i] == e.val
    case New(i) => i < |now| && i < |keys| && i < |vals| && now[i] == Live && keys[i] == e.key && vals[i] == e.val
    case Hand => hand == Some(e)
  }

  /** Taking a key out of its old bucket. */
  lemma PickUp<K(!new), V>(hash: K -> nat, was: seq<Flag>, now: seq<Flag>, keys: seq<K>, vals: seq<V>, steps: seq<nat>,
    place: map<K, Place>, model: map<K, V>, i: nat)
    requires Moving(hash, was, now, keys, vals, steps, place, model, None) && i < |was| && was[i] == Live
    ensures Moving(hash, was[i := Deleted], now, keys, vals, steps, place[keys[i] := Hand], model, Some(Entry(keys[i], vals[i])))
  {
    hide Path, Reached;
    var was2, place' := was[i := Deleted], place[keys[i] := Hand];
    forall k | k in model ensures Placed(was2, now, keys, vals, place'[k], Entry(k, model[k]), Some(Entry(keys[i], vals[i]))) {
      assert Placed(was, now, keys, vals, place[k], Entry(k, model[k]), None);
    }
  }

  /** Claiming an empty new bucket keeps every path reached. */
  lemma PathsKept(now: seq<Flag>, i: nat, h: nat, d: nat, j: nat)
    requires i < |now| && OnPath(now, h, d, j)
    ensures OnPath(now[i := Live], h, d, j)
  {
    hide Path;
  }

  /** Putting the key in hand into an empty new bucket that holds nothing. */
  lemma PutDown<K(!new), V>(hash: K -> nat, was: seq<Flag>, now: seq<Flag>, keys: seq<K>, vals: seq<V>, steps: seq<nat>,
    place: map<K, Place>, model: map<K, V>, e: Entry<K, V>, i: nat, d: nat)
    requires Moving(hash, was, now, keys, vals, steps, place, model, Some(e)) && i < |now| && now[i] == Empty
    requires OnPath(now, hash(e.key), d, i) && (i < |was| ==> was[i] != Live)
    ensures Moving(hash, was, now[i := Live], keys[i := e.key], vals[i := e.val], steps[i := d], place[e.key := New(i)], model, None)
  {
    hide Path, Reached;
    var now2, keys2, vals2, steps2, place2 := now[i := Live], keys[i := e.key], vals[i := e.val], steps[i := d], place[e.key := New(i)];
    forall k | k in model ensures Placed(was, now2, keys2, vals2, place2[k], Entry(k, model[k]), None) {
      assert Placed(was, now, keys, vals, place[k], Entry(k, model[k]), Some(e));
      assert Placed(was, now, keys, vals, place[e.key], Entry(e.key, model[e.key]), Some(e));
    }
    forall j | 0 <= j < |now2| && now2[j] == Live ensures OnPath(now2, hash(keys2[j]), steps2[j], j) {
      if j == i {
        PathsKept(now, i, hash(e.key), d, i);
      } else {
        PathsKept(now, i, hash(keys[j]), steps[j], j);
      }
    }
  }

  /** Putting it into a bucket still in use: the element there is kicked out and is in hand next. */
  lemma KickOut<K(!new), V>(hash: K -> nat, was: seq<Flag>, now: seq<Flag>, keys: seq<K>, vals: seq<V>, steps: seq<nat>,
    place: map<K, Place>, model: map<K, V>, e: Entry<K, V>, i: nat, d: nat)
    requires Moving(hash, was, now, keys, vals, steps, place, model, Some(e)) && i < |now| && now[i] == Empty
    requires OnPath(now, hash(e.key), d, i) && i < |was| && was[i] == Live
    ensures Moving(hash, was[i := Deleted], now[i := Live], keys[i := e.key], vals[i := e.val], steps[i := d],
                   place[keys[i] := Hand][e.key := New(i)], model, Some(Entry(keys[i], vals[i])))
  {
    hide Path, Reached;
    var was2, now2, keys2, vals2, steps2 := was[i := Deleted], now[i := Live], keys[i := e.key], vals[i := e.val], steps[i := d];
    var place2 := place[keys[i] := Hand][e.key := New(i)];
    var out := Some(Entry(keys[i], vals[i]));
    assert Placed(was, now, keys, vals, place[e.key], Entry(e.key, model[e.key]), Some(e));
    assert Placed(was, now, keys, vals, place[keys[i]], Entry(keys[i], model[keys[i]]), Some(e));
    forall k | k in model ensures Placed(was2, now2, keys2, vals2, place2[k], Entry(k, model[k]), out) {
      assert Placed(was, now, keys, vals, place[k], Entry(k, model[k]), Some(e));
    }
    forall j | 0 <= j < |now2| && now2[j] == Live ensures OnPath(now2, hash(keys2[j]), steps2[j], j) {
      if j == i {
        PathsKept(now, i, hash(e.key), d, i);
      } else {
        PathsKept(now, i, hash(keys[j]), steps[j], j);
      }
    }
  }

  /** The rehash starts with every key in its old bucket. */
  lemma StartMoving<K(!new), V>(hash: K -> nat, was: seq<Flag>, keys: seq<K>, vals: seq<V>, steps: seq<nat>, at: map<K, nat>,
    model: map<K, V>, n: nat, keys2: seq<K>, vals2: seq<V>, steps2: seq<nat>) returns (place: map<K, Place>)
    requires was != [] ==> Indexed(hash, was, keys, vals, steps, at, model)
    requires was == [] ==> model == map[] && keys == [] && vals == []
    requires n > 0 && |steps2| == n && keys <= keys2 && vals <= vals2 && |keys2| == |vals2| >= n && |keys2| >= |was|
    ensures Moving(hash, was, AllEmpty(n), keys2, vals2, steps2, place, model, None)
  {
    hide Path, Reached;
    place := map k | k in model :: Old(at[k]);
    forall k | k in model ensures Placed(was, AllEmpty(n), keys2, vals2, place[k], Entry(k, model[k]), None) {
    }
  }

  /** When no old bucket is left, the new ones hold the whole map. */
  lemma DoneMoving<K(!new), V>(hash: K -> nat, was: seq<Flag>, now: seq<Flag>, keys: seq<K>, vals: seq<V>, steps: seq<nat>,
    place: map<K, Place>, model: map<K, V>) returns (at: map<K, nat>)
    requires Moving(hash, was, now, keys, vals, steps, place, model, None)
    requires forall i :: 0 <= i < |was| ==> was[i] != Live
    ensures Indexed(hash, now, keys[..|now|], vals[..|now|], steps, at, model)
  {
    hide Path, Reached;
    forall k | k in model ensures place[k].New? {
      assert Placed(was, now, keys, vals, place[k], Entry(k, model[k]), None);
    }
    at := map k | k in model :: place[k].i;
    forall k | k in model ensures at[k] < |now| && now[at[k]] == Live && keys[at[k]] == k && vals[at[k]] == model[k] {
      assert Placed(was, now, keys, vals, place[k], Entry(k, model[k]), None);
    }
  }

  class Table<K(==, !new, 0), V(0)> {
    const hash: K -> nat
    var nBuckets: nat
    var size: nat
    var nOccupied: nat
    var upperBound: nat
    var flags: seq<Flag>
    var keys: seq<K>
    var vals: seq<V>
    ghost var bits: nat             // nBuckets is two to this power
    ghost var steps: seq<nat>       // how many probes lead to each live bucket
    ghost var at: map<K, nat>       // the bucket of each key
    ghost var model: map<K, V>      // the finite map the table stands for

    ghost predicate Counted()
      reads `nBuckets, `size, `nOccupied, `upperBound, `flags, `bits
    {
      && |flags| == nBuckets == Pow2(bits) && nBuckets >= 4 && upperBound == UpperBound(nBuckets)
      && size == CountIf(flags, Live) && nOccupied == size + CountIf(flags, Deleted) <= upperBound
    }

    ghost predicate Valid()
      reads this
    {
      && size == |model|
      && (nBuckets == 0 ==> nOccupied == upperBound == 0 && flags == [] && keys == [] && vals == [] && model == map[])
      && (nBuckets > 0 ==> Counted() && Indexed(hash, flags, keys, vals, steps, at, model))
    }

    /** `kh_init` */
    constructor (hash: K -> nat)
      ensures Valid() && model == map[] && this.hash == hash
    {
      this.hash, nBuckets, size, nOccupied, upperBound := hash, 0, 0, 0, 0;
      flags, keys, vals, steps, at, model := [], [], [], [], map[], map[];
    }

    /** `kh_get`: the bucket of a key, or the number of buckets when it is absent. */
    method Get(k: K) returns (x: nat)
      requires Valid()
      ensures k in model <==> x != nBuckets
      ensures k in model ==> x < nBuckets == |flags| == |keys| == |vals| && flags[x] == Live && keys[x] == k && vals[x] == model[k]
    {
      hide Path, Indexed, CountIf, UpperBound, Valid, Counted;
      Shapes();
      if nBuckets == 0 { return 0; }
      Opened();
      ghost var stop := EmptyAhead(k);
      var h := hash(k);
      var i, step: nat := h % nBuckets, 0;
      NextProbe(h, nBuckets, 0);
      var wrapped := false;
      while !wrapped && flags[i] != Empty && (flags[i] == Deleted || keys[i] != k)
        invariant step <= stop && !wrapped && i == Path(h, nBuckets, step) && Missed(hash, flags, keys, k, step)
        decreases stop - step
      {
        NextProbe(h, nBuckets, step);
        step := step + 1;
        i := (i + step) % nBuckets;
        ProbesDiffer(h, bits, 0, step);
        if i == h % nBuckets { wrapped := true; }
      }
      StillAhead(hash, flags, keys, vals, steps, at, model, k, step);
      if Has(flags, keys, i, k) { Found(hash, flags, keys, vals, steps, at, model, k, i); }
      x := if wrapped || flags[i] != Live then nBuckets else i;
    }

    lemma SameLengths()
      requires Valid() && nBuckets > 0
      ensures |flags| == |keys| == |vals| == nBuckets == Pow2(bits)
    {
    }

    /** At least one bucket is empty, so every path comes to one within its first probes. */
    lemma EmptyAhead(k: K) returns (d: nat)
      requires Valid() && nBuckets > 0
      ensures |flags| == nBuckets && d < nBuckets && flags[Path(hash(k), nBuckets, d)] == Empty
    {
      CountAll(flags);
      d := FirstEmpty(flags, hash(k), bits);
    }

    /** The first empty bucket on a path through the new flags. */
    method FindFree(newFlags: seq<Flag>, h: nat, ghost m: nat) returns (i: nat, ghost d: nat)
      requires |newFlags| == Pow2(m) && CountIf(newFlags, Empty) > 0
      ensures i < |newFlags| && newFlags[i] == Empty && OnPath(newFlags, h, d, i)
    {
      hide Path, CountIf;
      ghost var stop := FirstEmpty(newFlags, h, m);
      var step: nat := 0;
      i := h % |newFlags|;
      NextProbe(h, |newFlags|, 0);
      while newFlags[i] != Empty
        invariant step <= stop && i == Path(h, |newFlags|, step)
        invariant forall e :: 0 <= e < step ==> newFlags[Path(h, |newFlags|, e)] != Empty
        decreases stop - step
      {
        NextProbe(h, |newFlags|, step);
        step := step + 1;
        i := (i + step) % |newFlags|;
      }
      d := step;
    }

    lemma FreeLeft(newFlags: seq<Flag>)
      requires (forall i :: 0 <= i < |newFlags| ==> newFlags[i] != Deleted) && CountIf(newFlags, Live) < |newFlags|
      ensures CountIf(newFlags, Empty) > 0
    {
      CountAll(newFlags);
      CountNone(newFlags, Deleted);
    }

    /** The kick-out process for one element: it goes where probing leads; if that bucket is still
        in use in the old table, its element is next. */
    method Settle(newFlags0: seq<Flag>, key0: K, val0: V, ghost m: nat, ghost steps0: seq<nat>, ghost place0: map<K, Place>)
      returns (newFlags: seq<Flag>, ghost steps': seq<nat>, ghost place: map<K, Place>)
      requires |flags| == nBuckets && |newFlags0| == Pow2(m)
      requires Moving(hash, flags, newFlags0, keys, vals, steps0, place0, model, Some(Entry(key0, val0)))
      requires CountIf(newFlags0, Live) + CountIf(flags, Live) + 1 <= size < |newFlags0|
      modifies `flags, `keys, `vals
      ensures |flags| == nBuckets && |keys| == |old(keys)| && |newFlags| == Pow2(m)
      ensures Moving(hash, flags, newFlags, keys, vals, steps', place, model, None)
      ensures forall i :: 0 <= i < nBuckets && old(flags[i]) != Live ==> flags[i] != Live
      ensures CountIf(newFlags, Live) + CountIf(flags, Live) == CountIf(newFlags0, Live) + old(CountIf(flags, Live)) + 1
    {
      hide Path, CountIf, OnPath, Placed;
      newFlags, steps', place := newFlags0, steps0, place0;
      var key, val := key0, val0;
      ghost var total := CountIf(newFlags, Live) + CountIf(flags, Live);
      while true
        invariant |flags| == nBuckets && |keys| == |old(keys)| && |newFlags| == Pow2(m)
        invariant Moving(hash, flags, newFlags, keys, vals, steps', place, model, Some(Entry(key, val)))
        invariant forall i :: 0 <= i < nBuckets && old(flags[i]) != Live ==> flags[i] != Live
        invariant CountIf(newFlags, Live) + CountIf(flags, Live) == total
        decreases CountIf(flags, Live)
      {
        FreeLeft(newFlags);
        ghost var d;
        var i;
        i, d := FindFree(newFlags, hash(key), m);
        CountSet(newFlags, i, Live, Live);
        if i < nBuckets && flags[i] == Live {
          KickOut(hash, flags, newFlags, keys, vals, steps', place, model, Entry(key, val), i, d);
          CountSet(flags, i, Live, Deleted);
          steps', place := steps'[i := d], place[keys[i] := Hand][key := New(i)];
          newFlags := newFlags[i := Live];
          key, keys := keys[i], keys[i := key];
          val, vals := vals[i], vals[i := val];
          flags := flags[i := Deleted];
        } else {
          PutDown(hash, flags, newFlags, keys, vals, steps', place, model, Entry(key, val), i, d);
          steps', place := steps'[i := d], place[key := New(i)];
          newFlags := newFlags[i := Live];
          keys, vals := keys[i := key], vals[i := val];
          return;
        }
      }
    }

    /** No bucket is a tombstone: what is occupied is live. */
    ghost predicate NoTombstones()
      reads `flags, `size, `nOccupied
    {
      nOccupied == size && forall i :: 0 <= i < |flags| ==> flags[i] != Deleted
    }

    /** Moves every element of the old table, one chain of kicks after another. */
    method MoveAll(n: nat, ghost m: nat, ghost steps0: seq<nat>, ghost place0: map<K, Place>)
      returns (newFlags: seq<Flag>, ghost steps': seq<nat>, ghost place: map<K, Place>)
      requires n == Pow2(m) && |flags| == nBuckets && size < n && CountIf(flags, Live) == size
      requires Moving(hash, flags, AllEmpty(n), keys, vals, steps0, place0, model, None)
      modifies `flags, `keys, `vals
      ensures |flags| == nBuckets && |keys| == |old(keys)| && |newFlags| == n && CountIf(newFlags, Live) == size
      ensures Moving(hash, flags, newFlags, keys, vals, steps', place, model, None)
      ensures forall i :: 0 <= i < nBuckets ==> flags[i] != Live
    {
      hide Path, CountIf, OnPath, Placed;
      newFlags, steps', place := AllEmpty(n), steps0, place0;
      CountNone(newFlags, Live);
      var j := 0;
      while j < nBuckets
        invariant j <= nBuckets == |flags| && |keys| == |old(keys)| && |newFlags| == n
        invariant Moving(hash, flags, newFlags, keys, vals, steps', place, model, None)
        invariant forall i :: 0 <= i < j ==> flags[i] != Live
        invariant CountIf(newFlags, Live) + CountIf(flags, Live) == size
      {
        if flags[j] == Live {
          PickUp(hash, flags, newFlags, keys, vals, steps', place, model, j);
          CountSet(flags, j, Live, Deleted);
          place := place[keys[j] := Hand];
          flags := flags[j := Deleted];
          newFlags, steps', place := Settle(newFlags, keys[j], vals[j], m, steps', place);
        }
        j := j + 1;
      }
      CountNone(flags, Live);
    }

    /** `kh_resize`: grows, shrinks, or only clears the tombstones; a size too small for the
        elements is ignored. */
    method Resize(request: nat)
      requires Valid()
      modifies this
      ensures Valid() && model == old(model) && size == old(size)
      ensures var n := BucketsFor(request);
              if old(size) >= UpperBound(n) then nBuckets == old(nBuckets) && nOccupied == old(nOccupied)
              else nBuckets == n && NoTombstones()
    {
      hide *;
      var n := BucketsFor(request);
      if size >= UpperBound(n) { return; }
      ghost var keys0, vals0 := keys, vals;
      BucketsPower(request);
      UpperAtLeastHalf(n);
      Shapes();
      if nBuckets < n {
        var blankKey: K := *;
        var blankVal: V := *;
        keys := keys + Filler(n - nBuckets, blankKey);
        vals := vals + Filler(n - nBuckets, blankVal);
      }
      Rehash(n, BitsFor(request), keys0, vals0);
    }

    /** The rehash proper, in the key and value arrays as they are, then shrinking them to fit. */
    method Rehash(n: nat, ghost m: nat, ghost keys0: seq<K>, ghost vals0: seq<V>)
      requires n == Pow2(m) && 4 <= n && size < UpperBound(n) < n && |flags| == nBuckets && CountIf(flags, Live) == size == |model|
      requires flags != [] ==> Indexed(hash, flags, keys0, vals0, steps, at, model)
      requires flags == [] ==> model == map[] && keys0 == [] && vals0 == []
      requires keys0 <= keys && vals0 <= vals && |keys| == |vals| == (if nBuckets < n then n else nBuckets)
      modifies this
      ensures Valid() && model == old(model) && size == old(size) && nBuckets == n && NoTombstones()
    {
      hide *;
      ghost var place0 := StartMoving(hash, flags, keys0, vals0, steps, at, model, n, keys, vals, Zeros(n));
      var newFlags;
      ghost var steps', place;
      newFlags, steps', place := MoveAll(n, m, Zeros(n), place0);
      at := DoneMoving(hash, flags, newFlags, keys, vals, steps', place, model);
      MovingShape(hash, flags, newFlags, keys, vals, steps', place, model);
      Fit(n);
      CountNone(newFlags, Deleted);
      flags, nBuckets, nOccupied, upperBound, bits, steps := newFlags, n, size, UpperBound(n), m, steps';
      Closed();
      TombstonesGone();
    }

    /** Cuts the arrays to the new number of buckets when it is smaller. */
    method Fit(n: nat)
      requires |keys| == |vals| == (if nBuckets < n then n else nBuckets)
      modifies `keys, `vals
      ensures keys == old(keys)[..n] && vals == old(vals)[..n]
    {
      if nBuckets > n { keys, vals := keys[..n], vals[..n]; }
    }

    lemma TombstonesGone()
      requires nOccupied == size && forall i :: 0 <= i < |flags| ==> flags[i] != Deleted
      ensures NoTombstones()
    {
    }

    /** Makes room for one more occupied bucket: clears tombstones when the table is mostly
        tombstones, else doubles it. */
    method MakeRoom()
      requires Valid()
      modifies this
      ensures Valid() && model == old(model) && nBuckets > 0 && nOccupied < upperBound
      ensures old(nOccupied < upperBound) ==> nOccupied == old(nOccupied) && flags == old(flags)
      ensures nBuckets == if old(nOccupied < upperBound || nBuckets > 2 * size) then old(nBuckets) else if old(nBuckets) == 0 then 4 else 2 * old(nBuckets)
    {
      hide *;
      TableShape();
      if nOccupied < upperBound { return; }
      if nBuckets > 2 * size {
        SameSize(bits);
        UpperAtLeastHalf(nBuckets);
        ResizeTo(nBuckets - 1, nBuckets);
      } else if nBuckets == 0 {
        OneBucket();
        UpperAtLeastHalf(4);
        ResizeTo(nBuckets + 1, 4);
      } else {
        NextSize(bits);
        UpperAtLeastHalf(2 * nBuckets);
        ResizeTo(nBuckets + 1, 2 * nBuckets);
      }
    }

    /** A resize that is large enough leaves room. */
    method ResizeTo(request: nat, ghost n: nat)
      requires Valid() && BucketsFor(request) == n && size < UpperBound(n) && n >= 4
      modifies this
      ensures Valid() && model == old(model) && nBuckets == n && nOccupied < upperBound
    {
      hide *;
      Resize(request);
      TableShape();
    }

    lemma TableShape()
      requires Valid()
      ensures size <= nOccupied && upperBound == (if nBuckets == 0 then 0 else UpperBound(nBuckets))
      ensures nBuckets > 0 ==> nBuckets == Pow2(bits) && bits >= 2 && nBuckets >= 4 && nOccupied <= upperBound < nBuckets
      ensures nBuckets == 0 ==> size == 0
      ensures NoTombstones() ==> nOccupied == size
    {
      if nBuckets > 0 && bits < 2 { assert Pow2(0) == 1 && Pow2(1) == 2; }
    }

    /** The bucket where a key is, or else where it should go: the last tombstone passed on the
        way, or the empty bucket that ended the search. */
    method Probe(k: K) returns (x: nat, ghost d: nat)
      requires Valid() && nBuckets > 0
      ensures x < nBuckets == |flags| == |keys| && (k in model <==> Has(flags, keys, x, k))
      ensures k !in model ==> flags[x] != Live && OnPath(flags, hash(k), d, x) && Spot(flags, hash(k), x)
    {
      hide Path, Indexed, CountIf, UpperBound;
      SameLengths();
      ghost var stop := EmptyAhead(k);
      var h := hash(k);
      var i, step, site: nat := h % nBuckets, 0, nBuckets;
      ghost var siteStep := 0;
      NextProbe(h, nBuckets, 0);
      x := nBuckets;
      if flags[i] == Empty {
        x := i;
      } else {
        var last := i;
        while flags[i] != Empty && (flags[i] == Deleted || keys[i] != k) && x == nBuckets
          invariant step <= stop && x == nBuckets && i == Path(h, nBuckets, step) && Missed(hash, flags, keys, k, step)
          invariant LiveBetween(flags, h, if site == nBuckets then 0 else siteStep + 1, step)
          invariant site == nBuckets || (site < nBuckets && flags[site] == Deleted && siteStep < step && Path(h, nBuckets, siteStep) == site)
          decreases stop - step
        {
          if flags[i] == Deleted { site, siteStep := i, step; }
          NextProbe(h, nBuckets, step);
          step := step + 1;
          i := (i + step) % nBuckets;
          ProbesDiffer(h, bits, 0, step);
          if i == last { x := site; }
        }
        if x == nBuckets {
          if flags[i] == Empty && site != nBuckets { x := site; } else { x := i; }
        }
      }
      d := if x == i then step else siteStep;
      assert flags[i] == Empty ==> SpotAt(flags, h, x, d, step);
      StillAhead(hash, flags, keys, vals, steps, at, model, k, step);
      if Has(flags, keys, i, k) { Found(hash, flags, keys, vals, steps, at, model, k, i); }
    }

    /** `kh_put`: the key's bucket, and whether it was absent (1), reclaimed a tombstone (2), or
        was already there (0).  The value stays whatever the bucket last held until it is set. */
    method Put(k: K) returns (x: nat, ret: nat)
      requires Valid()
      modifies this
      ensures Valid() && x < nBuckets == |flags| == |keys| == |vals| && flags[x] == Live && keys[x] == k
      ensures ret <= 2 && (ret == 0 <==> k in old(model))
      ensures old(nOccupied < upperBound) ==> nBuckets == old(nBuckets) && nOccupied == old(nOccupied) + if ret == 1 then 1 else 0
      ensures old(nOccupied < upperBound) ==> x < |old(flags)| && (ret == 1 <==> old(flags)[x] == Empty) && (ret == 2 <==> old(flags)[x] == Deleted)
      ensures old(nOccupied < upperBound) && k !in old(model) ==> Spot(old(flags), hash(k), x)
      ensures model == if k in old(model) then old(model) else old(model)[k := vals[x]]
      ensures at.Keys == model.Keys && at[k] == x
    {
      hide *;
      MakeRoom();
      ghost var d;
      x, d := Probe(k);
      SameLengths();
      HasIs(flags, keys, x, k);
      if flags[x] == Live {
        ret := 0;
        IsAt(k, x);
      } else {
        ret := if flags[x] == Empty then 1 else 2;
        Insert(k, x, d);
      }
    }

    lemma IsAt(k: K, x: nat)
      requires Valid() && x < nBuckets == |flags| == |keys| && Has(flags, keys, x, k)
      ensures k in model && k in at && at[k] == x && at.Keys == model.Keys
    {
      Found(hash, flags, keys, vals, steps, at, model, k, x);
    }

    /** Makes a bucket live. */
    method Insert(k: K, x: nat, ghost d: nat)
      requires Valid() && nBuckets > 0 && nOccupied < upperBound && k !in model
      requires x < nBuckets == |flags| == |keys| == |vals| && flags[x] != Live && OnPath(flags, hash(k), d, x)
      modifies `size, `nOccupied, `flags, `keys, `steps, `at, `model
      ensures Valid() && flags == old(flags)[x := Live] && keys == old(keys)[x := k]
      ensures model == old(model)[k := vals[x]] && at == old(at)[k := x] && at.Keys == model.Keys
      ensures nOccupied == old(nOccupied) + if old(flags[x]) == Empty then 1 else 0
    {
      hide *;
      Opened();
      CountSet(flags, x, Live, Live);
      CountSet(flags, x, Deleted, Live);
      AddKey(hash, flags, keys, vals, steps, at, model, k, x, d);
      steps, at, model := steps[x := d], at[k := x], model[k := vals[x]];
      keys := keys[x := k];
      size := size + 1;
      if flags[x] == Empty { nOccupied := nOccupied + 1; }
      flags := flags[x := Live];
      Closed();
    }

    /** `kh_value(h, x) = v` */
    method SetValue(x: nat, v: V)
      requires Valid() && x < nBuckets && x < |flags| && x < |keys| && flags[x] == Live
      modifies `vals, `model
      ensures Valid() && model == old(model)[keys[x] := v]
    {
      vals := vals[x := v];
      model := model[keys[x] := v];
    }

    /** `kh_del`: leaves a tombstone; deleting what is not there does nothing. */
    method Del(x: nat)
      requires Valid() && x <= nBuckets
      modifies `flags, `size, `at, `model
      ensures Valid() && |flags| == |old(flags)|
      ensures model == if x < nBuckets && x < |old(flags)| && x < |keys| && old(flags[x]) == Live then old(model) - {keys[x]} else old(model)
    {
      hide *;
      Shapes();
      if x != nBuckets && flags[x] == Live {
        Opened();
        CountSet(flags, x, Live, Deleted);
        CountSet(flags, x, Deleted, Deleted);
        RemoveKey(hash, flags, keys, vals, steps, at, model, x);
        ghost var at', model' := at - {keys[x]}, model - {keys[x]};
        flags, size := flags[x := Deleted], size - 1;
        at, model := at', model';
        Closed();
      }
    }

    /** What a valid table with buckets consists of. */
    lemma Opened()
      requires Valid() && nBuckets > 0
      ensures size == |model| && Indexed(hash, flags, keys, vals, steps, at, model)
      ensures |flags| == nBuckets == Pow2(bits) && nBuckets >= 4 && upperBound == UpperBound(nBuckets)
      ensures size == CountIf(flags, Live) && nOccupied == size + CountIf(flags, Deleted) <= upperBound
    {
    }

    lemma Closed()
      requires size == |model| && Indexed(hash, flags, keys, vals, steps, at, model)
      requires |flags| == nBuckets == Pow2(bits) && nBuckets >= 4 && upperBound == UpperBound(nBuckets)
      requires size == CountIf(flags, Live) && nOccupied == size + CountIf(flags, Deleted) <= upperBound
      ensures Valid() && at.Keys == model.Keys
    {
    }

    lemma Shapes()
      requires Valid()
      ensures |flags| == |keys| == |vals| == nBuckets && CountIf(flags, Live) == size == |model|
      ensures flags == [] ==> nBuckets == 0 && model == map[]
      ensures flags != [] ==> Indexed(hash, flags, keys, vals, steps, at, model)
    {
    }
  }

  lemma UpperAtLeastHalf(n: nat)
    requires n >= 4
    ensures n < 2 * UpperBound(n) && UpperBound(n) < n
  {
  }

  /** A new key in a bucket that was not live. */
  lemma AddKey<K(!new), V>(hash: K -> nat, flags: seq<Flag>, keys: seq<K>, vals: seq<V>, steps: seq<nat>, at: map<K, nat>,
    model: map<K, V>, k: K, x: nat, d: nat)
    requires Indexed(hash, flags, keys, vals, steps, at, model) && k !in model && x < |flags| && flags[x] != Live
    requires OnPath(flags, hash(k), d, x)
    ensures |steps| == |vals| == |flags| && Indexed(hash, flags[x := Live], keys[x := k], vals, steps[x := d], at[k := x], model[k := vals[x]])
  {
    hide Path, OnPath;
    var flags2, keys2, steps2 := flags[x := Live], keys[x := k], steps[x := d];
    forall j | 0 <= j < |flags2| && flags2[j] == Live ensures OnPath(flags2, hash(keys2[j]), steps2[j], j) {
      if j == x {
        PathsKept(flags, x, hash(k), d, x);
      } else {
        PathsKept(flags, x, hash(keys[j]), steps[j], j);
      }
    }
  }

  lemma PathsAfterDelete(flags: seq<Flag>, x: nat, h: nat, d: nat, j: nat)
    requires x < |flags| && flags[x] == Live && OnPath(flags, h, d, j)
    ensures OnPath(flags[x := Deleted], h, d, j)
  {
    hide Path;
  }

  lemma RemoveKey<K(!new), V>(hash: K -> nat, flags: seq<Flag>, keys: seq<K>, vals: seq<V>, steps: seq<nat>, at: map<K, nat>,
    model: map<K, V>, x: nat)
    requires Indexed(hash, flags, keys, vals, steps, at, model) && x < |flags| && flags[x] == Live
    ensures Indexed(hash, flags[x := Deleted], keys, vals, steps, at - {keys[x]}, model - {keys[x]})
    ensures |model - {keys[x]}| == |model| - 1
  {
    hide Path, OnPath;
    var flags2 := flags[x := Deleted];
    forall j | 0 <= j < |flags2| && flags2[j] == Live ensures OnPath(flags2, hash(keys[j]), steps[j], j) {
      PathsAfterDelete(flags, x, hash(keys[j]), steps[j], j);
    }
    assert model == (model - {keys[x]})[keys[x] := model[keys[x]]];
  }

  /** Rounding up around a power of two. */
  lemma RoundUnique(x: nat, m: nat)
    requires x <= Pow2(m) && m > 0 && Pow2(m - 1) < x
    ensures RoundUp(x) == m
  {
    var r := RoundUp(x);
    if r < m { Pow2Monotone(r, m - 1); }
    if m < r { Pow2Monotone(m, r - 1); }
  }

  lemma Doubles(b: nat)
    requires b >= 2
    ensures Pow2(b + 1) == 2 * Pow2(b) && Pow2(b) == 2 * Pow2(b - 1) && Pow2(b) >= 4
  {
    assert Pow2(b - 1) == 2 * Pow2(b - 2);
  }

  lemma BucketsOf(x: nat, m: nat)
    requires m >= 2 && RoundUp(x) == m
    ensures BucketsFor(x) == Pow2(m)
  {
    hide RoundUp, Pow2;
  }

  lemma SameSize(b: nat)
    requires b >= 2
    ensures BucketsFor(Pow2(b) - 1) == Pow2(b)
  {
    hide *;
    Doubles(b);
    RoundUnique(Pow2(b) - 1, b);
    BucketsOf(Pow2(b) - 1, b);
  }

  lemma NextSize(b: nat)
    requires b >= 2
    ensures BucketsFor(Pow2(b) + 1) == 2 * Pow2(b)
  {
    hide *;
    Doubles(b);
    RoundUnique(Pow2(b) + 1, b + 1);
    BucketsOf(Pow2(b) + 1, b + 1);
  }

  lemma OneBucket()
    ensures BucketsFor(1) == 4
  {
    assert Pow2(0) == 1 && Pow2(2) == 4;
  }

  lemma BucketsPower(request: nat)
    ensures BucketsFor(request) == Pow2(BitsFor(request))
  {
  }

  function Filler<T>(n: nat, x: T): (s: seq<T>)
    ensures |s| == n
  {
    seq(n, _ => x)
  }

  ghost function Zeros(n: nat): (s: seq<nat>)
    ensures |s| == n
  {
    seq(n, _ => 0)
  }

  lemma MovingShape<K(!new), V>(hash: K -> nat, was: seq<Flag>, now: seq<Flag>, keys: seq<K>, vals: seq<V>, steps: seq<nat>,
    place: map<K, Place>, model: map<K, V>)
    requires Moving(hash, was, now, keys, vals, steps, place, model, None)
    ensures |keys| == |vals| && forall i :: 0 <= i < |now| ==> now[i] != Deleted
  {
  }

  /** The number of buckets for a request: a power of two, at least four. */
  function BucketsFor(request: nat): (n: nat)
    ensures n >= 4 && n == Pow2(BitsFor(request)) && n >= request
  {
    Pow2(BitsFor(request))
  }

  function BitsFor(request: nat): (m: nat)
    ensures m >= 2
  {
    if RoundUp(request) < 2 then 2 else RoundUp(request)
  }

  /** One use of the table by a client. */
  datatype Op<K, V> = Look(key: K) | Store(key: K, val: V) | Remove(key: K)

  ghost function Effect<K, V>(m: map<K, V>, op: Op<K, V>): map<K, V> {
    match op
    case Look(_) => m
    case Store(k, v) => m[k := v]
    case Remove(k) => m - {k}
  }

  ghost function MapAfter<K, V>(m: map<K, V>, ops: seq<Op<K, V>>): map<K, V> {
    if ops == [] then m else Effect(MapAfter(m, ops[..|ops| - 1]), ops[|ops| - 1])
  }

  ghost function Answer<K, V>(m: map<K, V>, k: K): Option<V> {
    if k in m then Some(m[k]) else None
  }

  /** Performs one use: what the table says of the key before it, and its effect on the map. */
  method Perform<K(==, !new, 0), V(0)>(t: Table<K, V>, op: Op<K, V>) returns (answer: Option<V>)
    requires t.Valid()
    modifies t
    ensures t.Valid() && answer == Answer(old(t.model), op.key) && t.model == Effect(old(t.model), op)
  {
    hide *;
    ghost var m, k := t.model, op.key;
    EffectIs(m, op);
    RemoveAbsent(m, k);
    var x := t.Get(op.key);
    answer := if x != t.nBuckets then Some(t.vals[x]) else None;
    match op {
      case Look(_) =>
      case Store(k, v) =>
        var ret;
        x, ret := t.Put(k);
        StoreTwice(m, k, t.vals[x], v);
        t.SetValue(x, v);
      case Remove(_) =>
        t.Shapes();
        t.Del(x);
    }
  }

  lemma EffectIs<K, V>(m: map<K, V>, op: Op<K, V>)
    ensures Answer(m, op.key) == if op.key in m then Some(m[op.key]) else None
    ensures op.Look? ==> Effect(m, op) == m
    ensures op.Store? ==> Effect(m, op) == m[op.key := op.val]
    ensures op.Remove? ==> Effect(m, op) == m - {op.key}
  {
  }

  lemma StoreTwice<K, V>(m: map<K, V>, k: K, u: V, v: V)
    ensures m[k := u][k := v] == m[k := v]
  {
  }

  lemma RemoveAbsent<K, V>(m: map<K, V>, k: K)
    ensures k !in m ==> m - {k} == m
  {
  }

  /** Over any run of uses the table answers as the finite map would. */
  method Run<K(==, !new, 0), V(0)>(t: Table<K, V>, ops: seq<Op<K, V>>) returns (answers: seq<Option<V>>)
    requires t.Valid()
    modifies t
    ensures t.Valid() && t.model == MapAfter(old(t.model), ops) && |answers| == |ops|
    ensures forall i :: 0 <= i < |ops| ==> answers[i] == Answer(MapAfter(old(t.model), ops[..i]), ops[i].key)
  {
    hide t.Valid, Answer, Effect;
    answers := [];
    ghost var m := t.model;
    var i := 0;
    while i < |ops|
      invariant i <= |ops| && t.Valid() && t.model == MapAfter(m, ops[..i]) && |answers| == i
      invariant forall j :: 0 <= j < i ==> answers[j] == Answer(MapAfter(m, ops[..j]), ops[j].key)
    {
      var a := Perform(t, ops[i]);
      assert ops[..i + 1][..i] == ops[..i];
      answers := answers + [a];
      i := i + 1;
    }
    assert ops[..i] == ops;
  }
}
