/** The inflater's decoding tables: a 1024-entry lookup on the next ten bits, whose negative
    entries lead into a binary tree for the longer codes.  A node with index `j` is written as
    the entry `-1 - 2*j` and owns the tree cells `2*j` and `2*j + 1`. */
module InflateTables {
  import opened Bits
  import opened CanonicalCode

  const LOOKUP_BITS := 10
  const LOOKUP_SIZE := 1024

  /** Which bit strings have a tree node, and its index. */
  type NodeMap = map<BitString, nat>

  /** How node `j` is written in the tables. */
  function NodeEntry(j: nat): int { -1 - 2 * (j as int) }

  ghost predicate HasCell(nodes: NodeMap, p: BitString) {
    |p| >= 10 && (|p| > 10 ==> p[..|p| - 1] in nodes)
  }

  /** Where the entry for path `p` lives in the lookup table followed by the tree. */
  ghost function Cell(nodes: NodeMap, p: BitString): nat
    requires HasCell(nodes, p)
  {
    if |p| == 10 then ToNat(p) else LOOKUP_SIZE + 2 * nodes[p[..|p| - 1]] + BitValue(p[|p| - 1])
  }

  ghost predicate ShortCode(sizes: seq<nat>, k: nat, s: nat) {
    s < k && Used(sizes, s) && sizes[s] <= 10
  }

  ghost predicate LongCode(sizes: seq<nat>, k: nat, s: nat) {
    s < k && Used(sizes, s) && sizes[s] > 10
  }

  ghost predicate NodesFit(sizes: Sizes, mem: seq<int>, nodes: NodeMap) {
    && LOOKUP_SIZE + 2 * |nodes| <= |mem|
    && (forall p :: p in nodes ==> 10 <= |p| <= 14 && nodes[p] < |nodes| && Internal(sizes, p))
    && (forall p, q :: p in nodes && q in nodes && nodes[p] == nodes[q] ==> p == q)
    && (forall p {:trigger HasCell(nodes, p)} :: p in nodes ==> HasCell(nodes, p))
    && (forall x :: LOOKUP_SIZE + 2 * |nodes| <= x < |mem| ==> mem[x] == 0)
  }

  /** The next ten bits `w` index the lookup table, lowest bit first. */
  ghost predicate Key(w: BitString) { |w| == 10 && ToNat(w) < LOOKUP_SIZE }

  /** The entry of every node is the node's own number. */
  ghost predicate Links(mem: seq<int>, nodes: NodeMap) {
    forall p {:trigger Cell(nodes, p)} :: p in nodes && HasCell(nodes, p) && Cell(nodes, p) < |mem| ==>
      mem[Cell(nodes, p)] == NodeEntry(nodes[p])
  }

  ghost predicate LongOk(sizes: Sizes, k: nat, mem: seq<int>, nodes: NodeMap) {
    forall s: nat :: LongCode(sizes, k, s) ==>
      HasCell(nodes, Code(sizes, s)) && Cell(nodes, Code(sizes, s)) < |mem| && mem[Cell(nodes, Code(sizes, s))] == s
  }

  ghost predicate ShortOk(sizes: Sizes, k: nat, mem: seq<int>)
    requires |mem| >= LOOKUP_SIZE
  {
    forall s: nat, w :: ShortCode(sizes, k, s) && Key(w) && Code(sizes, s) <= w ==>
      mem[ToNat(w)] == 512 * sizes[s] + s
  }

  ghost predicate LookupCause(sizes: Sizes, k: nat, nodes: NodeMap, w: BitString) {
    w in nodes || exists s: nat :: ShortCode(sizes, k, s) && Code(sizes, s) <= w
  }

  ghost predicate TreeCause(sizes: Sizes, k: nat, nodes: NodeMap, p: BitString) {
    p in nodes || exists s: nat :: LongCode(sizes, k, s) && Code(sizes, s) == p
  }

  /** Every other entry is still zero. */
  ghost predicate Blank(sizes: Sizes, k: nat, mem: seq<int>, nodes: NodeMap)
    requires |mem| >= LOOKUP_SIZE
  {
    && (forall w {:trigger LookupCause(sizes, k, nodes, w)} {:trigger Key(w)} :: Key(w) && mem[ToNat(w)] != 0 ==>
          LookupCause(sizes, k, nodes, w))
    && (forall p {:trigger Cell(nodes, p)} ::
          HasCell(nodes, p) && |p| > 10 && Cell(nodes, p) < |mem| && mem[Cell(nodes, p)] != 0 ==>
          TreeCause(sizes, k, nodes, p))
  }

  /** The tables hold exactly the first `k` symbols' code words. */
  ghost predicate Holds(sizes: Sizes, k: nat, mem: seq<int>, nodes: NodeMap) {
    && k <= |sizes|
    && NodesFit(sizes, mem, nodes)
    && Links(mem, nodes)
    && LongOk(sizes, k, mem, nodes)
    && ShortOk(sizes, k, mem)
    && Blank(sizes, k, mem, nodes)
  }

  lemma {:induction false} ToNatInjective(a: BitString, b: BitString)
    requires |a| == |b| && ToNat(a) == ToNat(b)
    ensures a == b
  {
    LowBitsOfToNat(a, 0);
    LowBitsOfToNat(b, 0);
  }

  lemma KeyBound(w: BitString)
    requires |w| == 10
    ensures ToNat(w) < LOOKUP_SIZE
  {
    ToNatBound(w);
    Pow2Sixteen();
  }

  lemma CellBound(sizes: Sizes, mem: seq<int>, nodes: NodeMap, p: BitString)
    requires NodesFit(sizes, mem, nodes) && HasCell(nodes, p)
    ensures Cell(nodes, p) < LOOKUP_SIZE + 2 * |nodes|
  {
    if |p| == 10 { KeyBound(p); }
  }

  lemma CellsDiffer(sizes: Sizes, mem: seq<int>, nodes: NodeMap, p: BitString, q: BitString)
    requires NodesFit(sizes, mem, nodes)
    requires HasCell(nodes, p) && HasCell(nodes, q) && p != q
    ensures Cell(nodes, p) != Cell(nodes, q)
  {
    hide Internal;
    if |p| == 10 && |q| == 10 {
      if ToNat(p) == ToNat(q) { ToNatInjective(p, q); }
    } else if |p| == 10 {
      KeyBound(p);
    } else if |q| == 10 {
      KeyBound(q);
    } else {
      hide ToNat;
      assert p == p[..|p| - 1] + [p[|p| - 1]];
      assert q == q[..|q| - 1] + [q[|q| - 1]];
    }
  }

  /** The code word found by going right at `p` and then left for as long as possible.  It is
      different for every internal path, so there are no more internal paths than symbols. */
  ghost function LastRight(c: BitString): BitString {
    if c == [] then [] else if c[|c| - 1] then c[..|c| - 1] else LastRight(c[..|c| - 1])
  }

  lemma {:induction false} LastRightOf(p: BitString, c: BitString)
    requires p + [true] <= c
    requires forall i :: |p| < i < |c| ==> !c[i]
    ensures LastRight(c) == p
    decreases |c|
  {
    if |c| == |p| + 1 {
      assert c == p + [true];
    } else {
      assert p + [true] <= c[..|c| - 1];
      LastRightOf(p, c[..|c| - 1]);
    }
  }

  lemma Successor(sizes: Sizes, p: BitString) returns (s: nat)
    requires Complete(sizes) && Internal(sizes, p) && |p| <= 14
    ensures s < |sizes| && LastRight(Code(sizes, s)) == p
  {
    var bits := p + [true] + seq(14 - |p|, _ => false);
    s := Covering(sizes, bits);
    var c := Code(sizes, s);
    var t :| Used(sizes, t) && p < Code(sizes, t);
    assert bits[..|c|] == c;
    assert p <= bits;
    assert |c| > |p| by {
      if |c| <= |p| {
        assert p[..|c|] == c;
        UniquePrefix(sizes, s, t, Code(sizes, t));
      }
    }
    assert p + [true] <= c;
    LastRightOf(p, c);
  }

  lemma NodeBound(sizes: Sizes, keys: set<BitString>, cap: nat)
    requires Accepted(sizes) && |sizes| <= cap && 5 <= cap
    requires forall p :: p in keys ==> 10 <= |p| <= 14 && Internal(sizes, p)
    ensures |keys| <= cap
  {
    if Complete(sizes) {
      forall p | p in keys ensures p in Image(sizes, |sizes|) {
        var s := Successor(sizes, p);
        InImage(sizes, |sizes|, s);
      }
      ImageBound(sizes, |sizes|);
      SubsetSize(keys, Image(sizes, |sizes|));
    } else if keys != {} {
      var p :| p in keys;
      var s :| Used(sizes, s) && p < Code(sizes, s);
      SoleUsed(sizes, |sizes|, s);
      var c := Code(sizes, s);
      var image := {c[..10], c[..if |c| > 11 then 11 else 0], c[..if |c| > 12 then 12 else 0],
                    c[..if |c| > 13 then 13 else 0], c[..if |c| > 14 then 14 else 0]};
      forall q | q in keys ensures q in image {
        var t :| Used(sizes, t) && q < Code(sizes, t);
        assert t == s;
        assert q == c[..|q|];
      }
      SubsetSize(keys, image);
    }
  }

  ghost function Image(sizes: seq<nat>, k: nat): set<BitString>
    requires k <= |sizes|
  {
    if k == 0 then {} else Image(sizes, k - 1) + {LastRight(Code(sizes, k - 1))}
  }

  lemma {:induction false} InImage(sizes: seq<nat>, k: nat, s: nat)
    requires s < k <= |sizes|
    ensures LastRight(Code(sizes, s)) in Image(sizes, k)
  {
    if s < k - 1 { InImage(sizes, k - 1, s); }
  }

  lemma {:induction false} ImageBound(sizes: seq<nat>, k: nat)
    requires k <= |sizes|
    ensures |Image(sizes, k)| <= k
  {
    hide Code, LastRight;
    if k != 0 {
      ImageBound(sizes, k - 1);
      OneMore(Image(sizes, k - 1), LastRight(Code(sizes, k - 1)));
    }
  }

  lemma OneMore<T>(a: set<T>, x: T)
    ensures |a + {x}| <= |a| + 1
  {
    if x in a { assert a + {x} == a; }
  }

  lemma {:induction false} SubsetSize<T>(a: set<T>, b: set<T>)
    requires a <= b
    ensures |a| <= |b|
  {
    if a != {} {
      var x :| x in a;
      SubsetSize(a - {x}, b - {x});
    }
  }

  /** The tree arrays have two cells for each symbol of their alphabet. */
  ghost predicate Roomy(sizes: Sizes, mem: seq<int>) {
    |mem| % 2 == 0 && |mem| >= LOOKUP_SIZE + 2 * |sizes| && |mem| >= LOOKUP_SIZE + 10
  }

  lemma NotACode(sizes: Sizes, p: BitString, s: nat)
    requires Accepted(sizes) && Internal(sizes, p) && Used(sizes, s)
    ensures !(Code(sizes, s) <= p)
  {
    var t :| Used(sizes, t) && p < Code(sizes, t);
    if Code(sizes, s) <= p {
      assert Code(sizes, s) <= Code(sizes, t);
      UniquePrefix(sizes, s, t, Code(sizes, t));
    }
  }

  /** An empty cell on the way to a code word belongs to no node, and a node fits. */
  lemma FreshNode(sizes: Sizes, k: nat, mem: seq<int>, nodes: NodeMap, q: BitString)
    requires Accepted(sizes) && Holds(sizes, k, mem, nodes) && Roomy(sizes, mem)
    requires 10 <= |q| <= 14 && HasCell(nodes, q) && Internal(sizes, q)
    requires Cell(nodes, q) < |mem| && mem[Cell(nodes, q)] == 0
    ensures q !in nodes
    ensures LOOKUP_SIZE + 2 * |nodes| + 2 <= |mem|
    ensures |nodes[q := |nodes|]| == |nodes| + 1
  {
    hide ToNat, Code, Internal, Accepted, ShortOk, LongOk, Blank;
    var keys := nodes.Keys + {q};
    assert q !in nodes;
    assert |keys| == |nodes| + 1;
    assert nodes[q := |nodes|].Keys == keys;
    NodeBound(sizes, keys, (|mem| - LOOKUP_SIZE) / 2);
  }

  lemma ExtendCells(nodes: NodeMap, q: BitString, n: nat, nodes': NodeMap)
    requires q !in nodes && nodes' == nodes[q := n]
    ensures forall p {:trigger HasCell(nodes, p)} {:trigger HasCell(nodes', p)} ::
              HasCell(nodes, p) ==> HasCell(nodes', p) && Cell(nodes', p) == Cell(nodes, p)
    ensures forall p {:trigger HasCell(nodes', p)} :: HasCell(nodes', p) && !HasCell(nodes, p) ==>
              |p| > 10 && p[..|p| - 1] == q && Cell(nodes', p) == LOOKUP_SIZE + 2 * n + BitValue(p[|p| - 1])
  {
    hide ToNat;
  }

  lemma AddNodeFits(sizes: Sizes, mem: seq<int>, nodes: NodeMap, q: BitString, mem': seq<int>, nodes': NodeMap)
    requires NodesFit(sizes, mem, nodes) && q !in nodes
    requires 10 <= |q| <= 14 && HasCell(nodes, q) && Internal(sizes, q)
    requires LOOKUP_SIZE + 2 * |nodes| + 2 <= |mem|
    requires Cell(nodes, q) < LOOKUP_SIZE + 2 * |nodes| && mem' == mem[Cell(nodes, q) := NodeEntry(|nodes|)]
    requires nodes' == nodes[q := |nodes|] && |nodes'| == |nodes| + 1
    ensures NodesFit(sizes, mem', nodes')
  {
    hide ToNat, Code, Internal, Cell, HasCell;
    forall p | p in nodes' ensures HasCell(nodes', p) {
      assert p == q || HasCell(nodes, p);
      ExtendCells(nodes, q, |nodes|, nodes');
    }
  }

  lemma AddNodeLinks(sizes: Sizes, mem: seq<int>, nodes: NodeMap, q: BitString, mem': seq<int>, nodes': NodeMap)
    requires NodesFit(sizes, mem, nodes) && Links(mem, nodes) && q !in nodes
    requires 10 <= |q| <= 14 && HasCell(nodes, q)
    requires Cell(nodes, q) < LOOKUP_SIZE + 2 * |nodes| <= |mem| && mem' == mem[Cell(nodes, q) := NodeEntry(|nodes|)]
    requires nodes' == nodes[q := |nodes|]
    ensures Links(mem', nodes')
  {
    hide ToNat, Code, Internal, Cell, HasCell;
    ExtendCells(nodes, q, |nodes|, nodes');
    forall p | p in nodes' && HasCell(nodes', p) && Cell(nodes', p) < |mem'|
      ensures mem'[Cell(nodes', p)] == NodeEntry(nodes'[p])
    {
      if p != q {
        assert HasCell(nodes, p);
        CellsDiffer(sizes, mem, nodes, p, q);
        assert Cell(nodes', p) == Cell(nodes, p);
      }
    }
  }

  lemma AddNodeCodes(sizes: Sizes, k: nat, mem: seq<int>, nodes: NodeMap, q: BitString, mem': seq<int>, nodes': NodeMap)
    requires Accepted(sizes) && Holds(sizes, k, mem, nodes) && q !in nodes
    requires 10 <= |q| <= 14 && HasCell(nodes, q) && Internal(sizes, q)
    requires Cell(nodes, q) < |mem| && mem' == mem[Cell(nodes, q) := NodeEntry(|nodes|)]
    requires nodes' == nodes[q := |nodes|]
    ensures LongOk(sizes, k, mem', nodes') && ShortOk(sizes, k, mem')
  {
    hide ToNat, Code, Internal, Accepted, Complete, Blank, Links;
    ExtendCells(nodes, q, |nodes|, nodes');
    forall s: nat | LongCode(sizes, k, s)
      ensures HasCell(nodes', Code(sizes, s)) && Cell(nodes', Code(sizes, s)) < |mem'| && mem'[Cell(nodes', Code(sizes, s))] == s
    {
      NotACode(sizes, q, s);
      CellsDiffer(sizes, mem, nodes, Code(sizes, s), q);
    }
    forall s: nat, w | ShortCode(sizes, k, s) && Key(w) && Code(sizes, s) <= w
      ensures mem'[ToNat(w)] == 512 * sizes[s] + s
    {
      if w == q { NotACode(sizes, q, s); } else { CellsDiffer(sizes, mem, nodes, w, q); }
    }
  }

  lemma AddNodeBlank(sizes: Sizes, k: nat, mem: seq<int>, nodes: NodeMap, q: BitString, mem': seq<int>, nodes': NodeMap)
    requires NodesFit(sizes, mem, nodes) && Blank(sizes, k, mem, nodes) && q !in nodes
    requires 10 <= |q| <= 14 && HasCell(nodes, q)
    requires LOOKUP_SIZE + 2 * |nodes| + 1 < |mem|
    requires Cell(nodes, q) < LOOKUP_SIZE + 2 * |nodes| && mem' == mem[Cell(nodes, q) := NodeEntry(|nodes|)]
    requires nodes' == nodes[q := |nodes|]
    ensures Blank(sizes, k, mem', nodes')
  {
    hide ToNat, Code, Internal;
    ExtendCells(nodes, q, |nodes|, nodes');
    forall w | Key(w) && mem'[ToNat(w)] != 0 ensures LookupCause(sizes, k, nodes', w) {
      if w != q {
        CellsDiffer(sizes, mem, nodes, w, q);
        assert LookupCause(sizes, k, nodes, w);
      }
    }
    forall p | HasCell(nodes', p) && |p| > 10 && Cell(nodes', p) < |mem'| && mem'[Cell(nodes', p)] != 0
      ensures TreeCause(sizes, k, nodes', p)
    {
      if p != q {
        if HasCell(nodes, p) {
          CellsDiffer(sizes, mem, nodes, p, q);
          assert TreeCause(sizes, k, nodes, p);
        }
      }
    }
  }

  /** Writing the entry of a fresh internal path gives it a node. */
  lemma AddNode(sizes: Sizes, k: nat, mem: seq<int>, nodes: NodeMap, q: BitString, mem': seq<int>, nodes': NodeMap)
    requires Accepted(sizes) && Holds(sizes, k, mem, nodes) && Roomy(sizes, mem)
    requires 10 <= |q| <= 14 && HasCell(nodes, q) && Internal(sizes, q)
    requires Cell(nodes, q) < |mem| && mem[Cell(nodes, q)] == 0
    requires mem' == mem[Cell(nodes, q) := NodeEntry(|nodes|)]
    requires nodes' == nodes[q := |nodes|]
    ensures Holds(sizes, k, mem', nodes')
  {
    hide ToNat, Code, Internal, Accepted, Cell, HasCell, Blank, LongOk, ShortOk, Links;
    FreshNode(sizes, k, mem, nodes, q);
    CellBound(sizes, mem, nodes, q);
    AddNodeCodes(sizes, k, mem, nodes, q, mem', nodes');
    AddNodeFits(sizes, mem, nodes, q, mem', nodes');
    AddNodeLinks(sizes, mem, nodes, q, mem', nodes');
    AddNodeBlank(sizes, k, mem, nodes, q, mem', nodes');
  }

  /** Writing a symbol into the cell its code word leads to. */
  lemma AddLong(sizes: Sizes, k: nat, mem: seq<int>, nodes: NodeMap, mem': seq<int>)
    requires Accepted(sizes) && k < |sizes| && Holds(sizes, k, mem, nodes) && sizes[k] > 10
    requires HasCell(nodes, Code(sizes, k)) && Cell(nodes, Code(sizes, k)) < |mem|
    requires mem' == mem[Cell(nodes, Code(sizes, k)) := k]
    ensures Holds(sizes, k + 1, mem', nodes)
  {
    hide ToNat, Code, Internal, Accepted, Complete;
    var c := Code(sizes, k);
    CellBound(sizes, mem, nodes, c);
    forall p | HasCell(nodes, p) && p != c ensures Cell(nodes, p) != Cell(nodes, c) {
      CellsDiffer(sizes, mem, nodes, p, c);
    }
    assert forall s: nat :: LongCode(sizes, k + 1, s) <==> LongCode(sizes, k, s) || s == k;
    assert forall s: nat :: ShortCode(sizes, k + 1, s) <==> ShortCode(sizes, k, s);
    assert Links(mem', nodes) by {
      forall p | p in nodes ensures p != c { NotACode(sizes, p, k); }
    }
    assert LongOk(sizes, k + 1, mem', nodes) by {
      forall s: nat | LongCode(sizes, k, s) ensures Code(sizes, s) != c {
        if Code(sizes, s) == c { UniquePrefix(sizes, s, k, c); }
      }
    }
    forall w | Key(w) ensures mem'[ToNat(w)] == mem[ToNat(w)] {
      assert HasCell(nodes, w);
    }
    assert ShortOk(sizes, k + 1, mem');
    assert Blank(sizes, k + 1, mem', nodes) by {
      forall w | LookupCause(sizes, k, nodes, w) ensures LookupCause(sizes, k + 1, nodes, w) {}
      forall p | TreeCause(sizes, k, nodes, p) ensures TreeCause(sizes, k + 1, nodes, p) {}
      assert TreeCause(sizes, k + 1, nodes, c);
    }
  }

  /** Filling every lookup index that starts with a short code word. */
  lemma AddShort(sizes: Sizes, k: nat, mem: seq<int>, nodes: NodeMap, mem': seq<int>)
    requires Accepted(sizes) && k < |sizes| && Holds(sizes, k, mem, nodes) && 0 < sizes[k] <= 10
    requires |mem'| == |mem| && forall x :: LOOKUP_SIZE <= x < |mem| ==> mem'[x] == mem[x]
    requires forall w :: Key(w) ==>
               mem'[ToNat(w)] == if Code(sizes, k) <= w then 512 * sizes[k] + k else mem[ToNat(w)]
    ensures Holds(sizes, k + 1, mem', nodes)
  {
    hide ToNat, Code, Internal, Accepted, Complete;
    assert forall s: nat :: LongCode(sizes, k + 1, s) <==> LongCode(sizes, k, s);
    assert ShortCode(sizes, k + 1, k);
    assert forall s: nat :: ShortCode(sizes, k + 1, s) <==> ShortCode(sizes, k, s) || s == k;
    assert Links(mem', nodes) by {
      forall p | p in nodes && HasCell(nodes, p) && Cell(nodes, p) < |mem| ensures mem'[Cell(nodes, p)] == mem[Cell(nodes, p)] {
        if |p| == 10 { NotACode(sizes, p, k); KeyBound(p); assert Key(p); }
      }
    }
    assert LongOk(sizes, k + 1, mem', nodes);
    assert ShortOk(sizes, k + 1, mem') by {
      forall s: nat, w | ShortCode(sizes, k, s) && Key(w) && Code(sizes, s) <= w
        ensures mem'[ToNat(w)] == 512 * sizes[s] + s
      {
        if Code(sizes, k) <= w { UniquePrefix(sizes, s, k, w); }
      }
    }
    assert Blank(sizes, k + 1, mem', nodes) by {
      forall w | LookupCause(sizes, k, nodes, w) ensures LookupCause(sizes, k + 1, nodes, w) {}
      forall p | TreeCause(sizes, k, nodes, p) ensures TreeCause(sizes, k + 1, nodes, p) {}
      forall w | Key(w) && mem'[ToNat(w)] != 0 ensures LookupCause(sizes, k + 1, nodes, w) {
        if !(Code(sizes, k) <= w) { assert LookupCause(sizes, k, nodes, w); }
      }
    }
  }

  lemma AddUnused(sizes: Sizes, k: nat, mem: seq<int>, nodes: NodeMap)
    requires k < |sizes| && Holds(sizes, k, mem, nodes) && sizes[k] == 0
    ensures Holds(sizes, k + 1, mem, nodes)
  {
    hide ToNat, Code, Internal, Cell, HasCell;
    assert forall s: nat :: LongCode(sizes, k + 1, s) <==> LongCode(sizes, k, s);
    assert forall s: nat :: ShortCode(sizes, k + 1, s) <==> ShortCode(sizes, k, s);
    forall w | LookupCause(sizes, k, nodes, w) ensures LookupCause(sizes, k + 1, nodes, w) {}
    forall p | TreeCause(sizes, k, nodes, p) ensures TreeCause(sizes, k + 1, nodes, p) {}
  }

  /** Reverses the bits of a code, as both coders do before using it. */
  method ReverseCode(code: nat, size: nat) returns (rev: nat)
    ensures rev == ToNat(MsbBits(code, size))
  {
    rev := 0;
    var cur: nat, l: nat := code, size;
    while l > 0
      invariant l <= size
      invariant ToNat(MsbBits(cur, l)) + Pow2(l) * rev == ToNat(MsbBits(code, size))
    {
      ReverseStep(cur, l, rev);
      rev := 2 * rev + cur % 2;
      cur := cur / 2;
      l := l - 1;
    }
  }

  lemma ReverseStep(cur: nat, l: nat, rev: nat)
    requires l > 0
    ensures ToNat(MsbBits(cur, l)) + Pow2(l) * rev
         == ToNat(MsbBits(cur / 2, l - 1)) + Pow2(l - 1) * (2 * rev + cur % 2)
  {
    var p, b := Pow2(l - 1), cur % 2;
    ToNatAppend(MsbBits(cur / 2, l - 1), [b == 1]);
    assert ToNat([b == 1]) == b;
    assert Pow2(l) * rev == p * (2 * rev);
    assert p * b + p * (2 * rev) == p * (2 * rev + b);
  }

  lemma ModStep(x: int, r: int, d: int)
    requires d > 0 && r < x < r + d && r >= 0
    ensures x % d != r % d
  {
    if x % d == r % d {
      var a, b := x / d, r / d;
      assert x - r == d * (a - b);
      if a - b >= 1 { MulMonotone(d, 1, a - b); } else { MulMonotone(d, a - b, 0); }
    }
  }

  /** Fills `pLookUp[rev_code]`, `pLookUp[rev_code + 2^size]`, and so on. */
  method FillShort(revCode: nat, size: nat, lookUp: array<int>, entry: int, ghost c: BitString)
    requires lookUp.Length == LOOKUP_SIZE && 0 < size <= 10
    requires |c| == size && revCode == ToNat(c)
    modifies lookUp
    ensures forall w :: Key(w) ==> lookUp[ToNat(w)] == if c <= w then entry else old(lookUp[ToNat(w)])
  {
    ToNatBound(c);
    var rev := FillEvery(revCode, Pow2(size), lookUp, entry);
    forall w | Key(w) ensures lookUp[ToNat(w)] == if c <= w then entry else old(lookUp[ToNat(w)]) {
      PrefixByMod(c, w);
    }
  }

  method FillEvery(first: nat, d: nat, lookUp: array<int>, entry: int) returns (rev: nat)
    requires lookUp.Length == LOOKUP_SIZE && first < d
    modifies lookUp
    ensures forall i :: 0 <= i < LOOKUP_SIZE ==> lookUp[i] == if i % d == first then entry else old(lookUp[i])
  {
    rev := first;
    ghost var t := 0;
    ModUnique(rev, d, 0, first);
    while rev < LOOKUP_SIZE
      invariant rev == d * t + first && rev % d == first
      invariant forall i :: 0 <= i < LOOKUP_SIZE ==>
                  lookUp[i] == if i < rev && i % d == first then entry else old(lookUp[i])
      decreases LOOKUP_SIZE - rev
    {
      ghost var before := rev;
      lookUp[rev] := entry;
      rev := rev + d;
      t := t + 1;
      ModUnique(rev, d, t, first);
      forall i | before < i < rev ensures i % d != first { ModStep(i, before, d); }
    }
  }

  lemma PrefixByMod(c: BitString, w: BitString)
    requires |c| <= |w|
    ensures c <= w <==> ToNat(w) % Pow2(|c|) == ToNat(c)
  {
    hide ToNat, Pow2;
    var a, b := w[..|c|], w[|c|..];
    assert w == a + b;
    SplitMod(a, b);
    assert c <= w <==> a == c;
    if ToNat(a) == ToNat(c) { ToNatInjective(a, c); }
  }

  lemma SplitMod(a: BitString, b: BitString)
    ensures ToNat(a + b) % Pow2(|a|) == ToNat(a)
  {
    ToNatAppend(a, b);
    ToNatBound(a);
    ModUnique(ToNat(a + b), Pow2(|a|), ToNat(b), ToNat(a));
  }

  lemma ChildCell(nodes: NodeMap, p: BitString, b: bool)
    requires p in nodes && |p| >= 10
    ensures HasCell(nodes, p + [b]) && Cell(nodes, p + [b]) == LOOKUP_SIZE + 2 * nodes[p] + BitValue(b)
  {
    assert (p + [b])[..|p|] == p;
  }

  /** A used entry on the way to a code word is a node's. */
  lemma FollowNode(sizes: Sizes, k: nat, mem: seq<int>, nodes: NodeMap, q: BitString)
    requires Accepted(sizes) && Holds(sizes, k, mem, nodes)
    requires HasCell(nodes, q) && Internal(sizes, q) && Cell(nodes, q) < |mem| && mem[Cell(nodes, q)] != 0
    ensures q in nodes && mem[Cell(nodes, q)] == NodeEntry(nodes[q])
  {
    hide Code, Internal, Accepted, Complete, ToNat;
    if |q| == 10 {
      KeyBound(q);
      assert LookupCause(sizes, k, nodes, q);
      forall s: nat | ShortCode(sizes, k, s) ensures !(Code(sizes, s) <= q) { NotACode(sizes, q, s); }
    } else {
      assert TreeCause(sizes, k, nodes, q);
      forall s: nat | LongCode(sizes, k, s) ensures Code(sizes, s) != q { NotACode(sizes, q, s); }
    }
  }

  /** The bit that the shifted code shows at depth `d`. */
  lemma BitOfReversed(c: BitString, d: nat)
    requires d < |c|
    ensures Shr(ToNat(c), d) % 2 == BitValue(c[d])
  {
    hide ToNat, Shr, LowBits, Pow2;
    LowBitsOfToNat(c, 0);
    assert Pow2(|c|) * 0 == 0;
    LowBitsAt(ToNat(c), |c|, d);
  }

  lemma ShrStep(n: nat, d: nat)
    ensures Shr(n, d + 1) == Shr(n, d) / 2
  {
    ShrAdd(n, d, 1);
    assert Shr(Shr(n, d), 1) == Shr(n, d) / 2;
  }

  lemma ReversedIndex(c: BitString)
    requires |c| >= 10
    ensures ToNat(c) % LOOKUP_SIZE == ToNat(c[..10])
  {
    assert c == c[..10] + c[10..];
    SplitMod(c[..10], c[10..]);
    Pow2Sixteen();
  }

  ghost function Memory(lookUp: array<int>, tree: array<int>): seq<int>
    reads lookUp, tree
  {
    lookUp[..] + tree[..]
  }

  lemma RootCell(nodes: NodeMap, q: BitString)
    requires |q| == 10
    ensures HasCell(nodes, q) && Cell(nodes, q) == ToNat(q) < LOOKUP_SIZE
  {
    KeyBound(q);
  }

  /** Path `q` has node entry `cur`, and `next` is the entry of the next free node. */
  ghost predicate Entered(sizes: Sizes, k: nat, mem: seq<int>, nodes: NodeMap, q: BitString, cur: int, next: int) {
    Holds(sizes, k, mem, nodes) && q in nodes && cur == NodeEntry(nodes[q]) && next == NodeEntry(|nodes|)
  }

  ghost predicate Separate(sizes: Sizes, lookUp: array<int>, tree: array<int>) {
    && lookUp != tree && lookUp.Length == LOOKUP_SIZE
    && tree.Length % 2 == 0 && tree.Length >= 2 * |sizes| && tree.Length >= 10
  }

  /** One step of either kind: what a node allocation or a followed entry gives. */
  lemma Enter(sizes: Sizes, k: nat, mem: seq<int>, nodes: NodeMap, q: BitString, next: int, mem': seq<int>, cur': int, next': int)
    returns (nodes': NodeMap)
    requires Accepted(sizes) && Holds(sizes, k, mem, nodes) && Roomy(sizes, mem) && next == NodeEntry(|nodes|)
    requires 10 <= |q| <= 14 && HasCell(nodes, q) && Internal(sizes, q) && Cell(nodes, q) < |mem|
    requires mem[Cell(nodes, q)] == 0 ==> mem' == mem[Cell(nodes, q) := next] && cur' == next && next' == next - 2
    requires mem[Cell(nodes, q)] != 0 ==> mem' == mem && cur' == mem[Cell(nodes, q)] && next' == next
    ensures Entered(sizes, k, mem', nodes', q, cur', next')
  {
    if mem[Cell(nodes, q)] == 0 {
      nodes' := nodes[q := |nodes|];
      FreshNode(sizes, k, mem, nodes, q);
      AddNode(sizes, k, mem, nodes, q, mem', nodes');
    } else {
      nodes' := nodes;
      FollowNode(sizes, k, mem, nodes, q);
    }
  }

  method EnterRoot(ghost sizes: Sizes, ghost k: nat, index: nat, lookUp: array<int>, tree: array<int>,
                   treeNext: int, ghost nodes: NodeMap, ghost q: BitString)
    returns (cur: int, next: int, ghost nodes': NodeMap)
    requires Separate(sizes, lookUp, tree) && Accepted(sizes) && Holds(sizes, k, Memory(lookUp, tree), nodes)
    requires |q| == 10 && index == ToNat(q) < LOOKUP_SIZE && Internal(sizes, q)
    requires treeNext == NodeEntry(|nodes|)
    modifies lookUp
    ensures Entered(sizes, k, Memory(lookUp, tree), nodes', q, cur, next)
  {
    hide Internal, Accepted, Complete, Holds, ToNat, Cell;
    ghost var mem := Memory(lookUp, tree);
    RootCell(nodes, q);
    cur, next := lookUp[index], treeNext;
    if cur == 0 {
      lookUp[index] := treeNext;
      cur := treeNext;
      next := treeNext - 2;
      assert Memory(lookUp, tree) == mem[index := treeNext];
    }
    nodes' := Enter(sizes, k, mem, nodes, q, treeNext, Memory(lookUp, tree), cur, next);
  }

  method EnterChild(ghost sizes: Sizes, ghost k: nat, bit: nat, lookUp: array<int>, tree: array<int>,
                    treeCur: int, treeNext: int, ghost nodes: NodeMap, ghost p: BitString, ghost b: bool)
    returns (cur: int, next: int, ghost nodes': NodeMap)
    requires Separate(sizes, lookUp, tree) && Accepted(sizes)
    requires Entered(sizes, k, Memory(lookUp, tree), nodes, p, treeCur, treeNext)
    requires 10 <= |p| <= 13 && Internal(sizes, p + [b]) && bit == BitValue(b)
    modifies tree
    ensures Entered(sizes, k, Memory(lookUp, tree), nodes', p + [b], cur, next)
  {
    hide Internal, Accepted, Complete, Holds, ToNat, Cell;
    ghost var mem := Memory(lookUp, tree);
    ghost var q := p + [b];
    NodeInRange(sizes, k, mem, nodes, p);
    ChildCell(nodes, p, b);
    cur, next := treeCur - bit, treeNext;
    var x := -cur - 1;
    assert LOOKUP_SIZE + x == Cell(nodes, q);
    if tree[x] == 0 {
      tree[x] := treeNext;
      cur := treeNext;
      next := treeNext - 2;
      assert Memory(lookUp, tree) == mem[LOOKUP_SIZE + x := treeNext];
    } else {
      cur := tree[x];
    }
    nodes' := Enter(sizes, k, mem, nodes, q, treeNext, Memory(lookUp, tree), cur, next);
  }

  lemma NodeInRange(sizes: Sizes, k: nat, mem: seq<int>, nodes: NodeMap, p: BitString)
    requires Holds(sizes, k, mem, nodes) && p in nodes
    ensures nodes[p] < |nodes| && LOOKUP_SIZE + 2 * |nodes| <= |mem|
  {
  }

  /** Walks down the tree, one bit of the reversed code at a time, adding nodes where there are none. */
  method Descend(ghost sizes: Sizes, ghost k: nat, ghost c: BitString, rev9: nat, codeSize: nat, lookUp: array<int>,
                 tree: array<int>, treeCur: int, treeNext: int, ghost nodes: NodeMap)
    returns (cur: int, next: int, rev: nat, ghost nodes': NodeMap)
    requires Separate(sizes, lookUp, tree) && Accepted(sizes) && 10 < |c| == codeSize <= 15
    requires forall d :: 10 <= d < |c| ==> Internal(sizes, c[..d])
    requires rev9 == Shr(ToNat(c), 9)
    requires Entered(sizes, k, Memory(lookUp, tree), nodes, c[..10], treeCur, treeNext)
    modifies tree
    ensures rev == Shr(ToNat(c), codeSize - 2)
    ensures Entered(sizes, k, Memory(lookUp, tree), nodes', c[..codeSize - 1], cur, next)
  {
    hide Accepted, Complete, Holds, ToNat, Pow2, Cell, Memory, Shr, Internal, Entered, Separate;
    cur, next, rev, nodes' := treeCur, treeNext, rev9, nodes;
    var j := codeSize;
    ghost var d := 10;
    while j > 11
      invariant 11 <= j <= codeSize && d == 10 + codeSize - j
      invariant rev == Shr(ToNat(c), d - 1)
      invariant Entered(sizes, k, Memory(lookUp, tree), nodes', c[..d], cur, next)
    {
      ShrStep(ToNat(c), d - 1);
      rev := rev / 2;
      BitOfReversed(c, d);
      assert c[..d] + [c[d]] == c[..d + 1];
      cur, next, nodes' := EnterChild(sizes, k, rev % 2, lookUp, tree, cur, next, nodes', c[..d], c[d]);
      d := d + 1;
      j := j - 1;
    }
  }

  /** Threads the code word of symbol `symIndex`, longer than ten bits, into the tree. */
  method InsertLong(ghost sizes: Sizes, symIndex: nat, revCode: nat, codeSize: nat, lookUp: array<int>, tree: array<int>,
                    treeNext: int, ghost nodes: NodeMap)
    returns (next: int, ghost nodes': NodeMap)
    requires Separate(sizes, lookUp, tree)
    requires Accepted(sizes) && symIndex < |sizes| && sizes[symIndex] == codeSize > 10
    requires revCode == ToNat(Code(sizes, symIndex))
    requires Holds(sizes, symIndex, Memory(lookUp, tree), nodes)
    requires treeNext == NodeEntry(|nodes|)
    modifies lookUp, tree
    ensures Holds(sizes, symIndex + 1, Memory(lookUp, tree), nodes') && next == NodeEntry(|nodes'|)
  {
    hide Code, Accepted, Complete, Holds, ToNat, Pow2, Cell, Memory, Shr, Internal, Separate;
    ghost var c := Code(sizes, symIndex);
    ReversedIndex(c);
    KeyBound(c[..10]);
    forall d | 10 <= d < |c| ensures Internal(sizes, c[..d]) { PrefixInternal(sizes, symIndex, d); }
    var treeCur, rev;
    treeCur, next, nodes' := EnterRoot(sizes, symIndex, revCode % LOOKUP_SIZE, lookUp, tree, treeNext, nodes, c[..10]);
    rev := ShiftRight(revCode, 9);
    treeCur, next, rev, nodes' := Descend(sizes, symIndex, c, rev, codeSize, lookUp, tree, treeCur, next, nodes');
    var d := codeSize - 1;
    ShrStep(revCode, d - 1);
    BitOfReversed(c, d);
    assert c[..d] + [c[d]] == c;
    StoreSymbol(sizes, symIndex, rev / 2 % 2, lookUp, tree, treeCur, next, nodes', c[..d], c[d]);
  }

  lemma PrefixInternal(sizes: Sizes, s: nat, d: nat)
    requires s < |sizes| && d < sizes[s]
    ensures Internal(sizes, Code(sizes, s)[..d])
  {
    hide Code;
    var p := Code(sizes, s)[..d];
    assert Used(sizes, s) && p < Code(sizes, s);
  }

  method ShiftRight(n: nat, k: nat) returns (r: nat)
    ensures r == Shr(n, k)
  {
    r := n;
    for i := 0 to k
      invariant r == Shr(n, i)
    {
      ShrStep(n, i);
      r := r / 2;
    }
  }

  method StoreSymbol(ghost sizes: Sizes, symIndex: nat, bit: nat, lookUp: array<int>, tree: array<int>,
                     treeCur: int, ghost treeNext: int, ghost nodes: NodeMap, ghost p: BitString, ghost b: bool)
    requires Separate(sizes, lookUp, tree) && Accepted(sizes) && symIndex < |sizes|
    requires Entered(sizes, symIndex, Memory(lookUp, tree), nodes, p, treeCur, treeNext)
    requires |p| >= 10 && p + [b] == Code(sizes, symIndex) && bit == BitValue(b)
    modifies tree
    ensures Holds(sizes, symIndex + 1, Memory(lookUp, tree), nodes)
  {
    hide Code, Internal, Accepted, Complete, Holds, ToNat, Cell;
    ghost var mem := Memory(lookUp, tree);
    ChildCell(nodes, p, b);
    assert sizes[symIndex] > 10;
    NodeInRange(sizes, symIndex, mem, nodes, p);
    var x := -(treeCur - bit) - 1;
    tree[x] := symIndex;
    assert Memory(lookUp, tree) == mem[LOOKUP_SIZE + x := symIndex];
    AddLong(sizes, symIndex, mem, nodes, Memory(lookUp, tree));
  }

  ghost function SumCounts(sizes: seq<nat>, m: nat, k: nat): nat
    requires k <= |sizes|
  {
    if m == 0 then 0 else SumCounts(sizes, m - 1, k) + Count(sizes, m, k)
  }

  lemma {:induction false} SumCountsStep(sizes: seq<nat>, m: nat, k: nat)
    requires 0 < k <= |sizes|
    ensures SumCounts(sizes, m, k) == SumCounts(sizes, m, k - 1) + if 1 <= sizes[k - 1] <= m then 1 else 0
  {
    if m > 0 { SumCountsStep(sizes, m - 1, k); }
  }

  lemma {:induction false} SumIsUsed(sizes: Sizes, k: nat)
    requires k <= |sizes|
    ensures SumCounts(sizes, 15, k) == UsedCount(sizes, k)
  {
    if k == 0 {
      SumOfNothing(sizes, 15);
    } else {
      SumCountsStep(sizes, 15, k);
      SumIsUsed(sizes, k - 1);
    }
  }

  lemma {:induction false} SumOfNothing(sizes: Sizes, m: nat)
    ensures SumCounts(sizes, m, 0) == 0
  {
    if m > 0 { SumOfNothing(sizes, m - 1); }
  }

  method CountSizes(sizes: Sizes) returns (totalSyms: array<nat>)
    ensures fresh(totalSyms) && totalSyms.Length == 16
    ensures forall l :: 0 <= l <= 15 ==> totalSyms[l] == Total(sizes, l)
  {
    totalSyms := new nat[16](_ => 0);
    for i := 0 to |sizes|
      invariant forall l :: 0 <= l <= 15 ==> totalSyms[l] == Count(sizes, l, i)
    {
      totalSyms[sizes[i]] := totalSyms[sizes[i]] + 1;
    }
  }

  lemma FirstStep(sizes: seq<nat>, i: nat)
    requires i >= 1
    ensures First(sizes, i + 1) == 2 * (First(sizes, i) + Total(sizes, i)) && First(sizes, 1) == 0
  {
  }

  lemma NoneCounted(sizes: Sizes)
    ensures SumCounts(sizes, 0, |sizes|) == 0
  {
  }

  method FirstCodes(sizes: Sizes, totalSyms: array<nat>, nextCode: array<nat>) returns (usedSyms: nat, total: nat)
    requires totalSyms != nextCode && totalSyms.Length == 16 && nextCode.Length == 17
    requires forall l :: 0 <= l <= 15 ==> totalSyms[l] == Total(sizes, l)
    modifies nextCode
    ensures total == First(sizes, 16) && usedSyms == SumCounts(sizes, 15, |sizes|)
    ensures forall l :: 1 <= l <= 15 ==> nextCode[l] == First(sizes, l)
  {
    hide First, Total, SumCounts;
    FirstStep(sizes, 1);
    NoneCounted(sizes);
    usedSyms, total := 0, 0;
    nextCode[0] := 0;
    nextCode[1] := 0;
    var i := 1;
    while i <= 15
      invariant 1 <= i <= 16
      invariant total == First(sizes, i) && usedSyms == SumCounts(sizes, i - 1, |sizes|)
      invariant forall l :: 1 <= l <= i ==> nextCode[l] == First(sizes, l)
    {
      FirstStep(sizes, i);
      SumStep(sizes, i);
      usedSyms := usedSyms + totalSyms[i];
      total := 2 * (total + totalSyms[i]);
      i := i + 1;
      nextCode[i] := total;
    }
  }

  lemma SumStep(sizes: seq<nat>, i: nat)
    requires i >= 1
    ensures SumCounts(sizes, i, |sizes|) == SumCounts(sizes, i - 1, |sizes|) + Total(sizes, i)
  {
  }

  /** Counts the sizes, derives the first code of each size and rejects every vector whose Kraft
      sum is not one, unless at most one symbol is used. */
  method StartCodes(sizes: Sizes, nextCode: array<nat>) returns (ok: bool)
    requires nextCode.Length == 17
    modifies nextCode
    ensures ok == Accepted(sizes)
    ensures forall l :: 1 <= l <= 15 ==> nextCode[l] == First(sizes, l)
  {
    hide First, Total, SumCounts, UsedCount;
    SumIsUsed(sizes, |sizes|);
    var totalSyms := CountSizes(sizes);
    var usedSyms, total := FirstCodes(sizes, totalSyms, nextCode);
    ok := !(65536 != total && usedSyms > 1);
  }

  /** Builds the tables for a code-size vector, or reports that the vector is no code. */
  method BuildTables(sizes: Sizes, lookUp: array<int>, tree: array<int>) returns (ok: bool, ghost nodes: NodeMap)
    requires Separate(sizes, lookUp, tree)
    modifies lookUp, tree
    ensures ok == Accepted(sizes)
    ensures ok ==> Holds(sizes, |sizes|, Memory(lookUp, tree), nodes)
  {
    ClearTables(lookUp, tree);
    nodes := map[];
    var nextCode := new nat[17];
    ok := StartCodes(sizes, nextCode);
    if !ok { return; }
    NothingHeld(sizes, Memory(lookUp, tree));
    var treeNext := -1;
    var symIndex := 0;
    while symIndex < |sizes|
      invariant symIndex <= |sizes| && treeNext == NodeEntry(|nodes|)
      invariant Holds(sizes, symIndex, Memory(lookUp, tree), nodes)
      invariant forall l :: 1 <= l <= 15 ==> nextCode[l] == First(sizes, l) + Count(sizes, l, symIndex)
    {
      treeNext, nodes := InsertSymbol(sizes, symIndex, nextCode, lookUp, tree, treeNext, nodes);
      symIndex := symIndex + 1;
    }
  }

  method ClearTables(lookUp: array<int>, tree: array<int>)
    modifies lookUp, tree
    ensures forall i :: 0 <= i < lookUp.Length ==> lookUp[i] == 0
    ensures forall i :: 0 <= i < tree.Length ==> tree[i] == 0
  {
    forall i | 0 <= i < lookUp.Length { lookUp[i] := 0; }
    forall i | 0 <= i < tree.Length { tree[i] := 0; }
  }

  lemma NothingHeld(sizes: Sizes, mem: seq<int>)
    requires |mem| >= LOOKUP_SIZE && forall i :: 0 <= i < |mem| ==> mem[i] == 0
    ensures Holds(sizes, 0, mem, map[])
  {
    hide ToNat, Code;
  }

  method InsertSymbol(sizes: Sizes, symIndex: nat, nextCode: array<nat>, lookUp: array<int>, tree: array<int>,
                      treeNext: int, ghost nodes: NodeMap)
    returns (next: int, ghost nodes': NodeMap)
    requires Separate(sizes, lookUp, tree) && nextCode.Length == 17
    requires Accepted(sizes) && symIndex < |sizes|
    requires Holds(sizes, symIndex, Memory(lookUp, tree), nodes)
    requires treeNext == NodeEntry(|nodes|)
    requires forall l :: 1 <= l <= 15 ==> nextCode[l] == First(sizes, l) + Count(sizes, l, symIndex)
    modifies lookUp, tree, nextCode
    ensures Holds(sizes, symIndex + 1, Memory(lookUp, tree), nodes') && next == NodeEntry(|nodes'|)
    ensures forall l :: 1 <= l <= 15 ==> nextCode[l] == First(sizes, l) + Count(sizes, l, symIndex + 1)
  {
    hide Holds, Accepted, Complete, First;
    var codeSize := sizes[symIndex];
    next, nodes' := treeNext, nodes;
    if codeSize == 0 {
      AddUnused(sizes, symIndex, Memory(lookUp, tree), nodes);
    } else {
      var curCode := nextCode[codeSize];
      nextCode[codeSize] := nextCode[codeSize] + 1;
      var revCode := ReverseCode(curCode, codeSize);
      assert revCode == ToNat(Code(sizes, symIndex));
      if codeSize <= LOOKUP_BITS {
        InsertShort(sizes, symIndex, revCode, codeSize, lookUp, tree, nodes);
      } else {
        next, nodes' := InsertLong(sizes, symIndex, revCode, codeSize, lookUp, tree, treeNext, nodes);
      }
    }
  }

  method InsertShort(ghost sizes: Sizes, symIndex: nat, revCode: nat, codeSize: nat, lookUp: array<int>,
                     tree: array<int>, ghost nodes: NodeMap)
    requires Separate(sizes, lookUp, tree)
    requires Accepted(sizes) && symIndex < |sizes| && 0 < sizes[symIndex] == codeSize <= LOOKUP_BITS
    requires revCode == ToNat(Code(sizes, symIndex))
    requires Holds(sizes, symIndex, Memory(lookUp, tree), nodes)
    modifies lookUp
    ensures Holds(sizes, symIndex + 1, Memory(lookUp, tree), nodes)
  {
    hide Holds, Accepted, Complete, Code, ToNat;
    ghost var mem := Memory(lookUp, tree);
    FillShort(revCode, codeSize, lookUp, 512 * codeSize + symIndex, Code(sizes, symIndex));
    AddShort(sizes, symIndex, mem, nodes, Memory(lookUp, tree));
  }
}
