/** The name index of an opened ZIP archive: directory entries sorted by lower-cased name with a
    heap sort, and the two ways to find an entry: binary search and scan. */
module ZipIndex {
  import opened Bits

  type Name = seq<Byte>

  const HEADER_SIZE: nat := 46
  const NAME_LENGTH_AT: nat := 28
  const EXTRA_LENGTH_AT: nat := 30
  const COMMENT_LENGTH_AT: nat := 32
  const LONGEST_NAME: nat := 0xffff
  const WORD32: nat := 0x1_0000_0000

  /** A letter A to Z becomes its small form; every other byte stays. */
  function Lower(c: Byte): Byte {
    if 'A' as int <= c <= 'Z' as int then c - 'A' as int + 'a' as int else c
  }

  function Fold(s: Name): (r: Name)
    ensures |r| == |s|
    ensures forall i :: 0 <= i < |s| ==> r[i] == Lower(s[i])
  {
    seq(|s|, i requires 0 <= i < |s| => Lower(s[i]))
  }

  /** Dictionary order; a proper prefix comes first. */
  predicate Less(a: Name, b: Name) {
    if a == [] then b != []
    else if b == [] then false
    else if a[0] != b[0] then a[0] < b[0]
    else Less(a[1..], b[1..])
  }

  lemma {:induction false} LessIsStrict(a: Name, b: Name)
    ensures !(Less(a, b) && Less(b, a))
    ensures Less(a, b) || Less(b, a) || a == b
    ensures a == b ==> !Less(a, b)
  {
    if a != [] && b != [] && a[0] == b[0] {
      LessIsStrict(a[1..], b[1..]);
      assert a == [a[0]] + a[1..] && b == [b[0]] + b[1..];
    }
  }

  lemma {:induction false} LessTransitive(a: Name, b: Name, c: Name)
    requires Less(a, b) && Less(b, c)
    ensures Less(a, c)
  {
    if a != [] && a[0] == b[0] && b[0] == c[0] { LessTransitive(a[1..], b[1..], c[1..]); }
  }

  /** What the first `k` equal bytes leave to be compared. */
  lemma {:induction false} LessAt(a: Name, b: Name, k: nat)
    requires k <= |a| && k <= |b| && a[..k] == b[..k]
    ensures k == |a| || k == |b| ==> Less(a, b) == (|a| < |b|)
    ensures k < |a| && k < |b| && a[k] != b[k] ==> Less(a, b) == (a[k] < b[k])
  {
    if k > 0 {
      assert a[0] == a[..k][0] && b[0] == b[..k][0];
      assert a[1..][..k - 1] == a[..k][1..] && b[1..][..k - 1] == b[..k][1..];
      LessAt(a[1..], b[1..], k - 1);
    }
  }

  /** The central directory as read from the file, and where each entry starts in it. */
  datatype Directory = Directory(bytes: seq<Byte>, offsets: seq<nat>) {

    function Word(at: nat): (r: nat)
      requires at + 1 < |bytes|
      ensures r <= LONGEST_NAME
    {
      bytes[at] + 256 * (bytes[at + 1] as nat)
    }

    predicate EntryFits(i: nat)
      requires i < |offsets|
    {
      && offsets[i] + HEADER_SIZE <= |bytes|
      && offsets[i] + HEADER_SIZE + Word(offsets[i] + NAME_LENGTH_AT) + Word(offsets[i] + EXTRA_LENGTH_AT)
        + Word(offsets[i] + COMMENT_LENGTH_AT) <= |bytes|
    }

    /** What opening the archive has checked: every entry lies inside the directory. */
    predicate Valid() {
      forall i: nat :: i < |offsets| ==> EntryFits(i)
    }

    function NameStart(i: nat): (r: nat)
      requires Valid() && i < |offsets|
    {
      offsets[i] + HEADER_SIZE
    }

    function NameLength(i: nat): (r: nat)
      requires Valid() && i < |offsets|
      ensures r <= LONGEST_NAME && NameStart(i) + r <= |bytes|
    {
      assert EntryFits(i);
      Word(offsets[i] + NAME_LENGTH_AT)
    }

    function NameOf(i: nat): (r: Name)
      requires Valid() && i < |offsets|
    {
      assert EntryFits(i);
      bytes[NameStart(i)..NameStart(i) + NameLength(i)]
    }

    function CommentOf(i: nat): (r: Name)
      requires Valid() && i < |offsets|
    {
      assert EntryFits(i);
      var at := NameStart(i) + NameLength(i) + Word(offsets[i] + EXTRA_LENGTH_AT);
      bytes[at..at + Word(offsets[i] + COMMENT_LENGTH_AT)]
    }

    /** What entries are sorted by. */
    function Key(i: nat): (r: Name)
      requires Valid() && i < |offsets|
      ensures |r| == NameLength(i)
    {
      Fold(NameOf(i))
    }
  }

  /** A text of the basic character set as bytes. */
  function Ascii(s: string): (r: Name)
    requires forall i :: 0 <= i < |s| ==> s[i] < '\U{80}'
    ensures |r| == |s| && forall i :: 0 <= i < |s| ==> r[i] == s[i] as int
  {
    seq(|s|, i requires 0 <= i < |s| => s[i] as int)
  }

  const CAPITALS := "ABCDEFGHIJKLMNOPQRSTUVWXYZ"

  /** Exactly the capital letters fold, to the small ones in order. */
  lemma FoldsCapitals()
    ensures Fold(Ascii(CAPITALS)) == Ascii("abcdefghijklmnopqrstuvwxyz")
    ensures forall c: Byte :: c !in Ascii(CAPITALS) ==> Lower(c) == c
  {
    FoldIs();
    forall c: Byte | c !in Ascii(CAPITALS) ensures Lower(c) == c { NoCapital(c); }
  }

  lemma FoldIs()
    ensures Fold(Ascii(CAPITALS)) == Ascii("abcdefghijklmnopqrstuvwxyz")
  {
  }

  lemma NoCapital(c: Byte)
    ensures c in Ascii(CAPITALS) || Lower(c) == c
  {
    if 'A' as int <= c <= 'Z' as int { assert Ascii(CAPITALS)[c - 'A' as int] == c; }
  }

  function Two(n: nat): (r: seq<Byte>)
    requires n <= LONGEST_NAME
    ensures |r| == 2
  {
    [n % 256, n / 256]
  }

  /** An entry of the directory (section 4.3.12 of the ZIP specification): 28 bytes, the three lengths, 12 bytes, and
      then the name, the extra field and the comment. */
  function Entry(front: seq<Byte>, back: seq<Byte>, name: Name, extra: seq<Byte>, comment: Name): (r: seq<Byte>)
    requires |front| == 28 && |back| == 12
    requires |name| <= LONGEST_NAME && |extra| <= LONGEST_NAME && |comment| <= LONGEST_NAME
    ensures |r| == 46 + |name| + |extra| + |comment|
  {
    front + Two(|name|) + Two(|extra|) + Two(|comment|) + back + name + extra + comment
  }

  /** Name and comment of an entry are read where they were written. */
  lemma EntryRoundTrip(d: Directory, i: nat, front: seq<Byte>, back: seq<Byte>, name: Name, extra: seq<Byte>, comment: Name)
    requires |front| == 28 && |back| == 12 && i < |d.offsets|
    requires |name| <= LONGEST_NAME && |extra| <= LONGEST_NAME && |comment| <= LONGEST_NAME
    requires d.offsets[i] <= |d.bytes| && Entry(front, back, name, extra, comment) <= d.bytes[d.offsets[i]..]
    ensures d.EntryFits(i) && (d.Valid() ==> d.NameOf(i) == name && d.CommentOf(i) == comment)
  {
    var at, e := d.offsets[i], Entry(front, back, name, extra, comment);
    EntryParts(front, back, name, extra, comment);
    hide Entry, Two;
    assert forall k :: 0 <= k < |e| ==> d.bytes[at + k] == e[k];
    if d.Valid() {
      assert d.NameOf(i) == e[46..46 + |name|];
      assert d.CommentOf(i) == e[46 + |name| + |extra|..];
    }
  }

  lemma EntryParts(front: seq<Byte>, back: seq<Byte>, name: Name, extra: seq<Byte>, comment: Name)
    requires |front| == 28 && |back| == 12
    requires |name| <= LONGEST_NAME && |extra| <= LONGEST_NAME && |comment| <= LONGEST_NAME
    ensures var e := Entry(front, back, name, extra, comment);
            && e[28] + 256 * (e[29] as nat) == |name| && e[30] + 256 * (e[31] as nat) == |extra| && e[32] + 256 * (e[33] as nat) == |comment|
            && e[46..46 + |name|] == name && e[46 + |name| + |extra|..] == comment
  {
  }

  /** `mz_zip_reader_filename_less` */
  method FilenameLess(d: Directory, l: nat, r: nat) returns (less: bool)
    requires d.Valid() && l < |d.offsets| && r < |d.offsets|
    ensures less == Less(d.Key(l), d.Key(r))
  {
    hide Less;
    ghost var a, b := d.Key(l), d.Key(r);
    var p, q := d.NameStart(l), d.NameStart(r);
    var lLength, rLength := d.NameLength(l), d.NameLength(r);
    var e := p + if lLength < rLength then lLength else rLength;
    var x: Byte, y: Byte := 0, 0;
    ghost var k: nat := 0;
    while p < e
      invariant k <= |a| && k <= |b| && a[..k] == b[..k]
      invariant p == d.NameStart(l) + k && q == d.NameStart(r) + k && p <= e
    {
      x, y := Lower(d.bytes[p]), Lower(d.bytes[q]);
      assert x == a[k] && y == b[k];
      if x != y { break; }
      p, q, k := p + 1, q + 1, k + 1;
    }
    LessAt(a, b, k);
    less := if p == e then lLength < rLength else x < y;
  }

  /** `x` may stand before `y` in the sorted index. */
  ghost predicate AtMost(d: Directory, x: nat, y: nat)
    requires d.Valid() && x < |d.offsets| && y < |d.offsets|
  {
    !Less(d.Key(y), d.Key(x))
  }

  lemma AtMostTransitive(d: Directory, x: nat, y: nat, z: nat)
    requires d.Valid() && x < |d.offsets| && y < |d.offsets| && z < |d.offsets|
    requires AtMost(d, x, y) && AtMost(d, y, z)
    ensures AtMost(d, x, z)
  {
    hide Less;
    LessIsStrict(d.Key(x), d.Key(y));
    LessIsStrict(d.Key(y), d.Key(z));
    if Less(d.Key(z), d.Key(x)) {
      if d.Key(x) != d.Key(y) { LessTransitive(d.Key(z), d.Key(x), d.Key(y)); }
    }
  }

  lemma LessMeans(d: Directory, x: nat, y: nat)
    requires d.Valid() && x < |d.offsets| && y < |d.offsets|
    ensures if Less(d.Key(x), d.Key(y)) then AtMost(d, x, y) else AtMost(d, y, x)
    ensures AtMost(d, x, x)
  {
    hide Less;
    LessIsStrict(d.Key(x), d.Key(y));
    LessIsStrict(d.Key(x), d.Key(x));
  }

  ghost predicate Indices(d: Directory, s: seq<nat>) {
    d.Valid() && forall i :: 0 <= i < |s| ==> s[i] < |d.offsets|
  }

  /** Entry `i` of the heap does not come after its parent. */
  ghost predicate Under(d: Directory, s: seq<nat>, i: nat)
    requires Indices(d, s) && 0 < i < |s|
  {
    AtMost(d, s[i], s[(i - 1) / 2])
  }

  /** The first `end` entries form a heap as far as parents from `low` on go. */
  ghost predicate Heap(d: Directory, s: seq<nat>, low: nat, end: nat)
    requires Indices(d, s)
  {
    end <= |s| && forall i: nat :: 0 < i < end && (i - 1) / 2 >= low ==> Under(d, s, i)
  }

  /** The same but for the children of `root`, which do not come after the parent of `root`. */
  ghost predicate HeapBut(d: Directory, s: seq<nat>, low: nat, end: nat, root: nat)
    requires Indices(d, s)
  {
    && end <= |s| && low <= root
    && (forall i: nat :: 0 < i < end && (i - 1) / 2 >= low && (i - 1) / 2 != root ==> Under(d, s, i))
    && (forall i: nat :: 0 < i < end && (i - 1) / 2 == root && 0 < root < end && (root - 1) / 2 >= low ==>
      AtMost(d, s[i], s[(root - 1) / 2]))
  }

  function Swapped(s: seq<nat>, i: nat, j: nat): (r: seq<nat>)
    requires i < |s| && j < |s|
    ensures |r| == |s|
    ensures forall k :: 0 <= k < |s| ==> r[k] == if k == i then s[j] else if k == j then s[i] else s[k]
  {
    s[i := s[j]][j := s[i]]
  }

  lemma SwapKeeps(s: seq<nat>, i: nat, j: nat, end: nat)
    requires i < end <= |s| && j < end
    ensures multiset(Swapped(s, i, j)[..end]) == multiset(s[..end])
    ensures Swapped(s, i, j)[end..] == s[end..]
  {
    assert Swapped(s, i, j)[..end] == s[..end][i := s[j]][j := s[i]];
  }

  /** `child` is the child of `root` that no other child comes after. */
  ghost predicate Chosen(d: Directory, s: seq<nat>, end: nat, root: nat, child: nat)
    requires Indices(d, s)
  {
    && child < end <= |s| && root < |s| && 0 < child && (child - 1) / 2 == root
    && (forall i: nat :: 0 < i < end && (i - 1) / 2 == root ==> AtMost(d, s[i], s[child]))
  }

  lemma TwoChildren(d: Directory, s: seq<nat>, end: nat, root: nat, child: nat)
    requires Indices(d, s) && end <= |s| && root < |s| && 2 * root + 1 <= child <= 2 * root + 2 && child < end
    requires AtMost(d, s[2 * root + 1], s[child])
    requires 2 * root + 2 < end ==> AtMost(d, s[2 * root + 2], s[child])
    ensures Chosen(d, s, end, root, child)
  {
    hide AtMost;
  }

  /** Stopping: the larger child does not come after the root. */
  lemma SettleStop(d: Directory, s: seq<nat>, low: nat, end: nat, root: nat, child: nat)
    requires Indices(d, s) && HeapBut(d, s, low, end, root) && Chosen(d, s, end, root, child)
    requires AtMost(d, s[child], s[root])
    ensures Heap(d, s, low, end)
  {
    hide AtMost;
    forall i: nat | 0 < i < end && (i - 1) / 2 == root ensures Under(d, s, i) {
      AtMostTransitive(d, s[i], s[child], s[root]);
    }
  }

  /** Going down: the larger child moves up. */
  lemma SettleDown(d: Directory, s: seq<nat>, low: nat, end: nat, root: nat, child: nat)
    requires Indices(d, s) && HeapBut(d, s, low, end, root) && Chosen(d, s, end, root, child)
    requires AtMost(d, s[root], s[child])
    ensures Indices(d, Swapped(s, root, child)) && HeapBut(d, Swapped(s, root, child), low, end, child)
  {
    hide AtMost, Swapped;
    var t := Swapped(s, root, child);
    forall i: nat | 0 < i < end && (i - 1) / 2 >= low && (i - 1) / 2 != child ensures Under(d, t, i) {
      assert (i - 1) / 2 != root && i != root ==> Under(d, s, i);
      if (i - 1) / 2 == root { LessMeans(d, s[child], s[child]); }
    }
    forall i: nat | 0 < i < end && (i - 1) / 2 == child ensures AtMost(d, t[i], t[root]) {
      assert Under(d, s, i);
    }
  }

  /** The root of a heap comes last of all. */
  lemma {:induction false} RootIsLast(d: Directory, s: seq<nat>, end: nat, i: nat)
    requires Indices(d, s) && Heap(d, s, 0, end) && i < end
    ensures AtMost(d, s[i], s[0])
  {
    hide AtMost;
    if i == 0 {
      LessMeans(d, s[0], s[0]);
    } else {
      assert Under(d, s, i);
      RootIsLast(d, s, end, (i - 1) / 2);
      AtMostTransitive(d, s[i], s[(i - 1) / 2], s[0]);
    }
  }

  /** The inner loop that both halves of the sort share: the entry at `low` sinks among the first
      `end` until the heap is in order from `low` on. */
  method SiftDown(d: Directory, a: array<nat>, low: nat, end: nat)
    requires Indices(d, a[..]) && low < end <= a.Length && Heap(d, a[..], low + 1, end)
    modifies a
    ensures Indices(d, a[..]) && Heap(d, a[..], low, end)
    ensures multiset(a[..end]) == multiset(old(a[..end])) && a[end..] == old(a[end..])
  {
    hide Less, AtMost, Swapped, HeapBut, Heap, Chosen;
    var root := low;
    HeapIsBut(d, a[..], low, end);
    while true
      invariant low <= root < end && Indices(d, a[..]) && HeapBut(d, a[..], low, end, root)
      invariant multiset(a[..end]) == multiset(old(a[..end])) && a[end..] == old(a[end..])
      decreases end - root
    {
      if 2 * root + 1 >= end {
        NoChildren(d, a[..], low, end, root);
        break;
      }
      var child := LargerChild(d, a, end, root);
      var sinks := FilenameLess(d, a[root], a[child]);
      LessMeans(d, a[root], a[child]);
      if !sinks {
        SettleStop(d, a[..], low, end, root, child);
        break;
      }
      ChildBelow(d, a[..], end, root, child);
      SettleDown(d, a[..], low, end, root, child);
      SwapEntries(a, root, child, end);
      root := child;
    }
  }

  lemma HeapIsBut(d: Directory, s: seq<nat>, low: nat, end: nat)
    requires Indices(d, s) && Heap(d, s, low + 1, end)
    ensures HeapBut(d, s, low, end, low)
  {
  }

  lemma NoChildren(d: Directory, s: seq<nat>, low: nat, end: nat, root: nat)
    requires Indices(d, s) && HeapBut(d, s, low, end, root) && 2 * root + 1 >= end
    ensures Heap(d, s, low, end)
  {
    hide AtMost;
  }

  lemma ChildBelow(d: Directory, s: seq<nat>, end: nat, root: nat, child: nat)
    requires Indices(d, s) && Chosen(d, s, end, root, child)
    ensures root < child
  {
  }

  /** `child += ...`: the child that the other does not come after. */
  method LargerChild(d: Directory, a: array<nat>, end: nat, root: nat) returns (child: nat)
    requires Indices(d, a[..]) && 2 * root + 1 < end <= a.Length
    ensures child < end && Chosen(d, a[..], end, root, child)
  {
    hide Less, AtMost, Chosen;
    child := 2 * root + 1;
    if child + 1 < end {
      var less := FilenameLess(d, a[child], a[child + 1]);
      LessMeans(d, a[child], a[child + 1]);
      if less { child := child + 1; }
    }
    LessMeans(d, a[child], a[child]);
    TwoChildren(d, a[..], end, root, child);
  }

  /** `MZ_SWAP_UINT32` on two of the first `end` entries. */
  method SwapEntries(a: array<nat>, i: nat, j: nat, ghost end: nat)
    requires i < end <= a.Length && j < end
    modifies a
    ensures a[..] == Swapped(old(a[..]), i, j)
    ensures multiset(a[..end]) == multiset(old(a[..end])) && a[end..] == old(a[end..])
  {
    ghost var was := a[..];
    SwapKeeps(was, i, j, end);
    a[i], a[j] := a[j], a[i];
    assert a[..] == Swapped(was, i, j);
    assert was[..end] == old(a[..end]) && was[end..] == old(a[end..]);
    assert a[..][..end] == a[..end] && a[..][end..] == a[end..];
  }

  ghost predicate Ascending(d: Directory, s: seq<nat>, from: nat)
    requires Indices(d, s)
  {
    forall i: nat, j: nat :: from <= i < j < |s| ==> AtMost(d, s[i], s[j])
  }

  /** Everything before `end` may stand before everything from there on. */
  ghost predicate Divided(d: Directory, s: seq<nat>, end: nat)
    requires Indices(d, s)
  {
    forall i: nat, j: nat :: i < end <= j < |s| ==> AtMost(d, s[i], s[j])
  }

  /** Rearranging the front does not change what is divided from it. */
  lemma DividedAfter(d: Directory, was: seq<nat>, now: seq<nat>, end: nat)
    requires Indices(d, was) && Indices(d, now) && |was| == |now| && end <= |was| && Divided(d, was, end)
    requires multiset(now[..end]) == multiset(was[..end]) && now[end..] == was[end..]
    ensures Divided(d, now, end)
  {
    hide AtMost;
    forall i: nat, j: nat | i < end <= j < |now| ensures AtMost(d, now[i], now[j]) {
      assert now[..end][i] in multiset(now[..end]);
      assert now[i] in was[..end];
      var k :| 0 <= k < end && was[k] == now[i];
      assert now[end..][j - end] == was[end..][j - end];
    }
  }

  /** One round: the root goes to the end of the front. */
  lemma RoundMoves(d: Directory, s: seq<nat>, end: nat)
    requires Indices(d, s) && 0 < end < |s| && Heap(d, s, 0, end + 1) && Divided(d, s, end + 1) && Ascending(d, s, end + 1)
    ensures Indices(d, Swapped(s, end, 0))
    ensures Heap(d, Swapped(s, end, 0), 1, end) && Divided(d, Swapped(s, end, 0), end) && Ascending(d, Swapped(s, end, 0), end)
  {
    hide AtMost;
    var t := Swapped(s, end, 0);
    forall i: nat | 0 < i < end && (i - 1) / 2 >= 1 ensures Under(d, t, i) {
      assert Under(d, s, i);
    }
    forall i: nat, j: nat | i < end <= j < |t| ensures AtMost(d, t[i], t[j]) {
      RootIsLast(d, s, end + 1, if i == 0 then end else i);
    }
  }

  /** What sorting promises of the index of a directory. */
  ghost predicate SortedIndex(d: Directory, s: seq<nat>) {
    && Indices(d, s)
    && multiset(s) == multiset(seq(|d.offsets|, i requires 0 <= i < |d.offsets| => i))
    && Ascending(d, s, 0)
  }

  /** First half of the sort: parents from the last to the first sink into place. */
  method MakeHeap(d: Directory, a: array<nat>)
    requires Indices(d, a[..]) && a.Length > 1
    modifies a
    ensures Indices(d, a[..]) && Heap(d, a[..], 0, a.Length)
    ensures multiset(a[..]) == multiset(old(a[..]))
  {
    hide Less, AtMost, Under;
    var size := a.Length;
    var start := (size - 2) / 2;
    while true
      invariant 0 <= start <= (size - 2) / 2
      invariant Indices(d, a[..]) && Heap(d, a[..], start + 1, size) && multiset(a[..]) == multiset(old(a[..]))
      decreases start
    {
      assert a[..] == a[..size];
      SiftDown(d, a, start, size);
      assert a[..] == a[..size];
      if start == 0 { break; }
      start := start - 1;
    }
  }

  /** The last `size - end - 1` entries are in their places, the others form a heap. */
  ghost predicate Extracted(d: Directory, s: seq<nat>, end: nat) {
    && Indices(d, s) && end < |s|
    && Heap(d, s, 0, end + 1) && Divided(d, s, end + 1) && Ascending(d, s, end + 1)
  }

  /** One round of the second half: the root goes behind the heap and the new root sinks. */
  method ExtractLast(d: Directory, a: array<nat>, end: nat)
    requires Extracted(d, a[..], end) && end > 0
    modifies a
    ensures Extracted(d, a[..], end - 1)
    ensures multiset(a[..]) == multiset(old(a[..]))
  {
    hide Less, AtMost, Under, Heap, Divided, Ascending;
    ghost var was := a[..];
    RoundMoves(d, was, end);
    SwapKeeps(was, end, 0, |was|);
    assert Swapped(was, end, 0)[..|was|] == Swapped(was, end, 0) && was[..|was|] == was;
    a[end], a[0] := a[0], a[end];
    ghost var moved := a[..];
    assert moved == Swapped(was, end, 0);
    assert moved[..end] == a[..end] && moved[end..] == a[end..];
    SiftDown(d, a, 0, end);
    ghost var now := a[..];
    assert now[..end] == a[..end] && now[end..] == a[end..];
    FrontSettled(d, moved, now, end);
  }

  /** `mz_zip_reader_sort_central_dir_offsets_by_filename` */
  method SortOffsets(d: Directory, a: array<nat>)
    requires Indices(d, a[..])
    modifies a
    ensures Indices(d, a[..]) && Ascending(d, a[..], 0)
    ensures multiset(a[..]) == multiset(old(a[..]))
  {
    hide Less, AtMost, Under, Heap;
    var size := a.Length;
    if size <= 1 { return; }
    MakeHeap(d, a);
    var end := size - 1;
    while end > 0
      invariant 0 <= end < size && Extracted(d, a[..], end) && multiset(a[..]) == multiset(old(a[..]))
    {
      ExtractLast(d, a, end);
      end := end - 1;
    }
    LastOne(d, a[..]);
  }

  lemma FrontSettled(d: Directory, was: seq<nat>, now: seq<nat>, end: nat)
    requires Indices(d, was) && Indices(d, now) && |was| == |now| && end <= |was|
    requires Divided(d, was, end) && Ascending(d, was, end)
    requires multiset(now[..end]) == multiset(was[..end]) && now[end..] == was[end..]
    ensures Divided(d, now, end) && Ascending(d, now, end)
    ensures multiset(now) == multiset(was)
  {
    hide AtMost;
    DividedAfter(d, was, now, end);
    forall i: nat | end <= i < |now| ensures now[i] == was[i] {
      assert now[end..][i - end] == was[end..][i - end];
    }
    assert now == now[..end] + now[end..] && was == was[..end] + was[end..];
  }

  lemma LastOne(d: Directory, s: seq<nat>)
    requires Indices(d, s) && |s| > 0 && Divided(d, s, 1) && Ascending(d, s, 1)
    ensures Ascending(d, s, 0)
  {
    hide AtMost;
  }

  /** The index of an archive that is opened with sorting on. */
  method BuildIndex(d: Directory) returns (a: array<nat>)
    requires d.Valid()
    ensures fresh(a) && a.Length == |d.offsets| && SortedIndex(d, a[..])
  {
    hide Less, AtMost;
    a := new nat[|d.offsets|];
    var i: nat := 0;
    while i < a.Length
      invariant i <= a.Length && forall k :: 0 <= k < i ==> a[k] == k
    {
      a[i] := i;
      i := i + 1;
    }
    assert a[..] == seq(|d.offsets|, i requires 0 <= i < |d.offsets| => i);
    SortOffsets(d, a);
  }

  /** Every entry is in a sorted index. */
  lemma Indexed(d: Directory, s: seq<nat>, e: nat)
    requires SortedIndex(d, s) && e < |d.offsets|
    ensures e in s
  {
    var all := seq(|d.offsets|, i requires 0 <= i < |d.offsets| => i);
    assert all[e] == e && e in multiset(all);
  }

  datatype Located = Found(index: nat) | NotFound | InvalidParameter

  /** An unsigned difference read as a signed one. */
  function Signed32(n: int): int {
    var w := n % WORD32;
    if w < WORD32 / 2 then w else w - WORD32
  }

  /** `mz_zip_filename_compare`: both lengths are 32-bit, so the difference may wrap. */
  method FilenameCompare(d: Directory, l: nat, name: Name) returns (order: int)
    requires d.Valid() && l < |d.offsets| && |name| < WORD32
    ensures order == 0 <==> d.Key(l) == Fold(name)
    ensures |name| <= LONGEST_NAME ==> (order < 0 <==> Less(d.Key(l), Fold(name)))
  {
    hide Less;
    ghost var a, b := d.Key(l), Fold(name);
    var p, q: nat := d.NameStart(l), 0;
    var length := d.NameLength(l);
    var e := p + if length < |name| then length else |name|;
    var x: Byte, y: Byte := 0, 0;
    while p < e
      invariant q <= |a| && q <= |b| && a[..q] == b[..q]
      invariant p == d.NameStart(l) + q && p <= e
    {
      x, y := Lower(d.bytes[p]), Lower(name[q]);
      assert x == a[q] && y == b[q];
      if x != y { break; }
      p, q := p + 1, q + 1;
    }
    LessAt(a, b, q);
    order := if p == e then Signed32(length - |name|) else x - y;
    if p == e && |a| == |b| { assert a == a[..q] && b == b[..q]; }
  }

  /** An entry whose name is `name` but for the case of letters. */
  ghost predicate SameName(d: Directory, i: nat, name: Name)
    requires d.Valid()
  {
    i < |d.offsets| && d.Key(i) == Fold(name)
  }

  ghost predicate Known(d: Directory, name: Name)
    requires d.Valid()
  {
    exists i: nat :: SameName(d, i, name)
  }

  lemma LongIsUnknown(d: Directory, name: Name)
    requires d.Valid() && |name| > LONGEST_NAME
    ensures !Known(d, name)
  {
  }

  /** The name as far as the 32-bit length of the search reaches. */
  function Cut(name: Name): (r: Name)
    ensures |r| < WORD32
    ensures |name| < WORD32 ==> r == name
  {
    name[..|name| % WORD32]
  }

  /** Half of the index can be put aside. */
  lemma HalfIsOut(d: Directory, s: seq<nat>, m: nat, k: nat, name: Name)
    requires SortedIndex(d, s) && m < |s| && k < |s| && SameName(d, s[k], name)
    ensures Less(d.Key(s[m]), Fold(name)) ==> k > m
    ensures Less(Fold(name), d.Key(s[m])) ==> k < m
  {
    hide Less;
    LessIsStrict(d.Key(s[m]), Fold(name));
    if k < m { assert AtMost(d, s[k], s[m]); }
    if m < k { assert AtMost(d, s[m], s[k]); }
  }

  lemma IsKnown(d: Directory, i: nat, name: Name)
    requires d.Valid() && SameName(d, i, name)
    ensures Known(d, name)
  {
  }

  lemma NowhereFound(d: Directory, s: seq<nat>, name: Name)
    requires SortedIndex(d, s) && forall k: nat :: k < |s| ==> !SameName(d, s[k], name)
    ensures !Known(d, name)
  {
    if e: nat :| SameName(d, e, name) { Indexed(d, s, e); }
  }

  /** `mz_zip_locate_file_binary_search` */
  method BinarySearch(d: Directory, s: array<nat>, name: Name) returns (r: Located)
    requires SortedIndex(d, s[..])
    ensures !r.InvalidParameter?
    ensures r.Found? <==> Known(d, Cut(name))
    ensures r.Found? ==> SameName(d, r.index, Cut(name))
  {
    hide Less, AtMost, Known;
    var key := Cut(name);
    var l, h := 0, s.Length - 1;
    while l <= h
      invariant 0 <= l <= h + 1 <= s.Length
      invariant forall k: nat :: k < s.Length && SameName(d, s[k], key) ==> l <= k <= h
    {
      var m := l + (h - l) / 2;
      var order := FilenameCompare(d, s[m], key);
      if order == 0 {
        IsKnown(d, s[m], key);
        return Found(s[m]);
      }
      ghost var was := s[..];
      forall k: nat | k < s.Length && SameName(d, s[k], key) ensures if order < 0 then k > m else k < m {
        if |key| > LONGEST_NAME { LongIsUnknown(d, key); }
        HalfIsOut(d, was, m, k, key);
        LessIsStrict(d.Key(was[m]), Fold(key));
      }
      if order < 0 { l := m + 1; } else { h := m - 1; }
    }
    NowhereFound(d, s[..], key);
    r := NotFound;
  }

  /** `mz_zip_string_equal`; names compare byte by byte when the case of letters counts. */
  method StringEqual(a: Name, b: Name, caseSensitive: bool) returns (equal: bool)
    requires |a| == |b|
    ensures equal == Same(a, b, caseSensitive)
  {
    if caseSensitive { return a == b; }
    var i: nat := 0;
    while i < |a|
      invariant i <= |a| && forall k :: 0 <= k < i ==> Fold(a)[k] == Fold(b)[k]
    {
      if Lower(a[i]) != Lower(b[i]) {
        assert Fold(a)[i] != Fold(b)[i];
        return false;
      }
      i := i + 1;
    }
    assert Fold(a) == Fold(b);
    equal := true;
  }

  predicate Same(a: Name, b: Name, caseSensitive: bool)
    ensures Same(a, b, caseSensitive) ==> |a| == |b|
  {
    assert |Fold(a)| == |a| && |Fold(b)| == |b|;
    if caseSensitive then a == b else Fold(a) == Fold(b)
  }

  /** Slash, backslash and colon end a directory part. */
  predicate Separator(c: Byte) { c == '/' as int || c == '\\' as int || c == ':' as int }

  /** `leaf` is what follows the last separator of `path`, or all of it. */
  ghost predicate IsLeaf(path: Name, leaf: Name) {
    && (forall c :: c in leaf ==> !Separator(c))
    && exists k: nat :: IsTail(path, leaf, k)
  }

  ghost predicate IsTail(path: Name, leaf: Name, k: nat) {
    k <= |path| && leaf == path[k..] && (k == 0 || Separator(path[k - 1]))
  }

  /** Each of the three ends a directory part. */
  lemma LeafAfter(directory: Name, separator: Byte, leaf: Name)
    requires separator in Ascii("/\\:") && forall c :: c in leaf ==> c !in Ascii("/\\:")
    ensures IsLeaf(directory + [separator] + leaf, leaf)
  {
    var s := Ascii("/\\:");
    forall c | c in leaf ensures !Separator(c) { assert c != s[0] && c != s[1] && c != s[2]; }
    assert IsTail(directory + [separator] + leaf, leaf, |directory| + 1);
  }

  lemma InTail(path: Name, leaf: Name, j: nat, k: nat)
    requires IsTail(path, leaf, j)
    ensures j < k <= |path| ==> path[k - 1] in leaf
  {
    if j < k <= |path| { assert leaf[k - 1 - j] == path[k - 1]; }
  }

  lemma OneLeaf(path: Name, a: Name, b: Name)
    requires IsLeaf(path, a) && IsLeaf(path, b)
    ensures a == b
  {
    var j: nat :| IsTail(path, a, j);
    var k: nat :| IsTail(path, b, k);
    InTail(path, a, j, k);
    InTail(path, b, k, j);
  }

  /** The name without its directories, found from the end. */
  method LeafOf(path: Name) returns (leaf: Name)
    ensures IsLeaf(path, leaf)
  {
    var k: nat := |path|;
    while k > 0 && !Separator(path[k - 1])
      invariant k <= |path| && forall i :: k <= i < |path| ==> !Separator(path[i])
    {
      k := k - 1;
    }
    leaf := path[k..];
    assert IsTail(path, leaf, k);
  }

  datatype Query = Query(name: Name, comment: Comment, ignorePath: bool, caseSensitive: bool)

  datatype Comment = AnyComment | WithComment(text: Name)

  /** The comment to be looked for; an empty one fits every entry. */
  function Wanted(c: Comment): Name {
    match c case AnyComment => [] case WithComment(text) => text
  }

  /** Entry `i` is one the query asks for. */
  ghost predicate Fits(d: Directory, i: nat, q: Query)
    requires d.Valid()
  {
    && i < |d.offsets|
    && (Wanted(q.comment) != [] ==> Same(Wanted(q.comment), d.CommentOf(i), q.caseSensitive))
    && exists leaf :: (if q.ignorePath then IsLeaf(d.NameOf(i), leaf) else leaf == d.NameOf(i)) && Same(q.name, leaf, q.caseSensitive)
  }

  /** One entry of the scan. */
  method EntryFitsQuery(d: Directory, i: nat, q: Query) returns (fits: bool)
    requires d.Valid() && i < |d.offsets|
    ensures fits == Fits(d, i, q)
  {
    var comment, path := Wanted(q.comment), d.NameOf(i);
    if |path| < |q.name| {
      assert forall leaf :: IsLeaf(path, leaf) ==> |leaf| <= |path|;
      return false;
    }
    if comment != [] {
      var theirs := d.CommentOf(i);
      if |theirs| != |comment| { return false; }
      var equal := StringEqual(comment, theirs, q.caseSensitive);
      if !equal { return false; }
    }
    var leaf := path;
    if q.ignorePath && path != [] {
      leaf := LeafOf(path);
      forall other | IsLeaf(path, other) ensures other == leaf { OneLeaf(path, leaf, other); }
    }
    if q.ignorePath && path == [] { assert IsTail(path, path, 0); }
    if |leaf| != |q.name| { return false; }
    fits := StringEqual(q.name, leaf, q.caseSensitive);
  }

  /** The scan over the whole directory finds the first entry that fits. */
  method Scan(d: Directory, q: Query) returns (r: Located)
    requires d.Valid()
    ensures r.InvalidParameter? <==> |q.name| > LONGEST_NAME || |Wanted(q.comment)| > LONGEST_NAME
    ensures r.Found? ==> Fits(d, r.index, q) && forall i: nat :: i < r.index ==> !Fits(d, i, q)
    ensures r.NotFound? ==> forall i: nat :: !Fits(d, i, q)
  {
    hide Fits;
    if |q.name| > LONGEST_NAME || |Wanted(q.comment)| > LONGEST_NAME { return InvalidParameter; }
    var i: nat := 0;
    while i < |d.offsets|
      invariant i <= |d.offsets| && forall k: nat :: k < i ==> !Fits(d, k, q)
    {
      var fits := EntryFitsQuery(d, i, q);
      if fits { return Found(i); }
      i := i + 1;
    }
    BeyondTheEnd(d, q);
    r := NotFound;
  }

  lemma BeyondTheEnd(d: Directory, q: Query)
    requires d.Valid()
    ensures forall i: nat :: Fits(d, i, q) ==> i < |d.offsets|
  {
  }

  /** A query for which the sorted index can be used. */
  predicate Plain(q: Query) {
    q.comment.AnyComment? && !q.ignorePath && !q.caseSensitive
  }

  /** The plain query asks for the name up to the case of letters. */
  lemma PlainFits(d: Directory, i: nat, q: Query)
    requires d.Valid() && Plain(q)
    ensures Fits(d, i, q) <==> SameName(d, i, q.name)
  {
    if SameName(d, i, q.name) {
      var leaf := d.NameOf(i);
      assert |Fold(leaf)| == |Fold(q.name)|;
      assert Same(q.name, leaf, false);
    }
  }

  /** `mz_zip_reader_locate_file_v2`; without sorting the index is empty. */
  method LocateFile(d: Directory, s: array<nat>, q: Query) returns (r: Located)
    requires d.Valid() && (s.Length > 0 ==> SortedIndex(d, s[..]))
    ensures r.Found? ==> Fits(d, r.index, q) || |q.name| >= WORD32
    ensures Plain(q) && s.Length > 0 ==> (r.Found? <==> Known(d, Cut(q.name)))
    ensures Plain(q) && s.Length == 0 ==> (r.Found? <==> Known(d, q.name))
    ensures (!Plain(q) || s.Length == 0) && r.Found? ==> forall i: nat :: i < r.index ==> !Fits(d, i, q)
    ensures !Plain(q) && r.NotFound? ==> forall i: nat :: !Fits(d, i, q)
    ensures !Plain(q) ==> (r.InvalidParameter? <==> |q.name| > LONGEST_NAME || |Wanted(q.comment)| > LONGEST_NAME)
  {
    hide Fits, Less, AtMost;
    if Plain(q) && s.Length > 0 {
      r := BinarySearch(d, s, q.name);
      if r.Found? { PlainFits(d, r.index, q); }
      return;
    }
    r := Scan(d, q);
    if Plain(q) {
      if |q.name| > LONGEST_NAME { LongIsUnknown(d, q.name); }
      forall i: nat ensures Fits(d, i, q) <==> SameName(d, i, q.name) { PlainFits(d, i, q); }
      ScanAnswers(d, q.name, r);
    }
  }

  lemma ScanAnswers(d: Directory, name: Name, r: Located)
    requires d.Valid()
    requires r.Found? ==> SameName(d, r.index, name)
    requires !r.Found? ==> |name| > LONGEST_NAME || forall i: nat :: !SameName(d, i, name)
    ensures r.Found? <==> Known(d, name)
  {
  }

  /** The two searches agree on a name exactly if its length fits 32 bits, or no entry has the name that
      is left when its length is cut to 32 bits. */
  lemma SearchesAgree(d: Directory, name: Name)
    requires d.Valid()
    ensures (Known(d, Cut(name)) <==> Known(d, name)) <==> |name| < WORD32 || !Known(d, Cut(name))
  {
    hide Known;
    if |name| >= WORD32 { LongIsUnknown(d, name); }
  }

  /** A plain lookup of a name in the same archive, opened with its sorted index and without. */
  method LocateBothWays(d: Directory, s: array<nat>, q: Query) returns (sorted: Located, scanned: Located)
    requires d.Valid() && SortedIndex(d, s[..]) && s.Length > 0 && Plain(q)
    ensures (sorted.Found? <==> scanned.Found?) <==> |q.name| < WORD32 || !Known(d, Cut(q.name))
    ensures |q.name| >= WORD32 ==> !scanned.Found?
    ensures sorted.Found? && scanned.Found? ==> SameName(d, sorted.index, q.name) && SameName(d, scanned.index, q.name)
  {
    hide Fits, Known, SortedIndex;
    SearchesAgree(d, q.name);
    sorted := LocateFile(d, s, q);
    var none := new nat[0];
    scanned := LocateFile(d, none, q);
    if |q.name| >= WORD32 { LongIsUnknown(d, q.name); }
    if sorted.Found? && scanned.Found? {
      PlainFits(d, sorted.index, q);
      PlainFits(d, scanned.index, q);
    }
  }

  /** Beyond that they need not: each entry is found by the binary search, and not by the scan, under
      its name followed by any 4 GiB. */
  lemma LongNamesDiffer(d: Directory, i: nat, more: Name)
    requires d.Valid() && i < |d.offsets| && |more| == WORD32
    ensures Known(d, Cut(d.NameOf(i) + more)) && !Known(d, d.NameOf(i) + more)
  {
    hide Fold;
    var name := d.NameOf(i) + more;
    assert |d.Key(i)| == d.NameLength(i);
    assert |name| % WORD32 == |d.NameOf(i)|;
    assert Cut(name) == d.NameOf(i);
    assert SameName(d, i, Cut(name));
    LongIsUnknown(d, name);
  }
}
