/** The inflater's output buffer, large enough for the whole output (the non-wrapping mode). */
module OutputBuffer {
  import opened Bits
  import opened BlockFormat

  lemma {:induction false} CopyAdds(out: seq<Byte>, dist: nat, a: nat, b: nat)
    requires 1 <= dist <= |out|
    ensures Copy(Copy(out, dist, a), dist, b) == Copy(out, dist, a + b)
  {
    if b > 0 { CopyAdds(out, dist, a, b - 1); }
  }

  lemma CopyOne(out: seq<Byte>, dist: nat, a: nat)
    requires 1 <= dist <= |out|
    ensures Copy(out, dist, a + 1) == Copy(out, dist, a) + [Copy(out, dist, a)[|out| + a - dist]]
  {
  }

  lemma CopyNone(out: seq<Byte>, dist: nat)
    requires 1 <= dist <= |out|
    ensures Copy(out, dist, 0) == out
  {
  }

  class Output {
    const buf: array<Byte>
    var end: nat     // pOut_buf_cur

    ghost predicate Valid()
      reads this
    {
      end <= buf.Length
    }

    ghost function Contents(): seq<Byte>
      reads this, buf
      requires Valid()
    {
      buf[..end]
    }

    constructor (capacity: nat)
      ensures Valid() && fresh(buf) && buf.Length == capacity && Contents() == []
    {
      buf := new Byte[capacity](_ => 0);
      end := 0;
    }

    method Put(b: Byte)
      requires Valid() && end < buf.Length
      modifies this, buf
      ensures Valid() && end == old(end) + 1 && Contents() == old(Contents()) + [b]
    {
      buf[end] := b;
      end := end + 1;
    }

    /** `TINFL_MEMCPY` from the input. */
    method PutAll(bytes: seq<Byte>)
      requires Valid() && end + |bytes| <= buf.Length
      modifies this, buf
      ensures Valid() && end == old(end) + |bytes| && Contents() == old(Contents()) + bytes
    {
      var i := 0;
      while i < |bytes|
        invariant i <= |bytes| && end == old(end) && buf[..end + i] == old(Contents()) + bytes[..i]
      {
        buf[end + i] := bytes[i];
        i := i + 1;
      }
      end := end + |bytes|;
    }

    /** `*pOut_buf_cur++ = pOut_buf_start[..]`: one byte copied from further back. */
    method Repeat(at: nat)
      requires Valid() && at < end < buf.Length
      modifies `end, buf
      ensures Valid() && end == old(end) + 1 && Contents() == old(Contents()) + [old(Contents())[at]]
    {
      buf[end] := buf[at];
      end := end + 1;
    }

    /** Copies byte by byte while there is room; false when the buffer fills up first. */
    method CopySlowly(dist: nat, count: nat) returns (ok: bool)
      requires Valid() && 1 <= dist <= end
      modifies this, buf
      ensures Valid() && ok == (old(end) + count <= buf.Length)
      ensures Contents() == Copy(old(Contents()), dist, if ok then count else buf.Length - old(end))
    {
      hide Copy;
      ghost var start := Contents();
      var counter: nat, from := count, end;
      assert Copy(start, dist, 0) == start by { CopyNone(start, dist); }
      while counter > 0
        invariant counter <= count && Valid() && end == old(end) + (count - counter) && from == end
        invariant Contents() == Copy(start, dist, count - counter)
      {
        if end >= buf.Length {
          assert count - counter == buf.Length - old(end);
          return false;
        }
        CopyOne(start, dist, count - counter);
        Repeat(from - dist);
        from := from + 1;
        counter := counter - 1;
      }
      ok := true;
    }

    method CopyThree(to: nat, from: nat, dist: nat, ghost start: seq<Byte>, ghost a: nat)
      requires to + 2 < buf.Length && 1 <= dist <= |start| && from == to - dist && to == |start| + a
      requires buf[..to] == Copy(start, dist, a)
      modifies buf
      ensures buf[..to + 3] == Copy(start, dist, a + 3)
    {
      hide Copy;
      CopyByte(to, from, dist, start, a);
      CopyByte(to + 1, from + 1, dist, start, a + 1);
      CopyByte(to + 2, from + 2, dist, start, a + 2);
    }

    /** The copy loop when the whole match fits: three bytes a turn, then the one or two left. */
    method CopyThrees(dist: nat, count: nat)
      requires Valid() && 1 <= dist <= end && end + count <= buf.Length
      modifies this, buf
      ensures Valid() && Contents() == Copy(old(Contents()), dist, count)
    {
      hide Copy;
      ghost var start := Contents();
      CopyNone(start, dist);
      var counter: nat, src := count, end - dist;
      while counter > 2
        invariant counter <= count && Valid() && end == old(end) + (count - counter) && src == end - dist
        invariant Contents() == Copy(start, dist, count - counter)
      {
        CopyThree(end, src, dist, start, count - counter);
        end := end + 3;
        src := src + 3;
        counter := counter - 3;
      }
      if counter > 0 {
        ghost var a := count - counter;
        CopyByte(end, src, dist, start, a);
        if counter > 1 {
          CopyByte(end + 1, src + 1, dist, start, a + 1);
          assert a + 1 + 1 == count;
        } else {
          assert a + 1 == count;
        }
        end := end + counter;
      }
    }

    method CopyByte(to: nat, from: nat, dist: nat, ghost start: seq<Byte>, ghost a: nat)
      requires to < buf.Length && 1 <= dist <= |start| && from == to - dist && to == |start| + a
      requires buf[..to] == Copy(start, dist, a)
      modifies buf
      ensures buf[..to + 1] == Copy(start, dist, a + 1)
    {
      CopyOne(start, dist, a);
      buf[to] := buf[from];
    }

    /** Copies a match; false when the output fills up. */
    method CopyMatch(dist: nat, count: nat) returns (ok: bool)
      requires Valid() && 1 <= dist <= end
      modifies this, buf
      ensures Valid() && ok == (old(end) + count <= buf.Length)
      ensures Contents() == Copy(old(Contents()), dist, if ok then count else buf.Length - old(end))
    {
      if end + count > buf.Length {
        ok := CopySlowly(dist, count);
      } else {
        CopyThrees(dist, count);
        ok := true;
      }
    }
  }
}
