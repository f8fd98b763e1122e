/** Writing bits to the output buffer, lowest bit of each byte first. */
module BitWriter {
  import opened Bits
  import opened HuffmanDecode

  lemma {:induction false} ByteBitsSnoc(bytes: seq<Byte>, b: Byte)
    ensures ByteBits(bytes + [b]) == ByteBits(bytes) + LowBits(b, 8)
  {
    if bytes == [] {
      assert [b][1..] == [] && ByteBits([]) == [];
      assert ByteBits([b]) == LowBits(b, 8) + [];
    } else {
      ByteBitsSnoc(bytes[1..], b);
      assert (bytes + [b])[1..] == bytes[1..] + [b];
      assert LowBits(bytes[0], 8) + (ByteBits(bytes[1..]) + LowBits(b, 8))
          == (LowBits(bytes[0], 8) + ByteBits(bytes[1..])) + LowBits(b, 8);
    }
  }

  lemma {:induction false} ByteBitsConcat(a: seq<Byte>, b: seq<Byte>)
    ensures ByteBits(a + b) == ByteBits(a) + ByteBits(b)
  {
    hide LowBits;
    if a == [] {
      assert a + b == b;
    } else {
      ByteBitsConcat(a[1..], b);
      assert (a + b)[1..] == a[1..] + b && (a + b)[0] == a[0];
      assert (LowBits(a[0], 8) + ByteBits(a[1..])) + ByteBits(b) == LowBits(a[0], 8) + (ByteBits(a[1..]) + ByteBits(b));
    }
  }

  lemma {:induction false} LowBitsMod(n: nat, k: nat)
    ensures LowBits(n % Pow2(k), k) == LowBits(n, k)
  {
    ToNatOfLowBits(n, k);
    LowBitsOfToNat(LowBits(n, k), 0);
  }

  lemma PowPositive(n: nat)
    ensures Pow2(n) > 0
  {
  }

  lemma TimesNext(a: nat, b: nat)
    ensures a * (b + 1) == a * b + a
  {
  }

  /** `buffer |= bits << k`: the bits already held, then the new ones. */
  lemma PutAbove(buffer: nat, k: nat, bits: nat, len: nat)
    requires buffer < Pow2(k) && bits < Pow2(len)
    ensures buffer + Pow2(k) * bits < Pow2(k + len)
    ensures LowBits(buffer + Pow2(k) * bits, k + len) == LowBits(buffer, k) + LowBits(bits, len)
  {
    hide *;
    PowPositive(k);
    LowBitsAppend(buffer, k, len, bits);
    Pow2Add(k, len);
    MulMonotone(Pow2(k), bits + 1, Pow2(len));
    TimesNext(Pow2(k), bits);
  }

  lemma PowEight()
    ensures Pow2(8) == 256
  {
  }

  lemma LowBitsSize(n: nat, k: nat)
    ensures |LowBits(n, k)| == k
  {
  }

  /** Moving the lowest eight bits out of the buffer. */
  lemma TakeByte(buffer: nat, k: nat)
    requires buffer < Pow2(k) && k >= 8
    ensures buffer / 256 < Pow2(k - 8)
    ensures LowBits(buffer, k) == LowBits(buffer % 256, 8) + LowBits(buffer / 256, k - 8)
  {
    hide *;
    PowEight();
    ShiftOut(buffer, k, 8);
    ShrIsDiv(buffer, 8);
    LowBitsPrefix(buffer, k, 8);
    LowBitsMod(buffer, 8);
    LowBitsSize(buffer, k);
    assert LowBits(buffer, k) == LowBits(buffer, k)[..8] + LowBits(buffer, k)[8..];
  }

  /** The output buffer of one block, and the bits that do not yet fill a byte. */
  class Writer {
    const capacity: nat
    var out: seq<Byte>
    var bitBuffer: nat
    var bitsIn: nat
    /** Every bit written since the buffer was started, and how many bytes of them have left
        the bit buffer. */
    ghost var sent: BitString
    ghost var whole: nat

    ghost predicate Holding()
      reads this
    {
      && |sent| == 8 * whole + bitsIn && bitBuffer < Pow2(bitsIn)
      && |out| == (if whole < capacity then whole else capacity)
      && (|out| < capacity ==> ByteBits(out) + LowBits(bitBuffer, bitsIn) == sent)
    }

    ghost predicate Valid()
      reads this
    {
      bitsIn < 8 && Holding()
    }

    constructor (capacity: nat)
      requires capacity > 0
      ensures Valid() && sent == [] && out == [] && bitBuffer == 0 && bitsIn == 0 && this.capacity == capacity
    {
      this.capacity, out, bitBuffer, bitsIn, sent, whole := capacity, [], 0, 0, [], 0;
    }

    /** Starts a fresh buffer; the bits short of a byte are carried over. */
    method Restart()
      requires Valid() && capacity > 0
      modifies this
      ensures Valid() && out == [] && bitBuffer == old(bitBuffer) && bitsIn == old(bitsIn)
      ensures sent == LowBits(bitBuffer, bitsIn) && whole == 0
    {
      out, sent, whole := [], LowBits(bitBuffer, bitsIn), 0;
      assert ByteBits([]) == [];
    }

    /** Forgets everything written since an earlier state of the buffer. */
    method Rewind(length: nat, buffer: nat, count: nat, ghost mark: BitString)
      requires Valid() && length <= |out| && length < capacity && count < 8 && buffer < Pow2(count)
      requires |mark| == 8 * length + count && ByteBits(out[..length]) + LowBits(buffer, count) == mark
      modifies this
      ensures Valid() && sent == mark && out == old(out)[..length] && bitBuffer == buffer && bitsIn == count
    {
      out, bitBuffer, bitsIn, sent, whole := out[..length], buffer, count, mark, length;
    }

    /** Moves one byte from the bit buffer to the output; a byte past the end is dropped. */
    method EmitByte()
      requires Holding() && bitsIn >= 8
      modifies this
      ensures Holding() && sent == old(sent) && bitsIn == old(bitsIn) - 8 && old(out) <= out
    {
      hide LowBits, Pow2, ByteBits;
      TakeByte(bitBuffer, bitsIn);
      var b: Byte := bitBuffer % 256;
      if |out| < capacity {
        ByteBitsSnoc(out, b);
        Regroup(ByteBits(out), LowBits(b, 8), LowBits(bitBuffer / 256, bitsIn - 8));
        out := out + [b];
      }
      bitBuffer := bitBuffer / 256;
      bitsIn := bitsIn - 8;
      whole := whole + 1;
    }

    /** `TDEFL_PUT_BITS`: bytes past the end of the buffer are dropped. */
    method PutBits(bits: nat, len: nat)
      requires Valid() && bits < Pow2(len)
      modifies this
      ensures Valid() && sent == old(sent) + LowBits(bits, len)
      ensures old(out) <= out
    {
      hide LowBits, Pow2, ByteBits;
      PutAbove(bitBuffer, bitsIn, bits, len);
      Regroup(ByteBits(out), LowBits(bitBuffer, bitsIn), LowBits(bits, len));
      bitBuffer := bitBuffer + Pow2(bitsIn) * bits;
      bitsIn := bitsIn + len;
      sent := sent + LowBits(bits, len);
      while bitsIn >= 8
        invariant Holding() && old(out) <= out && sent == old(sent) + LowBits(bits, len)
      {
        EmitByte();
      }
    }
  }
}
