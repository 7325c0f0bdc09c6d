/** The bit buffer of the QR encoder (ui/qrcode-generator.js:1560-1601). */
module BitBuffer {
  import opened Bits

  class QrBitBuffer {
    var buffer: seq<bv8>
    var length: nat

    /** The buffer holds just enough bytes, and the bits past the end are zero. */
    ghost predicate Valid()
      reads this
    {
      && |buffer| == (length + 7) / 8
      && forall i: nat | length <= i < 8 * |buffer| :: !BitAt(buffer, i)
    }

    ghost function Contents(): (bits: seq<bool>)
      requires Valid()
      reads this
      ensures |bits| == length
    {
      BytesToBits(buffer)[..length]
    }

    constructor ()
      ensures Valid() && Contents() == []
    {
      buffer, length := [], 0;
    }

    method GetAt(index: nat) returns (bit: bool)
      requires Valid() && index < length
      ensures bit == Contents()[index]
    {
      var bufIndex := index / 8;
      bit := (buffer[bufIndex] >> (7 - index % 8)) & 1 == 1;
      ShiftIsMask(buffer[bufIndex], index % 8);
    }

    method PutBit(bit: bool)
      requires Valid()
      modifies this
      ensures Valid() && Contents() == old(Contents()) + [bit]
    {
      hide BitOf, Mask;
      ghost var before, bits, n := buffer, Contents(), length;
      var bufIndex := length / 8;
      if |buffer| <= bufIndex {
        buffer := buffer + [0];
        BytesToBitsConcat(before, [0]);
      }
      ghost var grown := buffer;
      assert forall i: nat | i < 8 * |grown| :: BitAt(grown, i) == (i < n && BitAt(before, i)) by {
        GrownBits(before, grown, n);
      }
      if bit {
        ShiftIsMask(0, length % 8);
        buffer := buffer[bufIndex := buffer[bufIndex] | ((0x80 as bv8) >> (length % 8))];
      }
      length := length + 1;
      SetBit(grown, buffer, n, bit);
      assert Contents() == bits + [bit];
    }

    method Put(num: nat, len: nat)
      requires Valid()
      modifies this
      ensures Valid() && Contents() == old(Contents()) + BitsOf(num, len)
    {
      ghost var bits := Contents();
      for i := 0 to len
        invariant Valid() && Contents() == bits + BitsOf(num, len)[..i]
      {
        BitsOfAt(num, len, i);
        PutBit((num / Pow2(len - i - 1)) % 2 == 1);
      }
    }
  }

  lemma GrownBits(before: seq<bv8>, grown: seq<bv8>, n: nat)
    requires |before| == (n + 7) / 8 && forall i: nat | n <= i < 8 * |before| :: !BitAt(before, i)
    requires grown == if |before| <= n / 8 then before + [0] else before
    ensures forall i: nat | i < 8 * |grown| :: BitAt(grown, i) == (i < n && BitAt(before, i))
  {
    hide BitOf;
    forall i: nat | i < 8 * |grown|
      ensures BitAt(grown, i) == (i < n && BitAt(before, i))
    {
      if i >= 8 * |before| {
        NoBits(i % 8);
      }
    }
  }

  lemma SetBit(grown: seq<bv8>, after: seq<bv8>, n: nat, bit: bool)
    requires n / 8 < |grown|
    requires after == if bit then grown[n / 8 := grown[n / 8] | Mask(n % 8)] else grown
    requires !BitAt(grown, n)
    ensures forall i: nat | i < 8 * |after| :: BitAt(after, i) == if i == n then bit else BitAt(grown, i)
  {
    hide BitOf, Mask;
    forall i: nat | i < 8 * |after|
      ensures BitAt(after, i) == if i == n then bit else BitAt(grown, i)
    {
      if bit && i / 8 == n / 8 {
        OrMask(grown[n / 8], i % 8, n % 8);
      }
    }
  }
}
