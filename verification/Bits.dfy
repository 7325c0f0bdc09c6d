/** Bit sequences, numbers and bytes, most significant bit first. */
module Bits {

  function Pow2(n: nat): (p: nat)
    ensures p > 0
  {
    if n == 0 then 1 else 2 * Pow2(n - 1)
  }

  /** The low len bits of num. */
  function BitsOf(num: nat, len: nat): (b: seq<bool>)
    ensures |b| == len
  {
    if len == 0 then [] else BitsOf(num / 2, len - 1) + [num % 2 == 1]
  }

  function ValueOf(bits: seq<bool>): nat {
    if bits == [] then 0 else 2 * ValueOf(bits[..|bits| - 1]) + if bits[|bits| - 1] then 1 else 0
  }

  lemma {:induction false} ValueOfBits(num: nat, len: nat)
    requires num < Pow2(len)
    ensures ValueOf(BitsOf(num, len)) == num
  {
    if len > 0 {
      ValueOfBits(num / 2, len - 1);
      var b := BitsOf(num, len);
      assert b[..len - 1] == BitsOf(num / 2, len - 1);
    }
  }

  /** The i-th bit written for a number is the one a right shift brings to the bottom. */
  lemma {:induction false} BitsOfAt(num: nat, len: nat, i: nat)
    requires i < len
    ensures BitsOf(num, len)[i] == ((num / Pow2(len - 1 - i)) % 2 == 1)
    decreases len
  {
    if i < len - 1 {
      BitsOfAt(num / 2, len - 1, i);
      DivDiv(num, Pow2(len - 2 - i));
    }
  }

  lemma {:induction false} DivDiv(n: nat, m: nat)
    requires m > 0
    ensures n / 2 / m == n / (2 * m)
  {
    var q := n / 2 / m;
    var r := n / 2 - q * m;
    assert 0 <= r < m;
    var s := n - 2 * (n / 2);
    assert n == q * (2 * m) + (2 * r + s);
    QuotientIs(n, 2 * m, q, 2 * r + s);
  }

  lemma {:induction false} QuotientIs(n: nat, d: nat, q: nat, r: nat)
    requires d > 0 && r < d && n == q * d + r
    ensures n / d == q
  {
    var p := n / d;
    if p < q {
      assert (p + 1) * d <= q * d by { MulMono(p + 1, q, d); }
    } else if p > q {
      assert (q + 1) * d <= p * d by { MulMono(q + 1, p, d); }
    }
  }

  lemma MulMono(a: nat, b: nat, d: nat)
    requires a <= b
    ensures a * d <= b * d
  {
    assert (b - a) * d >= 0;
  }

  function Zeros(n: nat): seq<bool> {
    seq(n, _ => false)
  }

  // Bits of bytes.

  function Mask(j: nat): bv8
    requires j < 8
  {
    if j == 0 then 0x80 else if j == 1 then 0x40 else if j == 2 then 0x20 else if j == 3 then 0x10
    else if j == 4 then 0x08 else if j == 5 then 0x04 else if j == 6 then 0x02 else 0x01
  }

  /** Bit j of a byte, counted from the top. */
  predicate BitOf(b: bv8, j: nat)
    requires j < 8
  {
    b & Mask(j) != 0
  }

  /** The two ways the source addresses a bit: by shifting the byte down, or the mask. */
  lemma ShiftIsMask(b: bv8, j: nat)
    requires j < 8
    ensures (b >> (7 - j)) & 1 == 1 <==> BitOf(b, j)
    ensures (0x80 as bv8) >> j == Mask(j)
  {}

  lemma OrMask(b: bv8, j: nat, k: nat)
    requires j < 8 && k < 8
    ensures BitOf(b | Mask(k), j) == (BitOf(b, j) || j == k)
  {}

  lemma NoBits(j: nat)
    requires j < 8
    ensures !BitOf(0, j)
  {}

  lemma SameBitsSameByte(a: bv8, b: bv8)
    requires forall j: nat | j < 8 :: BitOf(a, j) == BitOf(b, j)
    ensures a == b
  {
    assert BitOf(a, 0) == BitOf(b, 0) && BitOf(a, 1) == BitOf(b, 1) && BitOf(a, 2) == BitOf(b, 2)
           && BitOf(a, 3) == BitOf(b, 3);
    assert BitOf(a, 4) == BitOf(b, 4) && BitOf(a, 5) == BitOf(b, 5) && BitOf(a, 6) == BitOf(b, 6)
           && BitOf(a, 7) == BitOf(b, 7);
  }

  /** Bit i of a byte sequence. */
  predicate BitAt(bytes: seq<bv8>, i: nat)
    requires i < 8 * |bytes|
  {
    BitOf(bytes[i / 8], i % 8)
  }

  function BytesToBits(bytes: seq<bv8>): (bits: seq<bool>)
    ensures |bits| == 8 * |bytes|
  {
    seq(8 * |bytes|, i requires 0 <= i < 8 * |bytes| => BitAt(bytes, i))
  }

  lemma BytesToBitsConcat(a: seq<bv8>, b: seq<bv8>)
    ensures BytesToBits(a + b) == BytesToBits(a) + BytesToBits(b)
  {
    hide BitOf;
    var all, parts := BytesToBits(a + b), BytesToBits(a) + BytesToBits(b);
    forall i: nat | i < 8 * |a + b|
      ensures all[i] == parts[i]
    {
      if i >= 8 * |a| {
        assert (a + b)[i / 8] == b[(i - 8 * |a|) / 8];
      }
    }
  }

  /** Distinct bytes have distinct bits. */
  lemma BytesToBitsInjective(a: seq<bv8>, b: seq<bv8>)
    requires BytesToBits(a) == BytesToBits(b)
    ensures a == b
  {
    hide BitOf;
    forall k: nat | k < |a|
      ensures a[k] == b[k]
    {
      forall j: nat | j < 8
        ensures BitOf(a[k], j) == BitOf(b[k], j)
      {
        assert BytesToBits(a)[8 * k + j] == BytesToBits(b)[8 * k + j];
        assert (8 * k + j) / 8 == k && (8 * k + j) % 8 == j;
      }
      SameBitsSameByte(a[k], b[k]);
    }
  }

  // Bits of whole bytes, packed.

  function PackByte(bits: seq<bool>): bv8
    requires |bits| == 8
  {
    (if bits[0] then 0x80 else 0) | (if bits[1] then 0x40 else 0) | (if bits[2] then 0x20 else 0)
    | (if bits[3] then 0x10 else 0)
    | (if bits[4] then 0x08 else 0) | (if bits[5] then 0x04 else 0) | (if bits[6] then 0x02 else 0)
    | (if bits[7] then 0x01 else 0)
  }

  lemma PackedBit(bits: seq<bool>, j: nat)
    requires |bits| == 8 && j < 8
    ensures BitOf(PackByte(bits), j) == bits[j]
  {}

  function Pack(bits: seq<bool>): (bytes: seq<bv8>)
    ensures |bytes| == |bits| / 8
  {
    seq(|bits| / 8, k requires 0 <= k < |bits| / 8 => PackByte(bits[8 * k..8 * k + 8]))
  }

  lemma PackRoundTrip(bits: seq<bool>)
    requires |bits| % 8 == 0
    ensures BytesToBits(Pack(bits)) == bits
  {
    hide BitOf, PackByte;
    forall i: nat | i < |bits|
      ensures BytesToBits(Pack(bits))[i] == bits[i]
    {
      PackedBit(bits[8 * (i / 8)..8 * (i / 8) + 8], i % 8);
    }
  }

  lemma PackInverts(bytes: seq<bv8>)
    ensures Pack(BytesToBits(bytes)) == bytes
  {
    PackRoundTrip(BytesToBits(bytes));
    BytesToBitsInjective(Pack(BytesToBits(bytes)), bytes);
  }
}
