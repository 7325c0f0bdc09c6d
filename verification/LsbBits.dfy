/** Bits of numbers and bytes, least significant bit first, as GIF raster data packs them
    (ui/qrcode-generator.js:2092-2125). */
module LsbBits {
  import opened Bits

  /** The low len bits of num. */
  function LsbOf(num: nat, len: nat): (b: seq<bool>)
    ensures |b| == len
    decreases len
  {
    if len == 0 then [] else [num % 2 == 1] + LsbOf(num / 2, len - 1)
  }

  function LsbValue(bits: seq<bool>): nat {
    if bits == [] then 0 else 2 * LsbValue(bits[1..]) + if bits[0] then 1 else 0
  }

  lemma {:induction false} LsbValueOf(num: nat, len: nat)
    requires num < Pow2(len)
    ensures LsbValue(LsbOf(num, len)) == num
    decreases len
  {
    if len > 0 {
      LsbValueOf(num / 2, len - 1);
    }
  }

  /** Wider fields hold the same number followed by zeros. */
  lemma {:induction false} LsbWiden(num: nat, len: nat)
    requires num < Pow2(len)
    ensures LsbOf(num, len + 1) == LsbOf(num, len) + [false]
    decreases len
  {
    if len > 0 {
      LsbWiden(num / 2, len - 1);
      assert LsbOf(num, len + 1) == [num % 2 == 1] + LsbOf(num / 2, len);
    } else {
      assert LsbOf(0, 1) == [false] + LsbOf(0, 0);
    }
  }

  // Shifts and masks of naturals, bit by bit.

  function Shl(num: nat, k: nat): nat {
    if k == 0 then num else 2 * Shl(num, k - 1)
  }

  function Shr(num: nat, k: nat): nat
    decreases k
  {
    if k == 0 then num else Shr(num / 2, k - 1)
  }

  /** The low k bits. */
  function Low(num: nat, k: nat): nat
    decreases k
  {
    if k == 0 then 0 else 2 * Low(num / 2, k - 1) + num % 2
  }

  function Or(a: nat, b: nat): nat
    decreases a + b
  {
    if a == 0 && b == 0 then 0 else 2 * Or(a / 2, b / 2) + if a % 2 == 1 || b % 2 == 1 then 1 else 0
  }

  lemma {:induction false} FitsIffNothingAbove(num: nat, k: nat)
    ensures Shr(num, k) == 0 <==> num < Pow2(k)
    decreases k
  {
    if k > 0 {
      FitsIffNothingAbove(num / 2, k - 1);
    }
  }

  lemma LsbStep(num: nat, len: nat)
    requires len > 0
    ensures LsbOf(num, len) == [num % 2 == 1] + LsbOf(num / 2, len - 1)
  {}

  lemma {:induction false} LsbSplit(num: nat, a: nat, b: nat)
    ensures LsbOf(num, a + b) == LsbOf(num, a) + LsbOf(Shr(num, a), b)
    decreases a
  {
    if a == 0 {
      assert LsbOf(num, 0) + LsbOf(num, b) == LsbOf(num, b);
    } else {
      hide LsbOf;
      LsbStep(num, a + b);
      LsbStep(num, a);
      LsbSplit(num / 2, a - 1, b);
    }
  }

  lemma {:induction false} ShrBelow(num: nat, a: nat, b: nat)
    requires num < Pow2(a + b)
    ensures Shr(num, a) < Pow2(b)
    decreases a
  {
    if a > 0 {
      ShrBelow(num / 2, a - 1, b);
    }
  }

  /** A number put above k bits. */
  lemma {:induction false} LsbJoin(num: nat, low: nat, k: nat, n: nat)
    requires low < Pow2(k)
    ensures LsbOf(Or(Shl(num, k), low), k + n) == LsbOf(low, k) + LsbOf(num, n)
    decreases k
  {
    if k == 0 {
      OrZero(num);
      assert [] + LsbOf(num, n) == LsbOf(num, n);
    } else {
      var x := Or(Shl(num, k), low);
      LsbJoin(num, low / 2, k - 1, n);
      OrShifted(num, low, k);
      assert LsbOf(x, k + n) == [x % 2 == 1] + LsbOf(x / 2, k - 1 + n);
    }
  }

  lemma OrShifted(num: nat, low: nat, k: nat)
    requires k > 0
    ensures var x := Or(Shl(num, k), low); x / 2 == Or(Shl(num, k - 1), low / 2) && x % 2 == low % 2
  {}

  lemma {:induction false} OrZero(num: nat)
    ensures Or(num, 0) == num
  {
    if num > 0 {
      OrZero(num / 2);
    }
  }

  lemma {:induction false} OrBelow(num: nat, low: nat, k: nat, n: nat)
    requires low < Pow2(k) && num < Pow2(n)
    ensures Or(Shl(num, k), low) < Pow2(k + n)
    decreases k
  {
    if k == 0 {
      OrZero(num);
    } else {
      OrBelow(num, low / 2, k - 1, n);
      OrShifted(num, low, k);
    }
  }

  lemma {:induction false} LsbOfLow(num: nat, k: nat)
    ensures LsbOf(Low(num, k), k) == LsbOf(num, k) && Low(num, k) < Pow2(k)
    decreases k
  {
    if k > 0 {
      LsbOfLow(num / 2, k - 1);
    }
  }

  // Bytes.

  predicate AllBytes(bytes: seq<nat>) {
    forall i: nat | i < |bytes| :: bytes[i] < 256
  }

  function BytesToLsb(bytes: seq<nat>): (bits: seq<bool>)
    ensures |bits| == 8 * |bytes|
  {
    if bytes == [] then [] else BytesToLsb(bytes[..|bytes| - 1]) + LsbOf(bytes[|bytes| - 1], 8)
  }

  lemma PowerEight()
    ensures Pow2(8) == 256
  {
    assert Pow2(4) == 16;
    assert Pow2(6) == 64;
  }

  /** The bits missing to whole bytes. */
  function Padding(len: nat): nat {
    (8 - len % 8) % 8
  }

  class BitOutputStream {
    var out: seq<nat>
    var bitLength: nat
    var bitBuffer: nat

    ghost predicate Valid()
      reads this
    {
      bitLength < 8 && bitBuffer < Pow2(bitLength) && AllBytes(out)
    }

    /** All bits written so far. */
    ghost function Written(): seq<bool>
      reads this
    {
      BytesToLsb(out) + LsbOf(bitBuffer, bitLength)
    }

    constructor ()
      ensures Valid() && Written() == []
    {
      out, bitLength, bitBuffer := [], 0, 0;
    }

    /** Append the length bits of data; throws when data is wider. */
    method Write(data: nat, length: nat) returns (ok: bool)
      requires Valid() && length <= 24
      modifies this
      ensures Valid() && (ok <==> data < Pow2(length))
      ensures Written() == if ok then old(Written()) + LsbOf(data, length) else old(Written())
    {
      hide Pow2, LsbOf, Or, Shl, Shr, Low;
      FitsIffNothingAbove(data, length);
      if Shr(data, length) != 0 {
        return false;
      }
      ghost var goal := Written() + LsbOf(data, length);
      var rest: nat, n: nat := data, length;
      while bitLength + n >= 8
        invariant Valid() && rest < Pow2(n) && Written() + LsbOf(rest, n) == goal
        decreases n + bitLength
      {
        var byte := Low(Or(Shl(rest, bitLength), bitBuffer), 8);
        ByteIsNext(rest, n, bitBuffer, bitLength);
        NothingBuffered();
        AppendByte(out, byte);
        Regroup(BytesToLsb(out), LsbOf(bitBuffer, bitLength), LsbOf(rest, n), LsbOf(byte, 8),
                LsbOf(Shr(rest, 8 - bitLength), n - (8 - bitLength)));
        out := out + [byte];
        rest := Shr(rest, 8 - bitLength);
        n := n - (8 - bitLength);
        bitBuffer, bitLength := 0, 0;
      }
      LsbJoin(rest, bitBuffer, bitLength, n);
      OrBelow(rest, bitBuffer, bitLength, n);
      bitBuffer := Or(Shl(rest, bitLength), bitBuffer);
      bitLength := bitLength + n;
      ok := true;
    }

    /** Write out the last bits, filled up with zeros. */
    method Flush()
      requires Valid()
      modifies this`out
      ensures AllBytes(out) && BytesToLsb(out) == old(Written()) + Zeros(Padding(|old(Written())|))
    {
      hide Pow2, LsbOf;
      assert |Written()| % 8 == bitLength;
      if bitLength > 0 {
        LsbWidenTo(bitBuffer, bitLength, 8);
        BelowPower(bitBuffer, bitLength, 8);
        PowerEight();
        AppendByte(out, bitBuffer);
        out := out + [bitBuffer];
      }
    }
  }

  lemma NothingBuffered()
    ensures Pow2(0) == 1 && LsbOf(0, 0) == []
  {}

  lemma Regroup(o: seq<bool>, b: seq<bool>, r: seq<bool>, x: seq<bool>, y: seq<bool>)
    requires x + y == b + r
    ensures ((o + x) + []) + y == (o + b) + r
  {
    assert ((o + x) + []) + y == o + (x + y);
    assert (o + b) + r == o + (b + r);
  }

  lemma AppendByte(out: seq<nat>, byte: nat)
    ensures BytesToLsb(out + [byte]) == BytesToLsb(out) + LsbOf(byte, 8)
  {}

  lemma {:induction false} LsbWidenTo(num: nat, len: nat, wide: nat)
    requires num < Pow2(len) && len <= wide
    ensures LsbOf(num, wide) == LsbOf(num, len) + Zeros(wide - len)
    decreases wide
  {
    if len < wide {
      LsbWidenTo(num, len, wide - 1);
      BelowPower(num, len, wide - 1);
      LsbWiden(num, wide - 1);
    }
  }

  lemma {:induction false} BelowPower(num: nat, len: nat, wide: nat)
    requires num < Pow2(len) && len <= wide
    ensures num < Pow2(wide)
    decreases wide
  {
    if len < wide {
      BelowPower(num, len, wide - 1);
    }
  }

  /** One turn of the loop in write: a whole byte, and what is left of the number. */
  lemma {:induction false} ByteIsNext(rest: nat, n: nat, buffer: nat, k: nat)
    requires k < 8 && buffer < Pow2(k) && rest < Pow2(n) && k + n >= 8
    ensures var byte := Low(Or(Shl(rest, k), buffer), 8);
            byte < 256 && LsbOf(byte, 8) + LsbOf(Shr(rest, 8 - k), n - (8 - k)) == LsbOf(buffer, k) + LsbOf(rest, n)
    ensures Shr(rest, 8 - k) < Pow2(n - (8 - k))
  {
    hide LsbOf, Or, Shl, Shr, Low, Pow2;
    LsbJoin(rest, buffer, k, 8 - k);
    PowerEight();
    LsbOfLow(Or(Shl(rest, k), buffer), 8);
    LsbSplit(rest, 8 - k, n - (8 - k));
    ShrBelow(rest, 8 - k, n - (8 - k));
  }

  // Which bit is where.

  lemma {:induction false} LsbBitAt(num: nat, len: nat, i: nat)
    requires i < len
    ensures LsbOf(num, len)[i] <==> num / Pow2(i) % 2 == 1
    decreases len
  {
    if i > 0 {
      LsbBitAt(num / 2, len - 1, i - 1);
      DivDiv(num, Pow2(i - 1));
    }
  }

  /** Byte k holds the bits from 8 * k on, the first of them lowest. */
  lemma {:induction false} ByteBitAt(bytes: seq<nat>, k: nat, i: nat)
    requires k < |bytes| && i < 8
    ensures BytesToLsb(bytes)[8 * k + i] <==> bytes[k] / Pow2(i) % 2 == 1
    decreases |bytes|
  {
    hide LsbOf, Pow2;
    var n := |bytes| - 1;
    if k < n {
      ByteBitAt(bytes[..n], k, i);
      assert BytesToLsb(bytes)[8 * k + i] == BytesToLsb(bytes[..n])[8 * k + i];
    } else {
      LsbBitAt(bytes[n], 8, i);
      assert BytesToLsb(bytes)[8 * k + i] == LsbOf(bytes[n], 8)[i];
    }
  }
}
