/** Bit strings, most significant bit first, and the bytes they pack into. */
module QrBits {
  import opened Galois
  import Octets

  /** value >>> i for a non-negative value. */
  function ShiftRight(value: nat, i: nat): nat {
    if i == 0 then value else ShiftRight(value / 2, i - 1)
  }

  function Pow2(n: nat): (p: nat)
    ensures p > 0
  {
    if n == 0 then 1 else 2 * Pow2(n - 1)
  }

  /** The low `width` bits of value. */
  function Bits(value: nat, width: nat): (bits: seq<bool>)
    ensures |bits| == width
    decreases width
  {
    if width == 0 then [] else Bits(value / 2, width - 1) + [value % 2 == 1]
  }

  /** The number a bit string spells. */
  function Number(bits: seq<bool>): (n: nat)
    ensures n < Pow2(|bits|)
  {
    if |bits| == 0 then 0
    else 2 * Number(bits[..|bits| - 1]) + if bits[|bits| - 1] then 1 else 0
  }

  lemma {:induction false} NumberOfBits(value: nat, width: nat)
    requires value < Pow2(width)
    ensures Number(Bits(value, width)) == value
    decreases width
  {
    if width > 0 {
      NumberOfBits(value / 2, width - 1);
      assert Bits(value, width)[..width - 1] == Bits(value / 2, width - 1);
    }
  }

  lemma {:induction false} BitsOfNumber(bits: seq<bool>)
    ensures Bits(Number(bits), |bits|) == bits
  {
    if |bits| > 0 {
      var n := |bits| - 1;
      BitsOfNumber(bits[..n]);
      assert Number(bits) / 2 == Number(bits[..n]);
      assert bits == bits[..n] + [bits[n]];
    }
  }

  /** Bit k of the string is bit width-1-k of the number. */
  lemma {:induction false} BitAt(value: nat, width: nat, k: nat)
    requires k < width
    ensures Bits(value, width)[k] == (ShiftRight(value, width - 1 - k) % 2 == 1)
    decreases width
  {
    if k < width - 1 {
      BitAt(value / 2, width - 1, k);
    }
  }

  function ByteBits(b: Byte): (bits: seq<bool>)
    ensures |bits| == 8
  {
    Bits(b as nat, 8)
  }

  function BitsByte(bits: seq<bool>): Byte
    requires |bits| == 8
  {
    assert Pow2(8) == 256;
    Number(bits) as Byte
  }

  lemma ByteRoundTrip(b: Byte)
    ensures BitsByte(ByteBits(b)) == b
  {
    assert Pow2(8) == 256;
    NumberOfBits(b as nat, 8);
  }

  lemma BitsRoundTrip(bits: seq<bool>)
    requires |bits| == 8
    ensures ByteBits(BitsByte(bits)) == bits
  {
    assert Pow2(8) == 256;
    BitsOfNumber(bits);
    Octets.ThroughBits(Number(bits));
    assert BitsByte(bits) as nat == Number(bits);
    hide Bits, BitsByte, Number;
  }

  /** The bits of all bytes in order. */
  function AllBits(bytes: seq<Byte>): (bits: seq<bool>)
    ensures |bits| == 8 * |bytes|
  {
    if |bytes| == 0 then [] else AllBits(bytes[..|bytes| - 1]) + ByteBits(bytes[|bytes| - 1])
  }

  /** Eight bits to a byte. */
  function Pack(bits: seq<bool>): (bytes: seq<Byte>)
    requires |bits| % 8 == 0
    ensures |bytes| == |bits| / 8
  {
    if |bits| == 0 then [] else Pack(bits[..|bits| - 8]) + [BitsByte(bits[|bits| - 8..])]
  }

  lemma {:induction false} PackAllBits(bytes: seq<Byte>)
    ensures Pack(AllBits(bytes)) == bytes
  {
    hide ByteBits, BitsByte, Pack;
    if |bytes| == 0 {
      PackNothing();
    } else {
      var n := |bytes| - 1;
      PackAllBits(bytes[..n]);
      ByteRoundTrip(bytes[n]);
      PackByte(AllBits(bytes[..n]), ByteBits(bytes[n]));
      assert bytes == bytes[..n] + [bytes[n]];
    }
  }

  lemma PackNothing()
    ensures Pack([]) == []
  {
  }

  /** Eight more bits are one more byte. */
  lemma PackByte(bits: seq<bool>, byte: seq<bool>)
    requires |bits| % 8 == 0 && |byte| == 8
    ensures Pack(bits + byte) == Pack(bits) + [BitsByte(byte)]
  {
    hide BitsByte;
    var all := bits + byte;
    assert all[..|all| - 8] == bits && all[|all| - 8..] == byte;
  }

  lemma {:induction false} AllBitsPack(bits: seq<bool>)
    requires |bits| % 8 == 0
    ensures AllBits(Pack(bits)) == bits
  {
    hide ByteBits, BitsByte;
    if |bits| > 0 {
      var n := |bits| - 8;
      AllBitsPack(bits[..n]);
      BitsRoundTrip(bits[n..]);
      assert Pack(bits)[..|Pack(bits)| - 1] == Pack(bits[..n]);
      assert bits[..n] + bits[n..] == bits;
    }
  }

  lemma {:induction false} AllBitsConcat(a: seq<Byte>, b: seq<Byte>)
    ensures AllBits(a + b) == AllBits(a) + AllBits(b)
  {
    hide ByteBits;
    if |b| == 0 {
      assert a + b == a;
    } else {
      var n := |b| - 1;
      AllBitsConcat(a, b[..n]);
      assert (a + b)[..|a| + n] == a + b[..n];
    }
  }

  /** Bit 8 q + r of the stream is bit r of byte q. */
  lemma {:induction false} AllBitsAt(bytes: seq<Byte>, q: nat, r: nat)
    requires q < |bytes| && r < 8
    ensures AllBits(bytes)[8 * q + r] == ByteBits(bytes[q])[r]
  {
    hide ByteBits;
    var n := |bytes| - 1;
    if q < n {
      AllBitsAt(bytes[..n], q, r);
    }
  }
}
