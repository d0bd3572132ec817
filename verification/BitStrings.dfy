/** Numbers as strings of bits, least significant bit first, and the shifts and masks on them. */
module BitStrings {
  import opened Bytes

  /** The low `width` bits of `value`. */
  function Bits(value: nat, width: nat): (bits: seq<bool>)
    ensures |bits| == width
  {
    if width == 0 then [] else [value % 2 == 1] + Bits(value / 2, width - 1)
  }

  function FromBits(bits: seq<bool>): nat {
    if bits == [] then 0 else (if bits[0] then 1 else 0) + 2 * FromBits(bits[1..])
  }

  function ShiftRight(value: nat, n: nat): nat
    decreases n
  {
    if n == 0 then value else ShiftRight(value / 2, n - 1)
  }

  function ShiftLeft(value: nat, n: nat): nat {
    if n == 0 then value else 2 * ShiftLeft(value, n - 1)
  }

  function Or(a: nat, b: nat, width: nat): (r: nat)
    ensures r < Power2(width)
  {
    if width == 0 then 0
    else (if a % 2 == 1 || b % 2 == 1 then 1 else 0) + 2 * Or(a / 2, b / 2, width - 1)
  }

  lemma {:induction false} FromBitsBound(bits: seq<bool>)
    ensures FromBits(bits) < Power2(|bits|)
    decreases |bits|
  {
    if bits != [] {
      FromBitsBound(bits[1..]);
    }
  }

  lemma {:induction false} Power2Monotone(a: nat, b: nat)
    requires a <= b
    ensures Power2(a) <= Power2(b)
    decreases b - a
  {
    if a < b {
      Power2Monotone(a, b - 1);
    }
  }

  lemma {:induction false} FromBitsOfBits(value: nat, width: nat)
    requires value < Power2(width)
    ensures FromBits(Bits(value, width)) == value
  {
    if width != 0 {
      FromBitsOfBits(value / 2, width - 1);
      assert Bits(value, width)[1..] == Bits(value / 2, width - 1);
    }
  }

  lemma {:induction false} BitsOfFromBits(bits: seq<bool>)
    ensures Bits(FromBits(bits), |bits|) == bits
    decreases |bits|
  {
    if bits != [] {
      BitsOfFromBits(bits[1..]);
      assert bits == [bits[0]] + bits[1..];
    }
  }

  /** Shifting right drops the low bits. */
  lemma {:induction false} ShiftRightDrops(bits: seq<bool>, n: nat)
    requires n <= |bits|
    ensures ShiftRight(FromBits(bits), n) == FromBits(bits[n..])
    decreases n
  {
    if n == 0 {
      assert bits[0..] == bits;
    } else {
      ShiftRightDrops(bits[1..], n - 1);
      assert bits[1..][n - 1..] == bits[n..];
    }
  }

  lemma {:induction false} BitAt(value: nat, width: nat, n: nat)
    requires n < width
    ensures Bits(value, width)[n] <==> ShiftRight(value, n) % 2 == 1
    decreases n
  {
    if n != 0 {
      BitAt(value / 2, width - 1, n - 1);
    }
  }

  function BitOf(b: bool): nat {
    if b then 1 else 0
  }

  lemma {:induction false} OrZero(value: nat, width: nat)
    requires value < Power2(width)
    ensures Or(0, value, width) == value
  {
    if width != 0 {
      OrZero(value / 2, width - 1);
    }
  }

  /** Putting one more bit on top. */
  lemma {:induction false} OrAppends(bits: seq<bool>, top: bool, width: nat)
    requires |bits| < width
    ensures Or(FromBits(bits), ShiftLeft(BitOf(top), |bits|), width) == FromBits(bits + [top])
    decreases |bits|
  {
    if bits == [] {
      assert bits + [top] == [top];
      assert Power2(width) == 2 * Power2(width - 1);
      OrZero(BitOf(top), width);
    } else {
      assert (bits + [top])[1..] == bits[1..] + [top];
      OrAppends(bits[1..], top, width - 1);
    }
  }

  /** Higher bits do not show in the low ones. */
  lemma {:induction false} BitsAddHigh(low: nat, high: nat, width: nat)
    ensures Bits(low + high * Power2(width), width) == Bits(low, width)
    decreases width
  {
    if width != 0 {
      var half := high * Power2(width - 1);
      assert high * Power2(width) == 2 * half;
      assert (low + 2 * half) % 2 == low % 2 && (low + 2 * half) / 2 == low / 2 + half;
      BitsAddHigh(low / 2, high, width - 1);
    }
  }

  lemma {:induction false} BitsSplit(value: nat, n: nat, m: nat)
    ensures Bits(value, n + m) == Bits(value, n) + Bits(ShiftRight(value, n), m)
    decreases n
  {
    if n == 0 {
      assert [] + Bits(value, m) == Bits(value, m);
    } else {
      BitsSplit(value / 2, n - 1, m);
    }
  }

  /** The bits of a 16-bit number are those of its low byte and then of its high byte. */
  lemma BitsOfTwoBytes(value: nat)
    ensures Bits(value, 16) == Bits(value % 256, 8) + Bits(value / 256, 8)
  {
    assert Power2(8) == 256;
    BitsAddHigh(value % 256, value / 256, 8);
    BitsSplit(value, 8, 8);
    ShiftByByte(value);
  }

  lemma ShiftByByte(value: nat)
    ensures ShiftRight(value, 8) == value / 256
  {
    assert ShiftRight(value, 8) == ShiftRight(value / 2 / 2 / 2 / 2, 4);
    assert ShiftRight(value / 16, 4) == value / 16 / 2 / 2 / 2 / 2;
  }

  // ------------------------------------------------------------ strings of bytes

  /** The bits of a byte string, each byte least significant bit first. */
  function Unpack(bytes: seq<byte>): (bits: seq<bool>)
    ensures |bits| == 8 * |bytes|
  {
    if bytes == [] then [] else Bits(bytes[0], 8) + Unpack(bytes[1..])
  }

  function ByteOf(bits: seq<bool>): byte
    requires |bits| <= 8
  {
    FromBitsBound(bits);
    Power2Monotone(|bits|, 8);
    assert Power2(8) == 256;
    FromBits(bits)
  }

  /** Bytes that hold the bits, least significant bit first, the last byte filled up with zeros. */
  function Pack(bits: seq<bool>): (bytes: seq<byte>)
    ensures |bytes| == (|bits| + 7) / 8
    decreases |bits|
  {
    if bits == [] then []
    else if |bits| <= 8 then [ByteOf(bits)]
    else [ByteOf(bits[..8])] + Pack(bits[8..])
  }

  lemma {:induction false} UnpackAppend(a: seq<byte>, b: seq<byte>)
    ensures Unpack(a + b) == Unpack(a) + Unpack(b)
    decreases |a|
  {
    if a == [] {
      assert a + b == b;
    } else {
      assert (a + b)[1..] == a[1..] + b;
      UnpackAppend(a[1..], b);
      Associate(Bits(a[0], 8), Unpack(a[1..]), Unpack(b));
    }
  }

  lemma {:induction false} UnpackAt(bytes: seq<byte>, i: nat)
    requires i < |bytes|
    ensures Unpack(bytes)[8 * i..8 * i + 8] == Bits(bytes[i], 8)
    decreases i
  {
    var head, tail := Bits(bytes[0], 8), Unpack(bytes[1..]);
    if i == 0 {
      assert (head + tail)[0..8] == head;
    } else {
      UnpackAt(bytes[1..], i - 1);
      assert (head + tail)[8 * i..8 * i + 8] == tail[8 * (i - 1)..8 * (i - 1) + 8];
    }
  }

  lemma {:induction false} PackAppend(a: seq<bool>, b: seq<bool>)
    requires |a| % 8 == 0
    ensures Pack(a + b) == Pack(a) + Pack(b)
    decreases |a|
  {
    if a == [] {
      assert a + b == b;
    } else {
      assert (a + b)[..8] == a[..8];
      assert (a + b)[8..] == a[8..] + b;
      PackAppend(a[8..], b);
      if b == [] {
        assert a + b == a;
      }
      if |a| == 8 {
        assert a[..8] == a;
        assert a[8..] == [];
      }
    }
  }

  /** Packing undoes unpacking. */
  lemma {:induction false} PackOfUnpack(bytes: seq<byte>)
    ensures Pack(Unpack(bytes)) == bytes
    decreases |bytes|
  {
    if bytes != [] {
      var head := Bits(bytes[0], 8);
      assert Power2(8) == 256;
      FromBitsOfBits(bytes[0], 8);
      PackOfUnpack(bytes[1..]);
      PackAppend(head, Unpack(bytes[1..]));
      assert Pack(head) == [bytes[0]];
    }
  }
}
