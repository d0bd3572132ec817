/** Bytes, little-endian integers, the XOR checksum and concatenation of byte strings. */
module Bytes {

  const U16_MODULUS := 0x1_0000
  const U32_MODULUS := 0x1_0000_0000

  type byte = x: int | 0 <= x < 256
  type u16 = x: int | 0 <= x < 0x1_0000
  type u32 = x: int | 0 <= x < 0x1_0000_0000

  function Min(a: int, b: int): int {
    if a <= b then a else b
  }

  // ---------------------------------------------------------------- checksum

  /** Exclusive or of the low `width` bits. */
  function XorBits(a: nat, b: nat, width: nat): (r: nat)
    ensures r < Power2(width)
  {
    if width == 0 then 0 else (a + b) % 2 + 2 * XorBits(a / 2, b / 2, width - 1)
  }

  function Power2(n: nat): (p: nat)
    ensures 0 < p
  {
    if n == 0 then 1 else 2 * Power2(n - 1)
  }

  function Xor(a: byte, b: byte): byte {
    assert Power2(8) == 256;
    XorBits(a, b, 8)
  }

  /** The running checksum: `seed` combined with the bytes of `s` from left to right. */
  function XorFold(seed: byte, s: seq<byte>): byte
    decreases |s|
  {
    if s == [] then seed else XorFold(Xor(seed, s[0]), s[1..])
  }

  lemma {:induction false} XorBitsZero(b: nat, width: nat)
    requires b < Power2(width)
    ensures XorBits(0, b, width) == b
  {
    if 0 < width {
      XorBitsZero(b / 2, width - 1);
    }
  }

  lemma XorZero(b: byte)
    ensures Xor(0, b) == b
  {
    XorBitsZero(b, 8);
  }

  lemma SameParity(a: nat, b: nat, high: nat)
    ensures ((a + b) % 2 + 2 * high) / 2 == high
    ensures ((a + b) % 2 + 2 * high + b) % 2 == a % 2
  {
  }

  lemma {:induction false} XorBitsTwice(a: nat, b: nat, width: nat)
    requires a < Power2(width)
    ensures XorBits(XorBits(a, b, width), b, width) == a
  {
    if 0 < width {
      XorBitsTwice(a / 2, b / 2, width - 1);
      SameParity(a, b, XorBits(a / 2, b / 2, width - 1));
    }
  }

  lemma {:induction false} XorBitsCommute(a: nat, b: nat, width: nat)
    ensures XorBits(a, b, width) == XorBits(b, a, width)
  {
    if 0 < width {
      XorBitsCommute(a / 2, b / 2, width - 1);
    }
  }

  /** Exclusive or with the same byte twice gives back the first one, and the order does not matter. */
  lemma XorTwice(a: byte, b: byte)
    ensures Xor(Xor(a, b), b) == a
    ensures Xor(a, b) == Xor(b, a)
  {
    XorBitsTwice(a, b, 8);
    XorBitsCommute(a, b, 8);
  }

  lemma XorDistinguishes(a: byte, b: byte, c: byte)
    ensures Xor(a, c) == Xor(b, c) <==> a == b
    ensures Xor(c, a) == Xor(c, b) <==> a == b
  {
    XorTwice(a, c);
    XorTwice(b, c);
  }

  lemma {:induction false} SeedMatters(a: byte, b: byte, s: seq<byte>)
    ensures XorFold(a, s) == XorFold(b, s) <==> a == b
    decreases |s|
  {
    if s != [] {
      XorDistinguishes(a, b, s[0]);
      SeedMatters(Xor(a, s[0]), Xor(b, s[0]), s[1..]);
    }
  }

  /** A changed byte changes the checksum. */
  lemma {:induction false} XorFoldNoticesOneByte(seed: byte, s: seq<byte>, i: nat, x: byte)
    requires i < |s|
    ensures XorFold(seed, s[i := x]) == XorFold(seed, s) <==> x == s[i]
    decreases |s|
  {
    var t := s[i := x];
    if i == 0 {
      assert t[1..] == s[1..];
      XorDistinguishes(x, s[0], seed);
      SeedMatters(Xor(seed, x), Xor(seed, s[0]), s[1..]);
    } else {
      assert t[1..] == s[1..][i - 1 := x];
      XorFoldNoticesOneByte(Xor(seed, s[0]), s[1..], i - 1, x);
    }
  }

  lemma {:induction false} XorFoldAppend(seed: byte, a: seq<byte>, b: seq<byte>)
    ensures XorFold(seed, a + b) == XorFold(XorFold(seed, a), b)
    decreases |a|
  {
    if a == [] {
      assert a + b == b;
    } else {
      assert (a + b)[1..] == a[1..] + b;
      XorFoldAppend(Xor(seed, a[0]), a[1..], b);
    }
  }

  // ---------------------------------------------------- little-endian integers

  /** The low `width` bytes of `value`, least significant first. */
  function LittleEndian(value: nat, width: nat): (bytes: seq<byte>)
    ensures |bytes| == width
  {
    if width == 0 then [] else [value % 256] + LittleEndian(value / 256, width - 1)
  }

  function FromLittleEndian(bytes: seq<byte>): nat {
    if bytes == [] then 0 else bytes[0] as int + 256 * FromLittleEndian(bytes[1..])
  }

  function Limit(width: nat): (n: nat)
    ensures 0 < n
  {
    if width == 0 then 1 else 256 * Limit(width - 1)
  }

  lemma {:induction false} FromLittleEndianBound(bytes: seq<byte>)
    ensures FromLittleEndian(bytes) < Limit(|bytes|)
    decreases |bytes|
  {
    if bytes != [] {
      FromLittleEndianBound(bytes[1..]);
    }
  }

  lemma {:induction false} LittleEndianRoundTrip(value: nat, width: nat)
    requires value < Limit(width)
    ensures FromLittleEndian(LittleEndian(value, width)) == value
  {
    if width != 0 {
      LittleEndianRoundTrip(value / 256, width - 1);
      var code := LittleEndian(value, width);
      assert code[0] == value % 256 && code[1..] == LittleEndian(value / 256, width - 1);
    }
  }

  /** Decoding then encoding gives back the bytes. */
  lemma {:induction false} LittleEndianBytes(bytes: seq<byte>)
    ensures LittleEndian(FromLittleEndian(bytes), |bytes|) == bytes
    decreases |bytes|
  {
    if bytes != [] {
      LittleEndianBytes(bytes[1..]);
      var low, high := bytes[0] as int, FromLittleEndian(bytes[1..]);
      assert (low + 256 * high) % 256 == low && (low + 256 * high) / 256 == high;
      assert bytes == [bytes[0]] + bytes[1..];
    }
  }

  lemma Limits()
    ensures Limit(2) == U16_MODULUS && Limit(4) == U32_MODULUS
  {
  }

  function U16(value: u16): (bytes: seq<byte>)
    ensures |bytes| == 2
  {
    LittleEndian(value, 2)
  }

  function U32(value: u32): (bytes: seq<byte>)
    ensures |bytes| == 4
  {
    LittleEndian(value, 4)
  }

  function ReadU16(data: seq<byte>, offset: nat): u16
    requires offset + 2 <= |data|
  {
    FromLittleEndianBound(data[offset..offset + 2]);
    Limits();
    FromLittleEndian(data[offset..offset + 2])
  }

  function ReadU32(data: seq<byte>, offset: nat): u32
    requires offset + 4 <= |data|
  {
    FromLittleEndianBound(data[offset..offset + 4]);
    Limits();
    FromLittleEndian(data[offset..offset + 4])
  }

  lemma ReadU16At(prefix: seq<byte>, value: u16, suffix: seq<byte>)
    ensures ReadU16(prefix + U16(value) + suffix, |prefix|) == value
  {
    Limits();
    LittleEndianRoundTrip(value, 2);
    assert (prefix + U16(value) + suffix)[|prefix|..|prefix| + 2] == U16(value);
  }

  lemma ReadU32At(prefix: seq<byte>, value: u32, suffix: seq<byte>)
    ensures ReadU32(prefix + U32(value) + suffix, |prefix|) == value
  {
    Limits();
    LittleEndianRoundTrip(value, 4);
    assert (prefix + U32(value) + suffix)[|prefix|..|prefix| + 4] == U32(value);
  }

  /** Least significant byte first. */
  lemma ReadsLeastSignificantFirst(data: seq<byte>, offset: nat)
    ensures offset + 2 <= |data| ==> ReadU16(data, offset) == data[offset] as int + 256 * data[offset + 1] as int
    ensures offset + 4 <= |data| ==>
              ReadU32(data, offset) == data[offset] as int + 0x100 * data[offset + 1] as int
                                       + 0x10000 * data[offset + 2] as int + 0x1000000 * data[offset + 3] as int
  {
    if offset + 2 <= |data| {
      TwoBytes(data[offset..offset + 2]);
    }
    if offset + 4 <= |data| {
      var b := data[offset..offset + 4];
      TwoBytes(b[2..]);
      assert b[1..][1..] == b[2..];
      assert FromLittleEndian(b[1..]) == b[1] as int + 256 * FromLittleEndian(b[1..][1..]);
    }
  }

  lemma TwoBytes(b: seq<byte>)
    requires |b| == 2
    ensures FromLittleEndian(b) == b[0] as int + 256 * b[1] as int
  {
    var last := b[1..];
    assert last[1..] == [] && last[0] == b[1];
    assert FromLittleEndian(last) == last[0] as int + 256 * FromLittleEndian(last[1..]);
  }

  lemma ReadU16In(data: seq<byte>, offset: nat, value: u16)
    requires offset + 2 <= |data| && data[offset..offset + 2] == U16(value)
    ensures ReadU16(data, offset) == value
  {
    Limits();
    LittleEndianRoundTrip(value, 2);
  }

  lemma ReadU32In(data: seq<byte>, offset: nat, value: u32)
    requires offset + 4 <= |data| && data[offset..offset + 4] == U32(value)
    ensures ReadU32(data, offset) == value
  {
    Limits();
    LittleEndianRoundTrip(value, 4);
  }

  lemma U16OfRead(data: seq<byte>, offset: nat)
    requires offset + 2 <= |data|
    ensures U16(ReadU16(data, offset)) == data[offset..offset + 2]
  {
    LittleEndianBytes(data[offset..offset + 2]);
  }

  lemma U32OfRead(data: seq<byte>, offset: nat)
    requires offset + 4 <= |data|
    ensures U32(ReadU32(data, offset)) == data[offset..offset + 4]
  {
    LittleEndianBytes(data[offset..offset + 4]);
  }

  // ----------------------------------------------------- unsigned wrap-around

  /** The low 32 bits of an integer: `value & 0xFFFFFFFF`. */
  function Low32(value: int): u32
    decreases value < 0, if value < 0 then -value else value
  {
    if value < 0 then Low32(value + U32_MODULUS)
    else if value < U32_MODULUS then value
    else Low32(value - U32_MODULUS)
  }

  lemma {:induction false} Low32IsRemainder(value: nat)
    ensures Low32(value) == value % U32_MODULUS
  {
    if U32_MODULUS <= value {
      Low32IsRemainder(value - U32_MODULUS);
    }
  }

  lemma {:induction false} Low32Add(a: nat, b: nat)
    ensures Low32(Low32(a) + b) == Low32(a + b)
    decreases a
  {
    if U32_MODULUS <= a {
      Low32Add(a - U32_MODULUS, b);
    }
  }

  lemma Low32Sum(a: nat, b: nat)
    ensures Low32(Low32(a) + Low32(b)) == Low32(a + b)
  {
    Low32Add(a, Low32(b));
    Low32Add(b, a);
  }

  /** Two counts less than 2^32 apart look alike only if they are equal. */
  lemma {:induction false} Low32Distinct(a: nat, b: nat)
    requires a <= b < a + U32_MODULUS
    ensures Low32(a) == Low32(b) <==> a == b
    ensures Low32(Low32(b) - Low32(a)) == b - a
    decreases a
  {
    if U32_MODULUS <= a {
      Low32Distinct(a - U32_MODULUS, b - U32_MODULUS);
    }
  }

  // ------------------------------------------------------------- concatenation

  function Flatten<T>(parts: seq<seq<T>>): seq<T> {
    if parts == [] then [] else parts[0] + Flatten(parts[1..])
  }

  lemma FlattenFirst<T>(first: seq<T>, rest: seq<seq<T>>)
    ensures Flatten([first] + rest) == first + Flatten(rest)
  {
    assert ([first] + rest)[1..] == rest;
  }

  lemma {:induction false} FlattenAppend<T>(a: seq<seq<T>>, b: seq<seq<T>>)
    ensures Flatten(a + b) == Flatten(a) + Flatten(b)
    decreases |a|
  {
    if a == [] {
      assert a + b == b;
    } else {
      assert (a + b)[1..] == a[1..] + b;
      FlattenAppend(a[1..], b);
    }
  }

  lemma SplitAt<T>(s: seq<T>, i: nat)
    requires i < |s|
    ensures s == s[..i] + ([s[i]] + s[i + 1..])
    ensures ([s[i]] + s[i + 1..])[1..] == s[i + 1..]
  {
  }

  lemma SliceTwice<T>(s: seq<T>, i: nat, j: nat)
    requires i <= j <= |s|
    ensures s[i..][..j - i] == s[i..j] && s[i..][j - i..] == s[j..]
  {
  }

  lemma SliceOfPrefix<T>(s: seq<T>, n: nat, i: nat, j: nat)
    requires i <= j <= n <= |s|
    ensures s[..n][i..j] == s[i..j]
  {
  }

  lemma SliceOfSlice<T>(s: seq<T>, i: nat, j: nat, n: nat)
    requires i + n <= j <= |s|
    ensures s[i..j][..n] == s[i..i + n]
  {
  }

  lemma SliceJoin<T>(s: seq<T>, i: nat, j: nat)
    requires i <= j <= |s|
    ensures s[..j] == s[..i] + s[i..j]
  {
  }

  lemma SplitPrefix<T>(a: seq<T>, b: seq<T>, s: seq<T>)
    requires s <= a + b && |a| <= |s|
    ensures s == a + s[|a|..] && s[|a|..] <= b
  {
  }

  /** The parts of a concatenation, by position. */
  lemma Parts<T>(a: seq<T>, b: seq<T>, c: seq<T>, d: seq<T>, rest: seq<T>)
    ensures var s := a + b + c + d + rest;
            var i, j, k, l := |a|, |a| + |b|, |a| + |b| + |c|, |a| + |b| + |c| + |d|;
            s[0..i] == a && s[i..j] == b && s[j..k] == c && s[k..l] == d && s[l..] == rest
  {
  }

  lemma Associate<T>(a: seq<T>, b: seq<T>, c: seq<T>)
    ensures a + (b + c) == a + b + c
  {
  }

  lemma Regroup<T>(a: seq<T>, b: seq<T>, c: seq<T>, d: seq<T>)
    ensures a + (b + (c + d)) == a + b + c + d
  {
  }
}
