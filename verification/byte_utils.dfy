/**
 * Byte helpers of the bridge (utils/ByteUtils.kt): big-endian field readers
 * over Kotlin's signed bytes, the unsigned view of a byte and hex rendering.
 * The `ByteBuffer` the source allocates is local scratch, so every helper is
 * a total function on byte sequences.
 */
module ByteUtils {

  /** Kotlin's `Byte`: a signed 8-bit value. */
  type Byte = b: int | -128 <= b <= 127

  const TwoTo16: int := 0x1_0000
  const TwoTo31: int := 0x8000_0000
  const TwoTo32: int := 0x1_0000_0000

  /** `Int.toByte()`: keeps the low 8 bits and reads them as a signed byte. */
  function ToByte(x: int): (b: Byte)
    ensures b % 256 == x % 256
    ensures -128 <= x <= 127 ==> b == x
  {
    var m := x % 256;
    if m >= 128 then m - 256 else m
  }

  /** `Byte.toUnsignedInt()`: the byte read as a value in 0..255. */
  function ToUnsignedInt(b: Byte): (r: int)
    ensures 0 <= r <= 255
    ensures r == b % 256
    ensures ToByte(r) == b
  {
    if b < 0 then b + 256 else b
  }

  /** `ByteBuffer.getInt(0)` over four bytes: big-endian, two's complement. */
  function GetInt(b0: Byte, b1: Byte, b2: Byte, b3: Byte): int
  {
    var v := ToUnsignedInt(b0) * 0x100_0000 + ToUnsignedInt(b1) * 0x1_0000
           + ToUnsignedInt(b2) * 0x100 + ToUnsignedInt(b3);
    if v >= TwoTo31 then v - TwoTo32 else v
  }

  /**
   * `readInt16Bits`: two zero bytes followed by buf[offset], buf[offset+1],
   * read as one big-endian int. `ByteBuffer.put` throws unless both bytes
   * exist, hence the precondition.
   */
  function ReadInt16Bits(buf: seq<Byte>, offset: int): (r: int)
    requires 0 <= offset && offset + 2 <= |buf|
    ensures 0 <= r < TwoTo16
    ensures r / 256 == ToUnsignedInt(buf[offset])
    ensures r % 256 == ToUnsignedInt(buf[offset + 1])
  {
    GetInt(0, 0, buf[offset], buf[offset + 1])
  }

  /** `readInt32Bits`: four bytes read as one big-endian two's-complement int. */
  function ReadInt32Bits(buf: seq<Byte>, offset: int): (r: int)
    requires 0 <= offset && offset + 4 <= |buf|
    ensures -TwoTo31 <= r < TwoTo31
    ensures (buf[offset] < 0) <==> (r < 0)
    ensures r % TwoTo32 == ToUnsignedInt(buf[offset]) * 0x100_0000
                          + ToUnsignedInt(buf[offset + 1]) * 0x1_0000
                          + ToUnsignedInt(buf[offset + 2]) * 0x100
                          + ToUnsignedInt(buf[offset + 3])
  {
    GetInt(buf[offset], buf[offset + 1], buf[offset + 2], buf[offset + 3])
  }

  /** The two bytes `v shr 8` and `v`, each truncated by `toByte()`. */
  function Int16Bytes(v: int): (r: seq<Byte>)
    ensures |r| == 2
  {
    [ToByte(v / 256), ToByte(v)]
  }

  /** The four bytes `v shr 24`, `v shr 16`, `v shr 8` and `v`, each truncated. */
  function Int32Bytes(v: int): (r: seq<Byte>)
    ensures |r| == 4
  {
    [ToByte(v / 0x100_0000), ToByte(v / 0x1_0000), ToByte(v / 0x100), ToByte(v)]
  }

  /** Writing a 16-bit value high byte first and reading it back gives it back. */
  lemma Int16RoundTrip(v: int)
    requires 0 <= v < TwoTo16
    ensures ReadInt16Bits(Int16Bytes(v), 0) == v
  {
    var r := ReadInt16Bits(Int16Bytes(v), 0);
    assert r / 256 == (v / 256) % 256;
    assert r % 256 == v % 256;
  }

  /** Writing a 32-bit signed value big-endian and reading it back gives it back. */
  lemma Int32RoundTrip(v: int)
    requires -TwoTo31 <= v < TwoTo31
    ensures ReadInt32Bits(Int32Bytes(v), 0) == v
  {
    var u := v % TwoTo32;
    var b0, b1, b2, b3 := ToByte(v / 0x100_0000), ToByte(v / 0x1_0000), ToByte(v / 0x100), ToByte(v / 1);
    assert Int32Bytes(v) == [b0, b1, b2, b3];
    ByteOfShift(v, u, 0x100_0000);
    ByteOfShift(v, u, 0x1_0000);
    ByteOfShift(v, u, 0x100);
    ByteOfShift(v, u, 0x1);
    GetIntOfSplit(b0, b1, b2, b3, u);
    Low32(v);
  }

  /** A value in the signed 32-bit range is its low 32 bits read as two's complement (kept apart: the modulus is costly in a larger context). */
  lemma Low32(v: int)
    requires -TwoTo31 <= v < TwoTo31
    ensures v == if v % TwoTo32 >= TwoTo31 then v % TwoTo32 - TwoTo32 else v % TwoTo32
  {
  }

  /** Byte `k` of v, counted from the low end, is byte `k` of v's low 32 bits. */
  lemma ByteOfShift(v: int, u: int, k: int)
    requires -TwoTo31 <= v < TwoTo31 && u == v % TwoTo32
    requires k == 0x100_0000 || k == 0x1_0000 || k == 0x100 || k == 1
    ensures ToUnsignedInt(ToByte(v / k)) == (u / k) % 256
  {
    if v < 0 {
      if k == 0x100_0000 {
        assert u / k == v / k + 0x100;
        ModOfMultiple(v / k, 0x1);
      } else if k == 0x1_0000 {
        assert u / k == v / k + 0x1_0000;
        ModOfMultiple(v / k, 0x100);
      } else if k == 0x100 {
        assert u / k == v / k + 0x100_0000;
        ModOfMultiple(v / k, 0x1_0000);
      } else {
        assert u / k == v / k + TwoTo32;
        ModOfMultiple(v / k, 0x100_0000);
      }
    }
  }

  lemma ModOfMultiple(x: int, j: int)
    ensures (x + j * 256) % 256 == x % 256
  {
  }

  /** Shifting right by k bits, then by 8 more, is shifting by both at once. */
  lemma DivStep(x: int, k: int)
    requires k == 0x100 || k == 0x1_0000
    ensures (x / k) / 256 == x / (k * 256)
  {
    var q := x / k;
    var r := x % k;
    var q2 := q / 256;
    var r2 := q % 256;
    assert x == q * k + r;
    assert q == q2 * 256 + r2;
    assert x == q2 * (k * 256) + (r2 * k + r);
    assert 0 <= r2 * k + r < k * 256;
  }

  /** A 32-bit unsigned value is the sum of its four bytes. */
  lemma ByteSplit(u: int)
    requires 0 <= u < 0x1_0000_0000
    ensures u / 0x100_0000 < 256
    ensures u == (u / 0x100_0000) * 0x100_0000 + ((u / 0x1_0000) % 256) * 0x1_0000
                 + ((u / 0x100) % 256) * 0x100 + u % 256
  {
    var q1 := u / 0x100;
    DivStep(u, 0x100);
    DivStep(u, 0x1_0000);
    var q2 := q1 / 256;
    var q3 := q2 / 256;
    assert u == q1 * 256 + u % 256;
    assert q1 == q2 * 256 + q1 % 256;
    assert q2 == q3 * 256 + q2 % 256;
  }

  /** Four bytes that spell u big-endian read back as u in two's complement. */
  lemma GetIntOfSplit(b0: Byte, b1: Byte, b2: Byte, b3: Byte, u: int)
    requires 0 <= u < TwoTo32
    requires ToUnsignedInt(b0) == (u / 0x100_0000) % 256 && ToUnsignedInt(b1) == (u / 0x1_0000) % 256
    requires ToUnsignedInt(b2) == (u / 0x100) % 256 && ToUnsignedInt(b3) == u % 256
    ensures GetInt(b0, b1, b2, b3) == if u >= TwoTo31 then u - TwoTo32 else u
  {
    ByteSplit(u);
    assert ToUnsignedInt(b0) * 0x100_0000 + ToUnsignedInt(b1) * 0x1_0000 + ToUnsignedInt(b2) * 0x100 + ToUnsignedInt(b3) == u;
  }

  const HexDigits: string := "0123456789abcdef"

  /** The value of a lower-case hex digit (0 for any other character). */
  function HexValue(c: char): (r: int)
    ensures 0 <= r < 16
  {
    if '0' <= c <= '9' then (c - '0') as int
    else if 'a' <= c <= 'f' then (c - 'a') as int + 10
    else 0
  }

  predicate IsLowerHexDigit(c: char) {
    '0' <= c <= '9' || 'a' <= c <= 'f'
  }

  /** Digit n of the alphabet is a hex digit whose value is n. */
  lemma HexDigitValue(n: int)
    requires 0 <= n < 16
    ensures IsLowerHexDigit(HexDigits[n]) && HexValue(HexDigits[n]) == n
  {
    if n < 10 {
      assert HexDigits[n] == '0' + n as char;
    } else {
      assert HexDigits[n] == 'a' + (n - 10) as char;
    }
  }

  /** "%02x" of one byte: the two lower-case hex digits of its unsigned value. */
  function HexByte(b: Byte): (r: string)
    ensures |r| == 2 && IsLowerHexDigit(r[0]) && IsLowerHexDigit(r[1])
    ensures HexValue(r[0]) * 16 + HexValue(r[1]) == ToUnsignedInt(b)
  {
    var u := ToUnsignedInt(b);
    HexDigitValue(u / 16);
    HexDigitValue(u % 16);
    [HexDigits[u / 16], HexDigits[u % 16]]
  }

  /**
   * `ByteArray.toHex`: "%02x" of every byte (Java's formatter prints a
   * negative Byte as its unsigned value), joined without separator.
   */
  function ToHex(bytes: seq<Byte>): (r: string)
    ensures |r| == 2 * |bytes|
    ensures forall i :: 0 <= i < |bytes| ==> r[2 * i..2 * i + 2] == HexByte(bytes[i])
  {
    if bytes == [] then ""
    else
      var rest := ToHex(bytes[1..]);
      var r := HexByte(bytes[0]) + rest;
      assert forall i :: 1 <= i < |bytes| ==> r[2 * i..2 * i + 2] == rest[2 * (i - 1)..2 * (i - 1) + 2];
      r
  }

  /** Every character of the rendering is a lower-case hex digit, and each pair decodes to its byte. */
  lemma ToHexDigits(bytes: seq<Byte>)
    ensures forall i :: 0 <= i < |ToHex(bytes)| ==> IsLowerHexDigit(ToHex(bytes)[i])
    ensures forall i :: 0 <= i < |bytes| ==>
              HexValue(ToHex(bytes)[2 * i]) * 16 + HexValue(ToHex(bytes)[2 * i + 1]) == ToUnsignedInt(bytes[i])
  {
    var r := ToHex(bytes);
    forall i | 0 <= i < |bytes|
      ensures IsLowerHexDigit(r[2 * i]) && IsLowerHexDigit(r[2 * i + 1])
      ensures HexValue(r[2 * i]) * 16 + HexValue(r[2 * i + 1]) == ToUnsignedInt(bytes[i])
    {
      assert r[2 * i..2 * i + 2] == HexByte(bytes[i]);
      assert r[2 * i] == HexByte(bytes[i])[0] && r[2 * i + 1] == HexByte(bytes[i])[1];
    }
    forall i | 0 <= i < |r| ensures IsLowerHexDigit(r[i]) {
      var j := i / 2;
      assert i == 2 * j || i == 2 * j + 1;
    }
  }
}
