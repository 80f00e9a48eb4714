/** The 32-bit cyclic redundancy check of section 8.1.1.6.2 of ITU-T V.42
    (the same CRC-32 as in section 8 of ISO 3309 and section 2.3.1 of
    RFC 1952), in its reflected form: generator 0xEDB88320, register preset
    to all ones and complemented at the end, bit at a time. Python's
    `binascii.crc32` computes the same function. */
module Crc32 {
  import Utf8

  type Byte = Utf8.Byte

  const Poly: bv32 := 0xEDB8_8320

  /** One step of the shift register: shift right, and add the generator
      when a one falls out. */
  function Shift(c: bv32): bv32 {
    if c & 1 == 1 then (c >> 1) ^ Poly else c >> 1
  }

  function Shifts(c: bv32, n: nat): bv32
    decreases n
  {
    if n == 0 then c else Shifts(Shift(c), n - 1)
  }

  /** Eight register steps after adding in one byte. */
  function Feed(c: bv32, b: Byte): bv32 {
    Shifts(c ^ (b as bv32), 8)
  }

  /** The register after feeding `data`, low bit of each byte first. */
  function Update(c: bv32, data: seq<Byte>): bv32
    decreases |data|
  {
    if |data| == 0 then c else Update(Feed(c, data[0]), data[1..])
  }

  /** The checksum of `data`. */
  function Crc(data: seq<Byte>): (r: bv32)
    ensures |data| == 0 ==> r == 0
  {
    Update(0xFFFF_FFFF, data) ^ 0xFFFF_FFFF
  }

  /** Feeding two pieces one after the other is feeding their
      concatenation, so a checksum can be computed piecewise. */
  lemma {:induction false} UpdateAppend(c: bv32, a: seq<Byte>, b: seq<Byte>)
    ensures Update(c, a + b) == Update(Update(c, a), b)
    decreases |a|
  {
    if |a| == 0 {
      assert a + b == b;
    } else {
      assert (a + b)[0] == a[0] && (a + b)[1..] == a[1..] + b;
      UpdateAppend(Feed(c, a[0]), a[1..], b);
    }
  }

  // -------------------------------------------------------- check value

  /** Eight register steps, written out. */
  lemma FeedUnrolled(c: bv32, b: Byte)
    ensures Feed(c, b) == Shift(Shift(Shift(Shift(Shift(Shift(Shift(Shift(c ^ (b as bv32)))))))))
  {
    var x := c ^ (b as bv32);
    var x1 := Shift(x);
    var x2 := Shift(x1);
    var x3 := Shift(x2);
    var x4 := Shift(x3);
    var x5 := Shift(x4);
    var x6 := Shift(x5);
    var x7 := Shift(x6);
    assert Shifts(x7, 1) == Shift(x7);
    assert Shifts(x6, 2) == Shifts(x7, 1);
    assert Shifts(x5, 3) == Shifts(x6, 2);
    assert Shifts(x4, 4) == Shifts(x5, 3);
    assert Shifts(x3, 5) == Shifts(x4, 4);
    assert Shifts(x2, 6) == Shifts(x3, 5);
    assert Shifts(x1, 7) == Shifts(x2, 6);
  }

  /** The standard check value: the checksum of the nine ASCII digits
      "123456789" is 0xCBF43926. */
  lemma CheckValue()
    ensures Crc([0x31, 0x32, 0x33, 0x34, 0x35, 0x36, 0x37, 0x38, 0x39]) == 0xCBF4_3926
  {
    var data: seq<Byte> := [0x31, 0x32, 0x33, 0x34, 0x35, 0x36, 0x37, 0x38, 0x39];
    FeedUnrolled(0xFFFF_FFFF, 0x31);
    FeedUnrolled(0x7C23_1048, 0x32);
    FeedUnrolled(0xB0AC_BB32, 0x33);
    FeedUnrolled(0x77B7_9C2D, 0x34);
    FeedUnrolled(0x641C_1F5C, 0x35);
    FeedUnrolled(0x340A_C5E3, 0x36);
    FeedUnrolled(0xF68D_2C9E, 0x37);
    FeedUnrolled(0xAFFC_9660, 0x38);
    FeedUnrolled(0x651F_2550, 0x39);
    assert Update(0x340B_C6D9, data[9..]) == 0x340B_C6D9;
    assert Update(0x651F_2550, data[8..]) == Update(0x340B_C6D9, data[9..]);
    assert Update(0xAFFC_9660, data[7..]) == Update(0x651F_2550, data[8..]);
    assert Update(0xF68D_2C9E, data[6..]) == Update(0xAFFC_9660, data[7..]);
    assert Update(0x340A_C5E3, data[5..]) == Update(0xF68D_2C9E, data[6..]);
    assert Update(0x641C_1F5C, data[4..]) == Update(0x340A_C5E3, data[5..]);
    assert Update(0x77B7_9C2D, data[3..]) == Update(0x641C_1F5C, data[4..]);
    assert Update(0xB0AC_BB32, data[2..]) == Update(0x77B7_9C2D, data[3..]);
    assert Update(0x7C23_1048, data[1..]) == Update(0xB0AC_BB32, data[2..]);
    assert Update(0xFFFF_FFFF, data) == Update(0x7C23_1048, data[1..]);
  }
}
