/** UTF-8, as `str.encode('utf-8')` produces it (section 3 of RFC 3629):
    one to four bytes per character, the count given by the code point. A
    Dafny string holds Unicode scalar values only, so the lone surrogates
    that make Python's encoder raise cannot occur. */
module Utf8 {
  newtype Byte = x: int | 0 <= x < 256

  function EncodeChar(c: char): (bs: seq<Byte>)
    ensures 1 <= |bs| <= 4
    ensures |bs| == 1 <==> (c as int) < 0x80
    ensures |bs| == 1 ==> bs[0] as int == c as int
    ensures forall k :: 1 <= k < |bs| ==> 0x80 <= bs[k] as int < 0xC0
  {
    var n := c as int;
    if n < 0x80 then [n as Byte]
    else if n < 0x800 then [(0xC0 + n / 64) as Byte, (0x80 + n % 64) as Byte]
    else if n < 0x1_0000 then [(0xE0 + n / 4096) as Byte, (0x80 + (n / 64) % 64) as Byte, (0x80 + n % 64) as Byte]
    else [(0xF0 + n / 262144) as Byte, (0x80 + (n / 4096) % 64) as Byte, (0x80 + (n / 64) % 64) as Byte, (0x80 + n % 64) as Byte]
  }

  function Encode(s: string): (bs: seq<Byte>)
    ensures |bs| >= |s|
    decreases |s|
  {
    if |s| == 0 then [] else EncodeChar(s[0]) + Encode(s[1..])
  }

  /** A code point that Dafny's `char` can hold. */
  predicate Scalar(n: int) {
    0 <= n < 0xD800 || 0xE000 <= n < 0x11_0000
  }

  /** The character whose encoding starts `bs`, and its length; a malformed
      lead byte decodes as U+FFFD and takes one byte. The reference the
      encoder is checked against. */
  function DecodeHead(bs: seq<Byte>): (r: (char, nat))
    requires |bs| > 0
    ensures 1 <= r.1 <= |bs|
  {
    var b0 := bs[0] as int;
    var n :=
      if b0 < 0x80 then b0
      else if 0xC0 <= b0 < 0xE0 && |bs| >= 2 then (b0 - 0xC0) * 64 + (bs[1] as int - 0x80)
      else if 0xE0 <= b0 < 0xF0 && |bs| >= 3 then (b0 - 0xE0) * 4096 + (bs[1] as int - 0x80) * 64 + (bs[2] as int - 0x80)
      else if 0xF0 <= b0 && |bs| >= 4 then (b0 - 0xF0) * 262144 + (bs[1] as int - 0x80) * 4096 + (bs[2] as int - 0x80) * 64 + (bs[3] as int - 0x80)
      else -1;
    var len :=
      if b0 < 0x80 then 1
      else if 0xC0 <= b0 < 0xE0 && |bs| >= 2 then 2
      else if 0xE0 <= b0 < 0xF0 && |bs| >= 3 then 3
      else if 0xF0 <= b0 && |bs| >= 4 then 4
      else 1;
    if Scalar(n) then (n as char, len) else ('\U{FFFD}', len)
  }

  function Decode(bs: seq<Byte>): string
    decreases |bs|
  {
    if |bs| == 0 then [] else
      var (c, len) := DecodeHead(bs);
      [c] + Decode(bs[len..])
  }

  /** Euclidean division by a power of 64 is unique. */
  lemma DivUnique4096(n: int, q: int, r: int)
    requires n == 4096 * q + r && 0 <= r < 4096
    ensures n / 4096 == q
  {
  }

  lemma DivUnique262144(n: int, q: int, r: int)
    requires n == 262144 * q + r && 0 <= r < 262144
    ensures n / 262144 == q
  {
  }

  /** The digits of `n` in base 64, as the encoder splits it. */
  lemma Base64Digits(n: nat)
    ensures n == (n / 64) * 64 + n % 64
    ensures n / 4096 == (n / 64) / 64 && n % 4096 == ((n / 64) % 64) * 64 + n % 64
    ensures n / 262144 == (n / 4096) / 64
    ensures n == (n / 4096) * 4096 + ((n / 64) % 64) * 64 + n % 64
    ensures n == (n / 262144) * 262144 + ((n / 4096) % 64) * 4096 + ((n / 64) % 64) * 64 + n % 64
  {
    var a := n / 64;
    var b := a / 64;
    var c := b / 64;
    assert n == 64 * a + n % 64;
    assert a == 64 * b + a % 64;
    assert b == 64 * c + b % 64;
    DivUnique4096(n, b, (a % 64) * 64 + n % 64);
    DivUnique262144(n, c, (b % 64) * 4096 + (a % 64) * 64 + n % 64);
  }

  /** Decoding reads back each encoded character and its length. */
  lemma DecodeEncodeChar(c: char, rest: seq<Byte>)
    ensures DecodeHead(EncodeChar(c) + rest) == (c, |EncodeChar(c)|)
  {
    var n := c as int;
    Base64Digits(n);
    var bs := EncodeChar(c) + rest;
    assert bs[..|EncodeChar(c)|] == EncodeChar(c);
  }

  /** Decoding undoes the encoding. */
  lemma {:induction false} DecodeEncode(s: string)
    ensures Decode(Encode(s)) == s
    decreases |s|
  {
    if |s| > 0 {
      var e, t := EncodeChar(s[0]), Encode(s[1..]);
      DecodeEncodeChar(s[0], t);
      assert (e + t)[|e|..] == t;
      DecodeEncode(s[1..]);
      assert s == [s[0]] + s[1..];
    }
  }

  /** Different texts have different encodings. */
  lemma EncodeInjective(s: string, t: string)
    requires Encode(s) == Encode(t)
    ensures s == t
  {
    DecodeEncode(s);
    DecodeEncode(t);
  }

  /** Text in ASCII encodes to its own code points. */
  lemma {:induction false} AsciiBytes(s: string)
    requires forall i :: 0 <= i < |s| ==> (s[i] as int) < 0x80
    ensures |Encode(s)| == |s|
    ensures forall i :: 0 <= i < |s| ==> Encode(s)[i] as int == s[i] as int
    decreases |s|
  {
    if |s| > 0 {
      AsciiBytes(s[1..]);
    }
  }
}
