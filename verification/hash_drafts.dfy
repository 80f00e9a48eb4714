/** The hash_drafts plugin (hash_drafts.py): every draft is written under
    its slug followed by a checksum of its content, so that a draft's
    address changes whenever its text does. */
module HashDrafts {
  import opened Wrappers
  import opened Json
  import Utf8
  import Crc32

  const HexDigits := "0123456789ABCDEF"

  function Pow16(k: nat): (p: nat)
    ensures p >= 1
  {
    if k == 0 then 1 else 16 * Pow16(k - 1)
  }

  /** The last `width` hexadecimal digits of `n`, upper case, most
      significant first: "{:0<width>X}" for a number below 16^width. */
  function Hex(n: nat, width: nat): (s: string)
    ensures |s| == width
    ensures forall i :: 0 <= i < |s| ==> s[i] in HexDigits
    decreases width
  {
    if width == 0 then [] else Hex(n / 16, width - 1) + [HexDigits[n % 16]]
  }

  /** The value of a hexadecimal numeral: the reading the format is
      checked against. */
  function ParseHex(s: string): nat
    decreases |s|
  {
    if |s| == 0 then 0
    else
      var d := s[|s| - 1];
      var v := if '0' <= d <= '9' then d as int - '0' as int
               else if 'A' <= d <= 'F' then d as int - 'A' as int + 10
               else 0;
      16 * ParseHex(s[..|s| - 1]) + v
  }

  lemma DigitValue(v: nat)
    requires v < 16
    ensures var d := HexDigits[v];
            v == if '0' <= d <= '9' then d as int - '0' as int else d as int - 'A' as int + 10
  {
  }

  /** Reading the digits back gives the number, when it fits. */
  lemma {:induction false} ParseHexOfHex(n: nat, width: nat)
    requires n < Pow16(width)
    ensures ParseHex(Hex(n, width)) == n
    decreases width
  {
    if width > 0 {
      var s := Hex(n, width);
      ParseHexOfHex(n / 16, width - 1);
      assert s[..|s| - 1] == Hex(n / 16, width - 1);
      DigitValue(n % 16);
    }
  }

  /** `CRC32data(data)`: the checksum masked to 32 bits, as eight upper-case
      hexadecimal digits with leading zeros. */
  function Crc32Data(data: seq<Crc32.Byte>): (h: string)
    ensures |h| == 8
    ensures forall i :: 0 <= i < |h| ==> h[i] in HexDigits
    ensures ParseHex(h) == Crc32.Crc(data) as int
  {
    var n := Crc32.Crc(data) as int;
    assert Pow16(8) == 0x1_0000_0000;
    ParseHexOfHex(n, 8);
    Hex(n, 8)
  }

  /** `generate_drafts`, for one draft: the `DRAFT_SAVE_AS` pattern (its
      `format` method is the `format` parameter) filled with the slug, a
      hyphen and the hash of the content. */
  function SaveAs(format: string -> Outcome<string>, slug: string, content: string): (r: Outcome<string>)
    ensures exists h :: |h| == 8 && ParseHex(h) == Crc32.Crc(Utf8.Encode(content)) as int
                        && r == format(slug + "-" + h)
  {
    var h := Crc32Data(Utf8.Encode(content));
    format(slug + "-" + h)
  }

  /** The standard check value, through the plugin: the draft "123456789"
      hashes to CBF43926. */
  lemma CheckDigits()
    ensures Crc32Data(Utf8.Encode("123456789")) == "CBF43926"
  {
    var bs := Utf8.Encode("123456789");
    assert bs == [0x31, 0x32, 0x33, 0x34, 0x35, 0x36, 0x37, 0x38, 0x39] by {
      Utf8.AsciiBytes("123456789");
      assert forall i :: 0 <= i < 9 ==> bs[i] as int == "123456789"[i] as int;
    }
    assert Crc32.Crc(bs) as int == 0xCBF4_3926 by {
      Crc32.CheckValue();
    }
    CheckHex();
  }

  lemma CheckHex()
    ensures Hex(0xCBF4_3926, 8) == "CBF43926"
  {
    assert Hex(0xC, 1) == "C";
    assert Hex(0xCB, 2) == "CB";
    assert Hex(0xCBF, 3) == "CBF";
    assert Hex(0xCBF4, 4) == "CBF4";
    assert Hex(0xCBF4_3, 5) == "CBF43";
    assert Hex(0xCBF4_39, 6) == "CBF439";
    assert Hex(0xCBF4_392, 7) == "CBF4392";
  }
}
