/**
 * Concrete records whose outcomes are proved, with a parser that
 * renders the byte at an offset as a one-character string.
 */
module DmiIntelExamples {
  import opened Options
  import opened DmiIntel

  /** A stand-in for parse_dmi_field: the byte at `off` as one character, or NULL past the bytes. */
  function ByteAsChar(rec: Record, off: nat, width: nat): Option<string>
  {
    if off < |rec.mem| then Some([(rec.mem[off] as int) as char]) else None
  }

  /** The header bytes (type, length, handle), then Platform 0x07 and the given version byte. */
  function Header(t: byte, length: byte, version: byte): seq<byte>
  {
    [t, length, 0, 0, 0x07, version]
  }

  /**
   * A key/value record with two pairs under the same key '1': the lookup
   * returns the value of the second pair (0x20), not of the first (0x10).
   */
  lemma KvDuplicateKeyExample(t: byte)
    ensures var rec := Record(t, 10, Header(t, 10, 0x20) + [0x31, 0x10, 0x31, 0x20]);
      IntelDmiParser(rec, "1", t, ByteAsChar) == Value(H2 + 3, 0, Some([0x20 as char]))
  {
  }

  /**
   * A key/type/value payload ['A', BYTE, 0x7F, 'B', 0x09]: 'A' is found,
   * while the lookup of 'B' ends at its invalid tag 0x09.
   */
  lemma KtvBadTagExample(t: byte)
    ensures var rec := Record(t, 11, Header(t, 11, 0x40) + [0x41, 0x01, 0x7F, 0x42, 0x09]);
      && IntelDmiParser(rec, "A", t, ByteAsChar) == Value(H2 + 2, 1, Some([0x7F as char]))
      && IntelDmiParser(rec, "B", t, ByteAsChar) == UnsupportedFieldType(0x09)
  {
    var rec := Record(t, 11, Header(t, 11, 0x40) + [0x41, 0x01, 0x7F, 0x42, 0x09]);
    assert KtvScan(rec, "B", ByteAsChar, H2) == KtvScan(rec, "B", ByteAsChar, H2 + 3);
  }

  /**
   * The tag of the last entry is read even when it lies at `length`, one
   * byte past the record: two records equal on their first `length` bytes
   * give different outcomes.
   */
  lemma KtvTagReadPastLength(t: byte)
    ensures var r1 := Record(t, 7, Header(t, 7, 0x40) + [0x41, 0x01, 0x00]);
      var r2 := Record(t, 7, Header(t, 7, 0x40) + [0x41, 0x00, 0x00]);
      && r1.length == r2.length && r1.mem[..r1.length] == r2.mem[..r2.length]
      && IntelDmiParser(r1, "Z", t, ByteAsChar) == UnknownField
      && IntelDmiParser(r2, "Z", t, ByteAsChar) == UnsupportedFieldType(0)
  {
    var r1 := Record(t, 7, Header(t, 7, 0x40) + [0x41, 0x01, 0x00]);
    var r2 := Record(t, 7, Header(t, 7, 0x40) + [0x41, 0x00, 0x00]);
    assert KtvScan(r1, "Z", ByteAsChar, H2) == KtvScan(r1, "Z", ByteAsChar, H2 + 3);
    assert r1.mem[..r1.length] == r2.mem[..r2.length];
  }

  /**
   * A DWORD entry whose key is the record's last byte is still returned:
   * its value is parsed at offsets beyond the record's length.
   */
  lemma KtvValuePastLength(t: byte)
    ensures var rec := Record(t, 7, Header(t, 7, 0x40) + [0x41, 0x03, 0, 0, 0, 0]);
      && IntelDmiParser(rec, "A", t, ByteAsChar) == Value(H2 + 2, 4, Some([0 as char]))
      && H2 + 2 + 4 > rec.length as nat
  {
  }
}
