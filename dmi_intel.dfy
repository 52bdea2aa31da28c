/**
 * The Intel OEM SMBIOS record decoder of dmi_intel.c.
 *
 * A record is modelled by the two header fields the decoder looks at (its
 * type and its declared length) and by the bytes that can be read from the
 * record's first byte onwards.  Offsets are counted from the record's first
 * byte, as the C code's `(unsigned char *)dmi + n` pointers are.
 *
 * The field extraction primitive `parse_dmi_field(dmi, offset, width)` lives
 * in parse_dmi.c, which is not part of this model; every operation takes it
 * as the parameter `parse`.
 */
module DmiIntel {
  import opened Options

  newtype byte = b: int | 0 <= b < 256

  /** sizeof(struct dmi_header): the SMBIOS structure header (type, length, handle). */
  const H: nat := 4
  /** sizeof(struct platform_header): the header followed by the Platform and Version bytes. */
  const H2: nat := H + 2

  const FORMAT_FIELD_MASK: bv8 := 0xE0
  const FORMAT_FIXED_TABLE: byte := 0x00
  const FORMAT_KV_TABLE: byte := 0x20
  const FORMAT_KTV_TABLE: byte := 0x40
  const FIELD_TYPE_BYTE: byte := 0x1
  const FIELD_TYPE_WORD: byte := 0x2
  const FIELD_TYPE_DWORD: byte := 0x3
  const FIELD_TYPE_STRING: byte := 0x4

  /**
   * One raw record: `recType` and `length` are the header's `type` and
   * `length` fields; `mem` holds the bytes readable from the record's start
   * (header included), which may be fewer or more than `length`.
   */
  datatype Record = Record(recType: byte, length: byte, mem: seq<byte>)

  /** parse_dmi_field(dmi, dmi + offset, width): the decoded text, or NULL. */
  type FieldParser = (Record, nat, nat) -> Option<string>

  /**
   * What a lookup ends in.  `Value` is the one path that returns a
   * parse_dmi_field result (itself possibly NULL); all the others return
   * NULL and differ only in the diagnostic the C code logs.  `Truncated`
   * marks a byte that this file reads directly (the Version byte or a
   * field-type tag) lying outside `mem`.
   */
  datatype Outcome =
    | Value(offset: nat, width: nat, text: Option<string>)
    | UnsupportedTable(recType: byte)
    | UnsupportedVersion(version: byte)
    | NoFields(length: byte)
    | UnknownField
    | UnsupportedFieldType(tag: byte)
    | Truncated(offset: nat)

  /** The C function's return value for an outcome. */
  function Returned(o: Outcome): Option<string>
  {
    if o.Value? then o.text else None
  }

  /** `v & FORMAT_FIELD_MASK`: the version byte rounded down to a multiple of 0x20. */
  function Mask(v: byte): (r: byte)
    ensures r as int % 0x20 == 0
    ensures r <= v && v as int < r as int + 0x20
  {
    ((v as bv8) & FORMAT_FIELD_MASK) as byte
  }

  /** is_legacy_table(v) */
  predicate IsLegacyTable(v: byte)
  {
    Mask(v) == FORMAT_FIXED_TABLE
  }

  // ---------------------------------------------------------------------
  // The legacy (fixed layout) table

  /** FIELD_DESC(struct, member, width): a field name with its byte offset and width. */
  datatype FieldDesc = FieldDesc(name: string, offset: nat, width: nat)

  /**
   * legacy_format_desc: the one-byte members of struct legacy_format, which
   * follow the header at consecutive offsets, each parsed with width 0.
   */
  const LegacyFormatDesc: seq<FieldDesc> := [
    FieldDesc("GopVersion", H + 0, 0),
    FieldDesc("UCodeVersion", H + 1, 0),
    FieldDesc("MRCVersion", H + 2, 0),
    FieldDesc("SECVersion", H + 3, 0),
    FieldDesc("ULPMCVersion", H + 4, 0),
    FieldDesc("PMCVersion", H + 5, 0),
    FieldDesc("PUnitVersion", H + 6, 0),
    FieldDesc("SoCVersion", H + 7, 0),
    FieldDesc("BoardVersion", H + 8, 0),
    FieldDesc("FabVersion", H + 9, 0),
    FieldDesc("CPUFlavor", H + 10, 0),
    FieldDesc("BiosVersion", H + 11, 0),
    FieldDesc("PmicVersion", H + 12, 0),
    FieldDesc("TouchVersion", H + 13, 0),
    FieldDesc("SecureBoot", H + 14, 0),
    FieldDesc("BootMode", H + 15, 0),
    FieldDesc("SpeedStepMode", H + 16, 0),
    FieldDesc("CPUTurboMode", H + 17, 0),
    FieldDesc("MaxCState", H + 18, 0),
    FieldDesc("GfxTurbo", H + 19, 0),
    FieldDesc("S0ix", H + 20, 0),
    FieldDesc("RC6", H + 21, 0)
  ]

  /** The descriptor PARSE_FIELD uses for `name`: the first one in the table with that name. */
  function FindField(table: seq<FieldDesc>, name: string): (r: Option<FieldDesc>)
    ensures r.Some? ==> r.value in table && r.value.name == name
    ensures r.None? <==> forall d :: d in table ==> d.name != name
  {
    if table == [] then None
    else if table[0].name == name then Some(table[0])
    else FindField(table[1..], name)
  }

  // ---------------------------------------------------------------------
  // The key/value scan

  /**
   * `value && strcmp(value, fieldname)` is the test for skipping a pair, so
   * a key that parses to NULL counts as a match.
   */
  predicate KvKeyMatches(key: Option<string>, name: string)
  {
    key.None? || key.value == name
  }

  /** The key of pair `k` sits at H2 + 2k and its value right after it. */
  predicate KvPairMatches(rec: Record, name: string, parse: FieldParser, k: nat)
  {
    KvKeyMatches(parse(rec, H2 + 2 * k, 0), name)
  }

  /** The outcome of scanning pairs entries-1 down to 0 of a key/value table. */
  function KvScan(rec: Record, name: string, parse: FieldParser, entries: nat): (r: Outcome)
    ensures r.Value? || r == UnknownField
    ensures r.Value? ==> r.width == 0 && r.text == parse(rec, r.offset, 0)
    ensures r.Value? ==> H2 < r.offset < H2 + 2 * entries && (r.offset - H2) % 2 == 1
  {
    if entries == 0 then UnknownField
    else if KvPairMatches(rec, name, parse, entries - 1) then
      Value(H2 + 2 * (entries - 1) + 1, 0, parse(rec, H2 + 2 * (entries - 1) + 1, 0))
    else KvScan(rec, name, parse, entries - 1)
  }

  // ---------------------------------------------------------------------
  // The key/type/value scan

  /** A field-type tag the scan accepts: neither 0 nor above FIELD_TYPE_STRING. */
  predicate ValidFieldType(tag: byte)
  {
    !(tag == 0 || tag > FIELD_TYPE_STRING)
  }

  /** `1 << n` for the small shift amounts the tags produce. */
  function Shl1(n: nat): (r: nat)
    requires n < 3
    ensures r == if n == 0 then 1 else if n == 1 then 2 else 4
  {
    (1 as bv8 << n) as nat
  }

  /** The width passed to parse_dmi_field for a matched entry's value. */
  function ValueWidth(tag: byte): (w: nat)
    requires ValidFieldType(tag)
    ensures tag == FIELD_TYPE_BYTE ==> w == 1
    ensures tag == FIELD_TYPE_WORD ==> w == 2
    ensures tag == FIELD_TYPE_DWORD ==> w == 4
    ensures tag == FIELD_TYPE_STRING ==> w == 0
  {
    if tag != FIELD_TYPE_STRING then Shl1((tag - 1) as nat) else 0
  }

  /** The number of value bytes stepped over for a non-matching entry. */
  function SkipWidth(tag: byte): (w: nat)
    requires ValidFieldType(tag)
    ensures tag == FIELD_TYPE_BYTE ==> w == 1
    ensures tag == FIELD_TYPE_WORD ==> w == 2
    ensures tag == FIELD_TYPE_DWORD ==> w == 4
    ensures tag == FIELD_TYPE_STRING ==> w == 1
  {
    if tag == FIELD_TYPE_STRING then 1 else Shl1((tag - 1) as nat)
  }

  /** `value && !strcmp(value, fieldname)`: a NULL key never matches here. */
  predicate KtvKeyMatches(key: Option<string>, name: string)
  {
    key == Some(name)
  }

  /** The outcome of the forward scan with the cursor at `off`. */
  function KtvScan(rec: Record, name: string, parse: FieldParser, off: nat): (r: Outcome)
    decreases rec.length as int - off
    ensures r.Value? || r == UnknownField || r.UnsupportedFieldType? || r.Truncated?
    ensures r.Value? ==> off + 2 <= r.offset <= rec.length as nat + 1
    ensures r.Value? ==> r.width in {0, 1, 2, 4} && r.text == parse(rec, r.offset, r.width)
    ensures r.UnsupportedFieldType? ==> !ValidFieldType(r.tag)
    ensures r.Truncated? ==> off < r.offset && r.offset >= |rec.mem|
  {
    if off >= rec.length as nat then UnknownField
    else if off + 1 >= |rec.mem| then Truncated(off + 1)
    else
      var tag := rec.mem[off + 1];
      if !ValidFieldType(tag) then UnsupportedFieldType(tag)
      else if KtvKeyMatches(parse(rec, off, 0), name) then
        Value(off + 2, ValueWidth(tag), parse(rec, off + 2, ValueWidth(tag)))
      else KtvScan(rec, name, parse, off + 2 + SkipWidth(tag))
  }

  // ---------------------------------------------------------------------
  // intel_parse_kv_table and intel_dmi_parser

  /** What intel_parse_kv_table computes. */
  function ParseKvTable(rec: Record, name: string, parse: FieldParser): (r: Outcome)
    ensures !r.UnsupportedTable?
    ensures r.Value? ==> r.text == parse(rec, r.offset, r.width)
    ensures r.Value? && name != "Platform" && name != "Version" ==> H2 < r.offset
    ensures r.UnsupportedVersion? ==> r.version >= 0x60
  {
    if |rec.mem| <= H + 1 then Truncated(H + 1)
    else
      var version := rec.mem[H + 1];
      var tableFormat := Mask(version);
      if tableFormat > FORMAT_KTV_TABLE then UnsupportedVersion(version)
      else if name == "Platform" then Value(H, 0, parse(rec, H, 0))
      else if name == "Version" then Value(H + 1, 1, parse(rec, H + 1, 1))
      else if rec.length as nat <= H2 then NoFields(rec.length)
      else if tableFormat == FORMAT_KV_TABLE then
        KvScan(rec, name, parse, (rec.length as nat - H2) / 2)
      else if tableFormat == FORMAT_KTV_TABLE then
        KtvScan(rec, name, parse, H2)
      else UnknownField
  }

  /**
   * intel_parse_kv_table, step by step; its two scan loops are the methods
   * KvTableScan and KtvTableScan below.
   */
  method IntelParseKvTable(rec: Record, fieldname: string, parse: FieldParser) returns (r: Outcome)
    ensures r == ParseKvTable(rec, fieldname, parse)
  {
    if |rec.mem| <= H + 1 {
      return Truncated(H + 1);
    }
    var version := rec.mem[H + 1];
    var tableFormat := Mask(version);
    if tableFormat > FORMAT_KTV_TABLE {
      return UnsupportedVersion(version);
    }

    if fieldname == "Platform" {
      r := Value(H, 0, parse(rec, H, 0));
    } else if fieldname == "Version" {
      r := Value(H + 1, 1, parse(rec, H + 1, 1));
    } else if rec.length as nat <= H2 {
      r := NoFields(rec.length);
    } else if tableFormat == FORMAT_KV_TABLE {
      r := KvTableScan(rec, fieldname, parse);
    } else if tableFormat == FORMAT_KTV_TABLE {
      r := KtvTableScan(rec, fieldname, parse);
    } else {
      r := UnknownField;
    }
  }

  /**
   * The key/value branch of intel_parse_kv_table: `while (entries--)` visits
   * the pairs from the last one down to the first.
   */
  method KvTableScan(rec: Record, fieldname: string, parse: FieldParser) returns (r: Outcome)
    requires rec.length as nat > H2
    ensures r == KvScan(rec, fieldname, parse, (rec.length as nat - H2) / 2)
  {
    var entries: nat := (rec.length as nat - H2) / 2;
    while entries != 0
      invariant KvScan(rec, fieldname, parse, entries)
             == KvScan(rec, fieldname, parse, (rec.length as nat - H2) / 2)
    {
      entries := entries - 1;
      var offset := H2 + 2 * entries;
      var value := parse(rec, offset, 0);
      if value.Some? && value.value != fieldname {
        continue;
      }
      return Value(offset + 1, 0, parse(rec, offset + 1, 0));
    }
    r := UnknownField;
  }

  /**
   * The key/type/value branch of intel_parse_kv_table: a cursor moves forward
   * over [key][tag][value] entries while it is below the record's length.
   */
  method KtvTableScan(rec: Record, fieldname: string, parse: FieldParser) returns (r: Outcome)
    ensures r == KtvScan(rec, fieldname, parse, H2)
  {
    r := UnknownField;
    var offset: nat := H2;
    var lastEntry: nat := rec.length as nat;
    while offset < lastEntry
      invariant KtvScan(rec, fieldname, parse, offset) == KtvScan(rec, fieldname, parse, H2)
      decreases lastEntry - offset
    {
      var value := parse(rec, offset, 0);
      if value.Some? && value.value == fieldname {
        var typeSize: nat := 0;
        offset := offset + 1;
        if offset >= |rec.mem| {
          return Truncated(offset);
        }
        if rec.mem[offset] == 0 || rec.mem[offset] > FIELD_TYPE_STRING {
          r := UnsupportedFieldType(rec.mem[offset]);
          break;
        }
        if rec.mem[offset] != FIELD_TYPE_STRING {
          typeSize := Shl1((rec.mem[offset] - 1) as nat);
        }
        offset := offset + 1;
        return Value(offset, typeSize, parse(rec, offset, typeSize));
      }

      offset := offset + 1;
      if offset >= |rec.mem| {
        return Truncated(offset);
      }
      if rec.mem[offset] == 0 || rec.mem[offset] > FIELD_TYPE_STRING {
        r := UnsupportedFieldType(rec.mem[offset]);
        break;
      } else {
        offset := offset + if rec.mem[offset] == FIELD_TYPE_STRING then 1
                           else Shl1((rec.mem[offset] - 1) as nat);
      }
      offset := offset + 1;
    }
  }

  /** What intel_dmi_parser computes; `intelSmbios` is the INTEL_SMBIOS record type. */
  function IntelDmiParser(rec: Record, field: string, intelSmbios: byte, parse: FieldParser): (r: Outcome)
    ensures r.UnsupportedTable? <==> rec.recType != intelSmbios
    ensures r.Value? ==> r.text == parse(rec, r.offset, r.width)
  {
    if rec.recType != intelSmbios then UnsupportedTable(rec.recType)
    else if |rec.mem| <= H + 1 then Truncated(H + 1)
    else if !IsLegacyTable(rec.mem[H + 1]) then ParseKvTable(rec, field, parse)
    else
      match FindField(LegacyFormatDesc, field)
      case Some(d) => Value(d.offset, d.width, parse(rec, d.offset, d.width))
      case None => UnknownField
  }
}
