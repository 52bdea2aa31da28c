/**
 * Properties of the decoder model: how the version byte is classified, what
 * the dispatcher does with each class, the reverse order of the key/value
 * scan and the entry layout of the key/type/value scan.
 */
module DmiIntelProperties {
  import opened Options
  import opened DmiIntel

  // ---------------------------------------------------------------------
  // Classification of the version byte

  /** The masked version byte selects the table class by range. */
  lemma FormatClasses(v: byte)
    ensures IsLegacyTable(v) <==> v < 0x20
    ensures Mask(v) == FORMAT_KV_TABLE <==> 0x20 <= v < 0x40
    ensures Mask(v) == FORMAT_KTV_TABLE <==> 0x40 <= v < 0x60
    ensures Mask(v) > FORMAT_KTV_TABLE <==> v >= 0x60
  {
  }

  // ---------------------------------------------------------------------
  // The legacy table

  /** legacy_format_desc lists 22 one-byte fields at offsets H, H+1, ..., H+21, all of width 0. */
  lemma LegacyLayout()
    ensures |LegacyFormatDesc| == 22
    ensures forall i :: 0 <= i < |LegacyFormatDesc| ==>
      LegacyFormatDesc[i].offset == H + i && LegacyFormatDesc[i].width == 0
  {
  }

  /** The position of a legacy field name in the table, or -1 for any other name. */
  function LegacyIndex(name: string): int
  {
    if name == "GopVersion" then 0
    else if name == "UCodeVersion" then 1
    else if name == "MRCVersion" then 2
    else if name == "SECVersion" then 3
    else if name == "ULPMCVersion" then 4
    else if name == "PMCVersion" then 5
    else if name == "PUnitVersion" then 6
    else if name == "SoCVersion" then 7
    else if name == "BoardVersion" then 8
    else if name == "FabVersion" then 9
    else if name == "CPUFlavor" then 10
    else if name == "BiosVersion" then 11
    else if name == "PmicVersion" then 12
    else if name == "TouchVersion" then 13
    else if name == "SecureBoot" then 14
    else if name == "BootMode" then 15
    else if name == "SpeedStepMode" then 16
    else if name == "CPUTurboMode" then 17
    else if name == "MaxCState" then 18
    else if name == "GfxTurbo" then 19
    else if name == "S0ix" then 20
    else if name == "RC6" then 21
    else -1
  }

  /** No two descriptors of the legacy table share a name: each name gives back its own position. */
  lemma LegacyNamesDistinct()
    ensures forall i, j :: 0 <= i < j < |LegacyFormatDesc| ==>
      LegacyFormatDesc[i].name != LegacyFormatDesc[j].name
  {
    var t := LegacyFormatDesc;
    forall i | 0 <= i < |t| ensures LegacyIndex(t[i].name) == i {
    }
  }

  /** In a table without duplicate names, each descriptor is found by its own name. */
  lemma {:induction false} FindFieldDistinct(table: seq<FieldDesc>, i: nat)
    requires i < |table|
    requires forall a, b :: 0 <= a < b < |table| ==> table[a].name != table[b].name
    ensures FindField(table, table[i].name) == Some(table[i])
  {
    if i > 0 {
      assert table[0].name != table[i].name;
      assert table[1..][i - 1] == table[i];
      FindFieldDistinct(table[1..], i - 1);
    }
  }

  /**
   * An INTEL_SMBIOS record whose version byte masks to 0 is read through the
   * legacy table: field i is parsed at offset H + i with width 0.
   */
  lemma LegacyFieldLookup(rec: Record, i: nat, intelSmbios: byte, parse: FieldParser)
    requires rec.recType == intelSmbios && |rec.mem| > H + 1 && IsLegacyTable(rec.mem[H + 1])
    requires i < |LegacyFormatDesc|
    ensures IntelDmiParser(rec, LegacyFormatDesc[i].name, intelSmbios, parse)
         == Value(H + i, 0, parse(rec, H + i, 0))
  {
    LegacyLayout();
    LegacyNamesDistinct();
    FindFieldDistinct(LegacyFormatDesc, i);
  }

  /** A legacy record has no fields besides those of the table. */
  lemma LegacyUnknownName(rec: Record, field: string, intelSmbios: byte, parse: FieldParser)
    requires rec.recType == intelSmbios && |rec.mem| > H + 1 && IsLegacyTable(rec.mem[H + 1])
    requires FindField(LegacyFormatDesc, field).None?
    ensures IntelDmiParser(rec, field, intelSmbios, parse) == UnknownField
    ensures Returned(IntelDmiParser(rec, field, intelSmbios, parse)) == None
  {
  }

  // ---------------------------------------------------------------------
  // Dispatch

  /** Records of any other type are refused without reading their contents. */
  lemma OtherTypesRefused(rec: Record, field: string, intelSmbios: byte, parse: FieldParser)
    requires rec.recType != intelSmbios
    ensures IntelDmiParser(rec, field, intelSmbios, parse) == UnsupportedTable(rec.recType)
    ensures Returned(IntelDmiParser(rec, field, intelSmbios, parse)) == None
  {
  }

  /** A version byte of 0x60 or more is refused for every field name, Platform and Version included. */
  lemma UnsupportedVersionForEveryName(rec: Record, field: string, intelSmbios: byte, parse: FieldParser)
    requires rec.recType == intelSmbios && |rec.mem| > H + 1 && rec.mem[H + 1] >= 0x60
    ensures IntelDmiParser(rec, field, intelSmbios, parse) == UnsupportedVersion(rec.mem[H + 1])
    ensures ParseKvTable(rec, field, parse) == UnsupportedVersion(rec.mem[H + 1])
  {
    FormatClasses(rec.mem[H + 1]);
  }

  /**
   * For both key-based classes, "Platform" and "Version" come from the header
   * extension whatever the length and the payload hold, so they take
   * precedence over payload keys with the same text.
   */
  lemma PlatformAndVersionFixed(rec: Record, intelSmbios: byte, parse: FieldParser)
    requires rec.recType == intelSmbios && |rec.mem| > H + 1
    requires 0x20 <= rec.mem[H + 1] < 0x60
    ensures IntelDmiParser(rec, "Platform", intelSmbios, parse) == Value(H, 0, parse(rec, H, 0))
    ensures IntelDmiParser(rec, "Version", intelSmbios, parse) == Value(H + 1, 1, parse(rec, H + 1, 1))
  {
    FormatClasses(rec.mem[H + 1]);
  }

  /** Any other name in a record no longer than the header extension is not found. */
  lemma ShortRecordHasNoFields(rec: Record, field: string, intelSmbios: byte, parse: FieldParser)
    requires rec.recType == intelSmbios && |rec.mem| > H + 1
    requires 0x20 <= rec.mem[H + 1] < 0x60
    requires field != "Platform" && field != "Version" && rec.length as nat <= H2
    ensures IntelDmiParser(rec, field, intelSmbios, parse) == NoFields(rec.length)
    ensures Returned(IntelDmiParser(rec, field, intelSmbios, parse)) == None
  {
    FormatClasses(rec.mem[H + 1]);
  }

  /** Versions 0x20..0x3F go to the key/value scan over all complete pairs. */
  lemma KvDispatch(rec: Record, field: string, intelSmbios: byte, parse: FieldParser)
    requires rec.recType == intelSmbios && |rec.mem| > H + 1
    requires 0x20 <= rec.mem[H + 1] < 0x40
    requires field != "Platform" && field != "Version" && rec.length as nat > H2
    ensures IntelDmiParser(rec, field, intelSmbios, parse)
         == KvScan(rec, field, parse, (rec.length as nat - H2) / 2)
  {
    FormatClasses(rec.mem[H + 1]);
  }

  /** Versions 0x40..0x5F go to the key/type/value scan from the end of the header extension. */
  lemma KtvDispatch(rec: Record, field: string, intelSmbios: byte, parse: FieldParser)
    requires rec.recType == intelSmbios && |rec.mem| > H + 1
    requires 0x40 <= rec.mem[H + 1] < 0x60
    requires field != "Platform" && field != "Version" && rec.length as nat > H2
    ensures IntelDmiParser(rec, field, intelSmbios, parse) == KtvScan(rec, field, parse, H2)
  {
    FormatClasses(rec.mem[H + 1]);
  }

  // ---------------------------------------------------------------------
  // The key/value scan

  /**
   * The scan over pairs 0..n-1 finds a value exactly when some pair matches;
   * otherwise the field is unknown.
   */
  lemma {:induction false} KvScanFound(rec: Record, name: string, parse: FieldParser, n: nat)
    ensures KvScan(rec, name, parse, n).Value? <==>
      exists k :: 0 <= k < n && KvPairMatches(rec, name, parse, k)
    ensures !KvScan(rec, name, parse, n).Value? ==> KvScan(rec, name, parse, n) == UnknownField
  {
    if n > 0 && !KvPairMatches(rec, name, parse, n - 1) {
      KvScanFound(rec, name, parse, n - 1);
      assert (exists k :: 0 <= k < n && KvPairMatches(rec, name, parse, k))
         <==> (exists k :: 0 <= k < n - 1 && KvPairMatches(rec, name, parse, k));
    }
  }

  /**
   * When a value is found it is that of the matching pair with the HIGHEST
   * index: the pair closest to the end of the payload wins.
   */
  lemma {:induction false} KvScanLastMatch(rec: Record, name: string, parse: FieldParser, n: nat, k: nat)
    requires k < n && KvPairMatches(rec, name, parse, k)
    requires forall j :: k < j < n ==> !KvPairMatches(rec, name, parse, j)
    ensures KvScan(rec, name, parse, n) == Value(H2 + 2 * k + 1, 0, parse(rec, H2 + 2 * k + 1, 0))
  {
    if k < n - 1 {
      assert !KvPairMatches(rec, name, parse, n - 1);
      KvScanLastMatch(rec, name, parse, n - 1, k);
    }
  }

  /** Among pairs with matching keys, a later one always wins over an earlier one. */
  lemma {:induction false} KvLaterPairWins(rec: Record, name: string, parse: FieldParser, n: nat, j: nat)
    requires j < n && KvPairMatches(rec, name, parse, j)
    ensures KvScan(rec, name, parse, n).Value?
    ensures KvScan(rec, name, parse, n).offset >= H2 + 2 * j + 1
  {
    if !KvPairMatches(rec, name, parse, n - 1) {
      KvLaterPairWins(rec, name, parse, n - 1, j);
    }
  }

  /** A pair whose key parses to NULL is taken as a match: its value is returned. */
  lemma KvNullKeyMatches(rec: Record, name: string, parse: FieldParser, n: nat)
    requires n > 0 && parse(rec, H2 + 2 * (n - 1), 0) == None
    ensures KvScan(rec, name, parse, n) == Value(H2 + 2 * (n - 1) + 1, 0, parse(rec, H2 + 2 * (n - 1) + 1, 0))
  {
  }

  /** The key/value scan asks the parser only about offsets below H2 + 2n. */
  lemma {:induction false} KvScanReadsOnlyPairs(rec: Record, name: string, p: FieldParser, q: FieldParser, n: nat)
    requires forall off: nat, w: nat :: off < H2 + 2 * n ==> p(rec, off, w) == q(rec, off, w)
    ensures KvScan(rec, name, p, n) == KvScan(rec, name, q, n)
  {
    if n > 0 {
      assert p(rec, H2 + 2 * (n - 1), 0) == q(rec, H2 + 2 * (n - 1), 0);
      assert p(rec, H2 + 2 * (n - 1) + 1, 0) == q(rec, H2 + 2 * (n - 1) + 1, 0);
      KvScanReadsOnlyPairs(rec, name, p, q, n - 1);
    }
  }

  /**
   * The pairs of a record lie within its length; when the payload has an odd
   * number of bytes, its last byte (at length - 1) is never passed to the parser.
   */
  lemma KvPairsWithinLength(rec: Record, name: string, p: FieldParser, q: FieldParser)
    requires rec.length as nat > H2
    requires forall off: nat, w: nat :: off < H2 + 2 * ((rec.length as nat - H2) / 2) ==>
      p(rec, off, w) == q(rec, off, w)
    ensures H2 + 2 * ((rec.length as nat - H2) / 2) <= rec.length as nat
    ensures (rec.length as nat - H2) % 2 == 1 ==>
      H2 + 2 * ((rec.length as nat - H2) / 2) == rec.length as nat - 1
    ensures KvScan(rec, name, p, (rec.length as nat - H2) / 2) == KvScan(rec, name, q, (rec.length as nat - H2) / 2)
  {
    KvScanReadsOnlyPairs(rec, name, p, q, (rec.length as nat - H2) / 2);
  }

  // ---------------------------------------------------------------------
  // The key/type/value scan as a layout and a search

  /** One well-formed entry: its key's offset and its field-type tag. */
  datatype Entry = Entry(keyOffset: nat, tag: byte)

  /** Why the layout of entries ends. */
  datatype Stop = EndOfRecord | BadFieldType(tag: byte) | TagPastMemory(offset: nat)

  datatype Layout = Layout(entries: seq<Entry>, stop: Stop)

  /**
   * The entries of a key/type/value payload from `off` on, which depend on
   * the bytes alone and not on the name looked up: each begins at the
   * previous one's key plus 2 plus its skip width, every key lies in
   * [off, length), and every tag is valid and is the byte after its key.
   */
  function KtvLayout(rec: Record, off: nat): (l: Layout)
    decreases rec.length as int - off
    ensures forall i :: 0 <= i < |l.entries| ==>
      && ValidFieldType(l.entries[i].tag)
      && off <= l.entries[i].keyOffset < rec.length as nat
      && l.entries[i].keyOffset + 1 < |rec.mem|
      && rec.mem[l.entries[i].keyOffset + 1] == l.entries[i].tag
    ensures |l.entries| > 0 ==> l.entries[0].keyOffset == off
    ensures forall i :: 0 <= i < |l.entries| - 1 ==>
      l.entries[i + 1].keyOffset == l.entries[i].keyOffset + 2 + SkipWidth(l.entries[i].tag)
  {
    if off >= rec.length as nat then Layout([], EndOfRecord)
    else if off + 1 >= |rec.mem| then Layout([], TagPastMemory(off + 1))
    else
      var tag := rec.mem[off + 1];
      if !ValidFieldType(tag) then Layout([], BadFieldType(tag))
      else
        var rest := KtvLayout(rec, off + 2 + SkipWidth(tag));
        Layout([Entry(off, tag)] + rest.entries, rest.stop)
  }

  /** What a scan that runs out of entries reports. */
  function StopOutcome(s: Stop): Outcome
  {
    match s
    case EndOfRecord => UnknownField
    case BadFieldType(t) => UnsupportedFieldType(t)
    case TagPastMemory(o) => Truncated(o)
  }

  predicate EntryMatches(rec: Record, name: string, parse: FieldParser, e: Entry)
  {
    KtvKeyMatches(parse(rec, e.keyOffset, 0), name)
  }

  /** The first entry whose key matches gives the value; with none, the stop reason decides. */
  function FirstMatch(rec: Record, name: string, parse: FieldParser, entries: seq<Entry>, stop: Stop): Outcome
    requires forall i :: 0 <= i < |entries| ==> ValidFieldType(entries[i].tag)
  {
    if entries == [] then StopOutcome(stop)
    else if EntryMatches(rec, name, parse, entries[0]) then
      Value(entries[0].keyOffset + 2, ValueWidth(entries[0].tag),
            parse(rec, entries[0].keyOffset + 2, ValueWidth(entries[0].tag)))
    else FirstMatch(rec, name, parse, entries[1..], stop)
  }

  /** The search returns the value of the first entry whose key matches. */
  lemma {:induction false} FirstMatchFound(rec: Record, name: string, parse: FieldParser, entries: seq<Entry>, stop: Stop, k: nat)
    requires forall i :: 0 <= i < |entries| ==> ValidFieldType(entries[i].tag)
    requires k < |entries| && EntryMatches(rec, name, parse, entries[k])
    requires forall j :: 0 <= j < k ==> !EntryMatches(rec, name, parse, entries[j])
    ensures FirstMatch(rec, name, parse, entries, stop) ==
      Value(entries[k].keyOffset + 2, ValueWidth(entries[k].tag),
            parse(rec, entries[k].keyOffset + 2, ValueWidth(entries[k].tag)))
  {
    if k > 0 {
      var tail := entries[1..];
      assert !EntryMatches(rec, name, parse, entries[0]);
      assert tail[k - 1] == entries[k];
      forall j | 0 <= j < k - 1 ensures !EntryMatches(rec, name, parse, tail[j]) {
        assert tail[j] == entries[j + 1];
      }
      FirstMatchFound(rec, name, parse, tail, stop, k - 1);
    }
  }

  /** With no matching entry, the search reports the layout's stop reason. */
  lemma {:induction false} FirstMatchNone(rec: Record, name: string, parse: FieldParser, entries: seq<Entry>, stop: Stop)
    requires forall i :: 0 <= i < |entries| ==> ValidFieldType(entries[i].tag)
    requires forall k :: 0 <= k < |entries| ==> !EntryMatches(rec, name, parse, entries[k])
    ensures FirstMatch(rec, name, parse, entries, stop) == StopOutcome(stop)
  {
    if entries != [] {
      var tail := entries[1..];
      assert !EntryMatches(rec, name, parse, entries[0]);
      forall k | 0 <= k < |tail| ensures !EntryMatches(rec, name, parse, tail[k]) {
        assert tail[k] == entries[k + 1];
      }
      FirstMatchNone(rec, name, parse, tail, stop);
    }
  }

  /**
   * The forward scan is a search over the name-independent layout: it
   * returns the first matching well-formed entry, and otherwise stops where
   * the layout stops (end of record, a bad tag, or a tag outside memory).
   */
  lemma {:induction false} KtvScanIsFirstMatch(rec: Record, name: string, parse: FieldParser, off: nat)
    decreases rec.length as int - off
    ensures KtvScan(rec, name, parse, off)
         == FirstMatch(rec, name, parse, KtvLayout(rec, off).entries, KtvLayout(rec, off).stop)
  {
    if off < rec.length as nat && off + 1 < |rec.mem| && ValidFieldType(rec.mem[off + 1]) {
      var e := Entry(off, rec.mem[off + 1]);
      var next := off + 2 + SkipWidth(e.tag);
      var rest := KtvLayout(rec, next);
      var entries := [e] + rest.entries;
      assert KtvLayout(rec, off) == Layout(entries, rest.stop);
      if !EntryMatches(rec, name, parse, e) {
        KtvScanIsFirstMatch(rec, name, parse, next);
        assert entries[1..] == rest.entries;
      }
    }
  }

  /** Each entry stepped over moves the cursor forward by at least three bytes. */
  lemma KtvProgress(rec: Record, off: nat)
    ensures forall i :: 0 <= i < |KtvLayout(rec, off).entries| - 1 ==>
      KtvLayout(rec, off).entries[i + 1].keyOffset >= KtvLayout(rec, off).entries[i].keyOffset + 3
  {
  }

  /**
   * A bad tag on the entry under the cursor halts the scan with
   * UnsupportedFieldType for every name, whether or not the key matches and
   * whatever entries would follow.
   */
  lemma KtvBadTagStops(rec: Record, name: string, parse: FieldParser, off: nat)
    requires off < rec.length as nat && off + 1 < |rec.mem| && !ValidFieldType(rec.mem[off + 1])
    ensures KtvScan(rec, name, parse, off) == UnsupportedFieldType(rec.mem[off + 1])
  {
  }

  /** A matched entry returns its value at key + 2, parsed with the tag's width. */
  lemma KtvMatchReturnsValue(rec: Record, name: string, parse: FieldParser, off: nat)
    requires off < rec.length as nat && off + 1 < |rec.mem| && ValidFieldType(rec.mem[off + 1])
    requires parse(rec, off, 0) == Some(name)
    ensures KtvScan(rec, name, parse, off)
         == Value(off + 2, ValueWidth(rec.mem[off + 1]), parse(rec, off + 2, ValueWidth(rec.mem[off + 1])))
  {
  }

  /** A key that parses to NULL never matches: the scan steps over the entry. */
  lemma KtvNullKeySkipped(rec: Record, name: string, parse: FieldParser, off: nat)
    requires off < rec.length as nat && off + 1 < |rec.mem| && ValidFieldType(rec.mem[off + 1])
    requires parse(rec, off, 0) == None
    ensures KtvScan(rec, name, parse, off)
         == KtvScan(rec, name, parse, off + 2 + SkipWidth(rec.mem[off + 1]))
  {
  }

  /**
   * Every value the forward scan returns belongs to a well-formed entry whose
   * key lies inside the record; only the tag byte may sit at `length`, and
   * the value itself is not checked against the length.
   */
  lemma KtvValueOffsets(rec: Record, name: string, parse: FieldParser)
    ensures KtvScan(rec, name, parse, H2).Value? ==>
      H2 + 2 <= KtvScan(rec, name, parse, H2).offset <= rec.length as nat + 1
  {
    var l := KtvLayout(rec, H2);
    KtvScanIsFirstMatch(rec, name, parse, H2);
    if KtvScan(rec, name, parse, H2).Value? {
      FirstMatchInEntries(rec, name, parse, l.entries, l.stop);
    }
  }

  lemma {:induction false} FirstMatchInEntries(rec: Record, name: string, parse: FieldParser, entries: seq<Entry>, stop: Stop)
    requires forall i :: 0 <= i < |entries| ==> ValidFieldType(entries[i].tag)
    requires FirstMatch(rec, name, parse, entries, stop).Value?
    ensures exists k :: (0 <= k < |entries| &&
                         FirstMatch(rec, name, parse, entries, stop).offset == entries[k].keyOffset + 2)
  {
    if !EntryMatches(rec, name, parse, entries[0]) {
      FirstMatchInEntries(rec, name, parse, entries[1..], stop);
      var k :| 0 <= k < |entries| - 1 &&
        FirstMatch(rec, name, parse, entries[1..], stop).offset == entries[1..][k].keyOffset + 2;
      assert entries[1..][k] == entries[k + 1];
    } else {
      assert FirstMatch(rec, name, parse, entries, stop).offset == entries[0].keyOffset + 2;
    }
  }
}
