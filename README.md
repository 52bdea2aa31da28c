# Intel OEM SMBIOS record decoder — a Dafny model

This project models `dmi_intel.c` from libdmi: the decoder for the Intel OEM
SMBIOS record. The input is one raw record and a field name. The output is the
field's decoded text or NULL.

The decoder first checks the record type. It then masks the version byte at
offset `H+1` with `0xE0` to pick one of three layouts:

- `0x00`: the legacy fixed table, 22 one-byte fields right after the header.
- `0x20`: key/value pairs, scanned from the last pair back to the first.
- `0x40`: key/type/value entries, scanned forward with a cursor.

Any masked value above `0x40` is refused.

## Files

- `options.dfy`: module `Options`, the `Option` type that stands for a pointer that may be NULL.
- `dmi_intel.dfy`: module `DmiIntel`. It holds the record, the constants, the
  legacy descriptor table, the spec functions `KvScan`, `KtvScan`,
  `ParseKvTable` and `IntelDmiParser`, and the method `IntelParseKvTable`.
  That method makes the same tests as the C code, runs the two scan loops as
  the methods `KvTableScan` and `KtvTableScan`, and is proved equal to
  `ParseKvTable`.
- `dmi_intel_properties.dfy`: module `DmiIntelProperties`, the lemmas about the
  dispatch and the two scans. It also defines the name-independent entry
  layout `KtvLayout` and the search `FirstMatch`, which together are a second,
  independent account of the forward scan.
- `dmi_intel_examples.dfy`: module `DmiIntelExamples`, concrete records whose
  outcomes are proved.

## Modelling decisions

- `struct dmi_header` is declared in `parse_dmi.h`, which is not part of this
  model. Its size is the constant `H = 4`: the SMBIOS structure header
  (type, length, handle) of DMTF DSP0134, section 6.1.2. `H2 = H + 2` is
  `sizeof(struct platform_header)`.
- A `Record` holds the header's `type` and `length` fields. It also holds `mem`,
  the bytes that can be read from the record's first byte onwards. `mem` may be
  shorter or longer than `length`, because the C code does not check that
  they agree.
- `parse_dmi_field(dmi, offset, width)` is the parameter
  `parse: (Record, nat, nat) -> Option<string>`. Every property holds for
  every such parser.
- The numeric value of `INTEL_SMBIOS` is the parameter `intelSmbios` of
  `IntelDmiParser`.
- This file reads two kinds of bytes itself: the Version byte at `H+1`
  (lines 108 and 188) and the key/type/value tags (lines 154 and 167). Neither
  read is checked against `length`. The model makes them total on `mem`: when
  the byte lies outside `mem`, the outcome is `Truncated(offset)`. The model
  does not claim that the C code checks these reads.
- Every failure in the C code ends in the same `return NULL`. The `Outcome`
  type keeps the path that was taken: `UnsupportedTable`,
  `UnsupportedVersion`, `NoFields`, `UnknownField`, `UnsupportedFieldType` or
  `Truncated`. `Value(offset, width, text)` records the one `parse_dmi_field`
  call whose result is returned. `Returned` maps an outcome to the C return
  value.
- `PARSE_FIELD` is a macro from `parse_dmi.h`. It is modelled as a lookup
  (`FindField`) of the first descriptor in `LegacyFormatDesc` with the given
  name, followed by one `parse` call at that descriptor's offset and width. A
  name that is not in the table gives `UnknownField`.

## Reads the code does not bound

- Each key/type/value entry's tag is read at `key + 1` (lines 151-154 and
  166-167), while the loop guard at line 147 bounds only the key. So the tag
  may be the byte at `length` (`KtvTagReadPastLength`).
- A matched value is parsed at `key + 2` with width up to 4, with no check
  against `length` (line 162, `KtvValuePastLength`).
- A skipped String entry advances over exactly one value byte, for a total
  advance of 3 (line 172, `SkipWidth`).
- The Version byte is read for the format test (line 108), and the Platform
  and Version fields are parsed (lines 114-121), before `length` is examined
  at line 122.

## Model

| member | source | states |
|---|---|---|
| DmiIntel.Mask | dmi_intel.c:37-46 | `v & 0xE0` is `v` rounded down to a multiple of 0x20, so it is at most `v` and within 0x20 of it |
| DmiIntelProperties.FormatClasses | dmi_intel.c:37-46 | the masked version is legacy exactly when `v < 0x20`, key/value exactly when `0x20 <= v < 0x40`, key/type/value exactly when `0x40 <= v < 0x60`, and above `0x40` exactly when `v >= 0x60` |
| DmiIntel.FindField | dmi_intel.c:191 | a found descriptor is in the table and carries the name; nothing is found exactly when no descriptor has the name |
| DmiIntelProperties.LegacyLayout | dmi_intel.c:48-97 | the legacy table has 22 descriptors; the i-th is at offset `H + i` with width 0, following the one-byte members of `struct legacy_format` |
| DmiIntelProperties.LegacyNamesDistinct | dmi_intel.c:74-97 | no two legacy descriptors share a name |
| DmiIntelProperties.FindFieldDistinct | dmi_intel.c:191 | in a table without duplicate names, each descriptor is the one found for its own name |
| DmiIntelProperties.LegacyFieldLookup | dmi_intel.c:186-192 | for an INTEL_SMBIOS record whose version masks to 0, field i of GopVersion..RC6 is `parse` at offset `H + i` with width 0 |
| DmiIntelProperties.LegacyUnknownName | dmi_intel.c:186-196 | a legacy record yields `UnknownField` and NULL for any name the table does not hold |
| DmiIntelProperties.OtherTypesRefused | dmi_intel.c:186-196 | a record of any other type yields `UnsupportedTable` and NULL |
| DmiIntelProperties.UnsupportedVersionForEveryName | dmi_intel.c:108-112 | a version byte of 0x60 or more yields `UnsupportedVersion` for every name, Platform and Version included, both from the dispatcher and from `intel_parse_kv_table` |
| DmiIntelProperties.PlatformAndVersionFixed | dmi_intel.c:114-121 | for both key-based formats, Platform is `parse(H, 0)` and Version is `parse(H+1, 1)` whatever the length and the payload |
| DmiIntelProperties.ShortRecordHasNoFields | dmi_intel.c:122-124 | any other name with `length <= H2` yields `NoFields` and NULL |
| DmiIntelProperties.KvDispatch | dmi_intel.c:125-126 | a key/value record with `length > H2` is scanned over `(length - H2) / 2` pairs |
| DmiIntelProperties.KtvDispatch | dmi_intel.c:143-145 | a key/type/value record with `length > H2` is scanned from offset `H2` |
| DmiIntel.KvScan | dmi_intel.c:129-142 | the key/value scan either finds a value or yields `UnknownField`; a found value is `parse(offset, 0)` at an odd distance from `H2`, strictly inside the scanned pairs. Characterised by `KvScanFound`, `KvScanLastMatch` and `KvLaterPairWins` |
| DmiIntel.KtvScan | dmi_intel.c:147-179 | the forward scan yields a value, `UnknownField`, `UnsupportedFieldType` with an invalid tag, or `Truncated` at an offset outside `mem`; a value lies from `off + 2` up to `length + 1` and is parsed with width 0, 1, 2 or 4. Characterised by `KtvScanIsFirstMatch` with `KtvLayout`, `FirstMatchFound` and `FirstMatchNone` |
| DmiIntel.ParseKvTable | dmi_intel.c:105-180 | `intel_parse_kv_table` never reports an unsupported table; a refused version is 0x60 or more; a value is the `parse` call it records, and for names other than Platform and Version it lies past `H2`. Characterised by `UnsupportedVersionForEveryName`, `PlatformAndVersionFixed`, `ShortRecordHasNoFields`, `KvDispatch`, `KtvDispatch` and `IntelParseKvTable` |
| DmiIntel.IntelDmiParser | dmi_intel.c:182-197 | a record is refused as an unsupported table exactly when its type is not INTEL_SMBIOS; a value is the `parse` call it records. Characterised by `OtherTypesRefused`, `LegacyFieldLookup` and `LegacyUnknownName` |
| DmiIntel.IntelParseKvTable | dmi_intel.c:105-180 | the method with the C tests and both C loops computes exactly `ParseKvTable` |
| DmiIntel.KvTableScan | dmi_intel.c:125-142 | the `entries` count-down loop over a record longer than `H2` computes exactly `KvScan` over `(length - H2) / 2` pairs |
| DmiIntel.KtvTableScan | dmi_intel.c:143-179 | the forward cursor loop from `H2` computes exactly `KtvScan` from `H2` |
| DmiIntelProperties.KvScanFound | dmi_intel.c:129-142 | the key/value scan returns a value exactly when some pair's key matches; otherwise it yields `UnknownField` |
| DmiIntelProperties.KvScanLastMatch | dmi_intel.c:129-141 | when pair k matches and no later pair does, the result is `parse(H2 + 2k + 1, 0)` |
| DmiIntelProperties.KvLaterPairWins | dmi_intel.c:129-141 | a matching pair j forces a found value whose offset is at least that of pair j's value, so among duplicate keys the last pair wins |
| DmiIntelProperties.KvNullKeyMatches | dmi_intel.c:133-140 | when the last pair's key parses to NULL, it matches whatever the name, and that pair's value is returned |
| DmiIntelProperties.KvScanReadsOnlyPairs | dmi_intel.c:126-131 | the key/value scan over n pairs depends on the parser only at offsets below `H2 + 2n` |
| DmiIntelProperties.KvPairsWithinLength | dmi_intel.c:126-131 | all pairs lie within `length`; when the payload is odd, its last byte is never passed to the parser |
| DmiIntel.Shl1 | dmi_intel.c:160 | `1 << n` is 1, 2 or 4 for n = 0, 1, 2 |
| DmiIntel.ValueWidth | dmi_intel.c:159-162 | a matched value is parsed with width 1, 2, 4 for BYTE, WORD, DWORD and width 0 for STRING |
| DmiIntel.SkipWidth | dmi_intel.c:172 | a skipped entry steps over 1, 2, 4 value bytes for BYTE, WORD, DWORD and exactly 1 for STRING |
| DmiIntelProperties.KtvLayout | dmi_intel.c:147-175 | the entries from a cursor do not depend on the name; each key lies in `[off, length)`, each tag is valid and is the byte after its key, and each entry starts `2 + SkipWidth` after the previous one |
| DmiIntelProperties.FirstMatchFound | dmi_intel.c:147-163 | when entry k is the first whose key matches, the search returns `parse(key + 2, width)` for entry k's tag width |
| DmiIntelProperties.FirstMatchNone | dmi_intel.c:164-179 | when no entry's key matches, the search reports the layout's stop reason: end of record, a bad tag, or a tag outside memory |
| DmiIntelProperties.KtvScanIsFirstMatch | dmi_intel.c:143-179 | the forward scan equals first-match search over the layout, so a bad tag or the record's end stops it before any later entry is examined |
| DmiIntelProperties.KtvProgress | dmi_intel.c:166-175 | each skipped entry moves the cursor forward by at least 3 bytes |
| DmiIntelProperties.KtvBadTagStops | dmi_intel.c:150-170 | a tag of 0 or above 4 on the entry under the cursor yields `UnsupportedFieldType` for every name, whether the key matches or not |
| DmiIntelProperties.KtvMatchReturnsValue | dmi_intel.c:148-162 | a matching key with a valid tag returns `parse(off + 2, width)` for the tag's width |
| DmiIntelProperties.KtvNullKeySkipped | dmi_intel.c:148-174 | a key that parses to NULL never matches; the scan steps over its entry |
| DmiIntelProperties.KtvValueOffsets | dmi_intel.c:147-162 | a value found by the forward scan is at offset `H2 + 2` up to `length + 1`, because its key lies inside the record |
| DmiIntelExamples.KvDuplicateKeyExample | dmi_intel.c:126-140 | two pairs with key '1': the value of the second pair is returned |
| DmiIntelExamples.KtvBadTagExample | dmi_intel.c:147-170 | in the payload `['A', BYTE, 0x7F, 'B', 0x09]`, 'A' is found and 'B' yields `UnsupportedFieldType(0x09)` |
| DmiIntelExamples.KtvTagReadPastLength | dmi_intel.c:147-170 | two records equal on their first `length` bytes yield different outcomes, because the last tag is read at `length` |
| DmiIntelExamples.KtvValuePastLength | dmi_intel.c:159-162 | a DWORD entry whose key is the record's last byte is returned with its value beyond `length` |

## Left out

- The internals of `parse_dmi_field`, `PARSE_FIELD` and `FIELD_DESC`: `parse_dmi.h` and `parse_dmi.c` are not part of this model. The parser is a parameter, and the macro is modelled as a lookup by name.
- The `error()` diagnostics: only which failure path was taken is kept.
- The `malloc`/`free` handling of decoded strings: the model has no memory management.
- The numeric value of `INTEL_SMBIOS` and the layout of `struct dmi_header` beyond its size and its `type` and `length` fields: they are not in this file.
- How the outer SMBIOS table is enumerated and which vendor decoder is dispatched: both live outside this file.
- Pointer arithmetic on real addresses: offsets are unbounded naturals counted from the record's start, so a cursor cannot wrap around.
- `Record` does not tie `recType` and `length` to `mem[0]` and `mem[1]`: the header fields and the readable bytes are kept apart, so a record whose header disagrees with its bytes is also covered.
- Keys are compared with Dafny string equality, not `strcmp` on NUL-terminated strings. The two agree only when neither the parsed key nor the field name contains a NUL character.
