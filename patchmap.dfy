/** Intersection of a subset definition (codepoints and feature tags) with the
    format 1 patch maps of a font's "IFT " and "IFTX" tables, as skrifa's
    `patchmap` module does it.

    The font is given by what the algorithm reads of it: the `maxp` glyph
    count, the character map and the decoded fields of the two patch-map
    tables. Byte parsing of those tables is not modelled, except for the
    entry-map records of the feature map, whose byte offsets the algorithm
    computes itself. */
module PatchMap {
  import opened Wrappers
  import opened FixedWidth

  /** An OpenType tag. Tags compare as their four bytes read big-endian,
      which is the order of `u32`. */
  type Tag = u32

  datatype ReadError =
    | OutOfBounds
    | MalformedData(message: string)

  /** skrifa's `PatchEncoding`: format numbers 1 to 4. */
  datatype PatchEncoding = Brotli | PerTableBrotli(fullyInvalidating: bool) | GlyphKeyed

  datatype PatchUri = PatchUri(uri: string, encoding: PatchEncoding)

  datatype GlyphMap = GlyphMap(firstMappedGlyph: u16, entryIndex: seq<u16>)

  datatype FeatureRecord = FeatureRecord(featureTag: Tag, entryMapCount: u16)

  /** Each feature record is decoded on demand and may fail to decode. */
  datatype FeatureMap = FeatureMap(featureRecords: seq<Result<FeatureRecord, ReadError>>, entryMapData: seq<u8>)

  datatype EntryMapRecord = EntryMapRecord(firstEntryIndex: u16, lastEntryIndex: u16)

  /** The accessors of a format 1 patch map that the intersection reads.
      `uriTemplate` is `None` when its bytes are not valid UTF-8; `glyphMap`
      and `featureMap` are the results of decoding those sub-tables; and
      `appliedEntries` holds the entries whose "applied" bit is set. */
  datatype PatchMapFormat1 = PatchMapFormat1(
    glyphCount: u32,
    maxEntryIndex: u16,
    maxGlyphMapEntryIndex: u16,
    uriTemplate: Option<string>,
    patchEncoding: u8,
    glyphMap: Result<GlyphMap, ReadError>,
    featureMap: Option<Result<FeatureMap, ReadError>>,
    appliedEntries: set<u16>)

  datatype Ift = Format1(patchMap: PatchMapFormat1) | Format2

  /** `maxpNumGlyphs` is `None` when the font has no readable `maxp`;
      `ift`/`iftx` are `None` when the table is absent or unreadable. */
  datatype Font = Font(maxpNumGlyphs: Option<u16>, charmap: map<u32, u32>, ift: Option<Ift>, iftx: Option<Ift>)

  /** How a computation of the source ends: with a value, with a `ReadError`,
      or in a panic (16-bit overflow or slicing past the end of a buffer).
      The panics only serve to state the methods' preconditions. */
  datatype Outcome<T> = Done(value: T) | Failed(error: ReadError) | Panicked

  const GLYPH_COUNT_MESSAGE := "IFT glyph count must match maxp glyph count."
  const MAX_ENTRY_MESSAGE := "max_glyph_map_entry_index() must be >= max_entry_index()."
  const URI_TEMPLATE_MESSAGE := "Invalid unicode string for the uri_template."
  const ENCODING_MESSAGE := "Unrecognized patch encoding format number."

  // ---------------------------------------------------------------------------
  // Patch encodings and URIs

  /** The format number a patch encoding is written as. */
  function FormatNumber(encoding: PatchEncoding): (n: u8)
    ensures 1 <= n <= 4
  {
    match encoding
    case Brotli => 1
    case PerTableBrotli(fullyInvalidating) => if fullyInvalidating then 2 else 3
    case GlyphKeyed => 4
  }

  function FromFormatNumber(format: u8): (r: Option<PatchEncoding>)
    ensures r.Some? <==> 1 <= format <= 4
    ensures r.Some? ==> FormatNumber(r.value) == format
  {
    match format
    case 1 => Some(Brotli)
    case 2 => Some(PerTableBrotli(fullyInvalidating := true))
    case 3 => Some(PerTableBrotli(fullyInvalidating := false))
    case 4 => Some(GlyphKeyed)
    case _ => None
  }

  lemma FormatNumberRoundTrip(encoding: PatchEncoding)
    ensures FromFormatNumber(FormatNumber(encoding)) == Some(encoding)
  {
  }

  /** The URI of an entry. Template expansion is not implemented: the
      template comes back verbatim whatever the entry index. */
  function FromIndex(uriTemplate: string, entryIndex: u32, encoding: PatchEncoding): (r: PatchUri)
    ensures r.uri == uriTemplate && r.encoding == encoding
  {
    PatchUri(uriTemplate, encoding)
  }

  lemma FromIndexIgnoresIndex(uriTemplate: string, i: u32, j: u32, encoding: PatchEncoding)
    ensures FromIndex(uriTemplate, i, encoding) == FromIndex(uriTemplate, j, encoding)
  {
  }

  // ---------------------------------------------------------------------------
  // Step 0: top-level field validation

  /** The four top-level checks, in the source's order. On success yields the
      URI template and the patch encoding. */
  function CheckTopLevelFields(font: Font, m: PatchMapFormat1): (r: Result<(string, PatchEncoding), ReadError>)
    ensures r.Ok? <==>
      && (font.maxpNumGlyphs.Some? ==> m.glyphCount == font.maxpNumGlyphs.value)
      && m.maxGlyphMapEntryIndex <= m.maxEntryIndex
      && m.uriTemplate.Some?
      && 1 <= m.patchEncoding <= 4
    ensures r.Ok? ==> r.value == (m.uriTemplate.value, FromFormatNumber(m.patchEncoding).value)
    ensures r.Err? ==> r.error.MalformedData?
    ensures font.maxpNumGlyphs.Some? && m.glyphCount != font.maxpNumGlyphs.value ==>
      r == Err(MalformedData(GLYPH_COUNT_MESSAGE))
    ensures ((font.maxpNumGlyphs.Some? ==> m.glyphCount == font.maxpNumGlyphs.value)
             && m.maxGlyphMapEntryIndex > m.maxEntryIndex) ==> r == Err(MalformedData(MAX_ENTRY_MESSAGE))
  {
    if font.maxpNumGlyphs.Some? && m.glyphCount != font.maxpNumGlyphs.value then
      Err(MalformedData(GLYPH_COUNT_MESSAGE))
    else if m.maxGlyphMapEntryIndex > m.maxEntryIndex then
      Err(MalformedData(MAX_ENTRY_MESSAGE))
    else if m.uriTemplate.None? then
      Err(MalformedData(URI_TEMPLATE_MESSAGE))
    else
      match FromFormatNumber(m.patchEncoding)
      case None => Err(MalformedData(ENCODING_MESSAGE))
      case Some(encoding) => Ok((m.uriTemplate.value, encoding))
  }

  // ---------------------------------------------------------------------------
  // Step 1: the glyph map

  /** What one codepoint yields in the glyph-map pass: nothing when it has no
      glyph, entry 0 below the first mapped glyph, otherwise the entry-index
      array element, or `OutOfBounds` past the end of that array. */
  function GlyphEntry(charmap: map<u32, u32>, glyphMap: GlyphMap, cp: u32): Result<Option<u16>, ReadError> {
    if cp !in charmap then Ok(None)
    else if charmap[cp] < glyphMap.firstMappedGlyph then Ok(Some(0))
    else if charmap[cp] - glyphMap.firstMappedGlyph < |glyphMap.entryIndex| then
      Ok(Some(glyphMap.entryIndex[charmap[cp] - glyphMap.firstMappedGlyph]))
    else Err(OutOfBounds)
  }

  ghost predicate GlyphMapFails(charmap: map<u32, u32>, glyphMap: GlyphMap, codepoints: set<u32>) {
    exists cp :: cp in codepoints && GlyphEntry(charmap, glyphMap, cp).Err?
  }

  /** The entries the glyph-map pass inserts: those of mapped codepoints that
      do not exceed `maxGlyphMapEntryIndex`. */
  ghost function GlyphMapEntries(charmap: map<u32, u32>, glyphMap: GlyphMap, maxGlyphMapEntryIndex: u16,
                                 codepoints: set<u32>): set<u16>
  {
    set cp | cp in codepoints && GlyphEntry(charmap, glyphMap, cp).Ok? && GlyphEntry(charmap, glyphMap, cp).value.Some?
                && GlyphEntry(charmap, glyphMap, cp).value.value <= maxGlyphMapEntryIndex
      :: GlyphEntry(charmap, glyphMap, cp).value.value
  }

  /** Holds by the definition of `GlyphMapEntries`, whose filter drops every
      entry above `maxGlyphMapEntryIndex`; stated for `Format1OutcomeSound`. */
  lemma GlyphMapEntriesBelowMax(charmap: map<u32, u32>, glyphMap: GlyphMap, maxGlyphMapEntryIndex: u16,
                                codepoints: set<u32>)
    ensures forall e :: e in GlyphMapEntries(charmap, glyphMap, maxGlyphMapEntryIndex, codepoints) ==>
      e <= maxGlyphMapEntryIndex
  {
  }

  /** `intersect_format1_glyph_map`: `entries` is the caller's `IntSet`, passed
      in and handed back with the glyph-map entries inserted. The source walks
      the codepoints in ascending order; the result does not depend on the
      order, so the loop takes them in any order. */
  method IntersectGlyphMap(font: Font, m: PatchMapFormat1, codepoints: set<u32>, entries: set<u16>)
    returns (r: Result<set<u16>, ReadError>)
    ensures m.glyphMap.Err? ==> r == Err(m.glyphMap.error)
    ensures m.glyphMap.Ok? && GlyphMapFails(font.charmap, m.glyphMap.value, codepoints) ==> r == Err(OutOfBounds)
    ensures m.glyphMap.Ok? && !GlyphMapFails(font.charmap, m.glyphMap.value, codepoints) ==>
      r == Ok(entries + GlyphMapEntries(font.charmap, m.glyphMap.value, m.maxGlyphMapEntryIndex, codepoints))
  {
    if m.glyphMap.Err? {
      return Err(m.glyphMap.error);
    }
    var glyphMap := m.glyphMap.value;
    var firstGid := glyphMap.firstMappedGlyph;
    var maxGlyphMapEntryIndex := m.maxGlyphMapEntryIndex;
    var remaining := codepoints;
    var current := entries;
    while remaining != {}
      invariant remaining <= codepoints
      invariant forall cp :: cp in codepoints - remaining ==> GlyphEntry(font.charmap, glyphMap, cp).Ok?
      invariant current == entries + GlyphMapEntries(font.charmap, glyphMap, maxGlyphMapEntryIndex, codepoints - remaining)
      decreases remaining
    {
      var cp :| cp in remaining;
      ghost var done := codepoints - remaining;
      remaining := remaining - {cp};
      assert codepoints - remaining == done + {cp};
      if cp !in font.charmap {
        continue;
      }
      var gid := font.charmap[cp];
      var entryIndex: u16;
      if gid < firstGid {
        entryIndex := 0;
      } else {
        if gid - firstGid >= |glyphMap.entryIndex| {
          return Err(OutOfBounds);
        }
        entryIndex := glyphMap.entryIndex[gid - firstGid];
      }
      if entryIndex > maxGlyphMapEntryIndex {
        continue;
      }
      current := current + {entryIndex};
    }
    assert codepoints - remaining == codepoints;
    return Ok(current);
  }

  // ---------------------------------------------------------------------------
  // Step 2: the feature map

  /** Bytes per field of an entry-map record. */
  function FieldWidth(maxEntryIndex: u16): (w: nat)
    ensures w == 1 || w == 2
  {
    if maxEntryIndex < 256 then 1 else 2
  }

  /** The byte offset of the `index`-th entry-map record: two fields each. */
  function MappingOffset(index: nat, maxEntryIndex: u16): nat {
    index * FieldWidth(maxEntryIndex) * 2
  }

  /** Reads one entry-map record (two big-endian fields of `FieldWidth`
      bytes) from the front of `data`. */
  function ReadEntryMapRecord(data: seq<u8>, maxEntryIndex: u16): (r: Result<EntryMapRecord, ReadError>)
    ensures r.Ok? <==> |data| >= 2 * FieldWidth(maxEntryIndex)
    ensures r.Ok? && maxEntryIndex < 256 ==> r.value == EntryMapRecord(data[0], data[1])
  {
    if |data| < 2 * FieldWidth(maxEntryIndex) then Err(OutOfBounds)
    else if FieldWidth(maxEntryIndex) == 1 then Ok(EntryMapRecord(data[0], data[1]))
    else Ok(EntryMapRecord((data[0] as int) * 256 + data[1], (data[2] as int) * 256 + data[3]))
  }

  /** The inner `for i in 0..entry_count` loop for a record whose tag was
      requested: mapping `tot + i` is read at byte `(tot + i) * width * 2` and
      contributes `first + i` when that lies strictly above
      `maxGlyphMapEntryIndex` and at most `maxEntryIndex`. As in the source,
      `last` is read from the `first` field. */
  function RecordMappings(fm: FeatureMap, maxEntryIndex: u16, maxGlyphMapEntryIndex: u16,
                          tot: nat, entryCount: u16, i: nat, acc: set<u16>): Outcome<set<u16>>
    decreases entryCount - i
  {
    if i >= entryCount then Done(acc)
    else
      var index := i + tot;
      var byteIndex := MappingOffset(index, maxEntryIndex);
      if index > U16_MAX || byteIndex > U16_MAX || byteIndex > |fm.entryMapData| then Panicked
      else
        match ReadEntryMapRecord(fm.entryMapData[byteIndex..], maxEntryIndex)
        case Err(e) => Failed(e)
        case Ok(record) =>
          var mapped := record.firstEntryIndex + i;
          if mapped > U16_MAX then Panicked
          else
            var first := record.firstEntryIndex;
            var last := record.firstEntryIndex;
            if first > last || first > maxGlyphMapEntryIndex || last > maxGlyphMapEntryIndex
               || mapped <= maxGlyphMapEntryIndex || mapped > maxEntryIndex
            then RecordMappings(fm, maxEntryIndex, maxGlyphMapEntryIndex, tot, entryCount, i + 1, acc)
            else RecordMappings(fm, maxEntryIndex, maxGlyphMapEntryIndex, tot, entryCount, i + 1, acc + {mapped})
  }

  /** The merge-walk of the requested tags (cursor `ti`) against the feature
      records (cursor `ri`), from the state given by the cursors, the
      cumulative entry-map count and the largest tag processed so far. */
  function FeatureWalk(tags: seq<Tag>, fm: FeatureMap, maxEntryIndex: u16, maxGlyphMapEntryIndex: u16,
                       ti: nat, ri: nat, cumulative: nat, largest: Option<Tag>, acc: set<u16>): Outcome<set<u16>>
    decreases |tags| - ti + (|fm.featureRecords| - ri), if ti < |tags| && largest == Some(tags[ti]) then 0 else 1
  {
    if ti >= |tags| || ri >= |fm.featureRecords| then Done(acc)
    else
      match fm.featureRecords[ri]
      case Err(e) => Failed(e)
      case Ok(record) =>
        var tag := tags[ti];
        if tag > record.featureTag then
          FeatureWalk(tags, fm, maxEntryIndex, maxGlyphMapEntryIndex, ti, ri + 1, cumulative, largest, acc)
        else if largest.Some? && tag <= largest.value then
          FeatureWalk(tags, fm, maxEntryIndex, maxGlyphMapEntryIndex, ti + 1, ri, cumulative, largest, acc)
        else if cumulative + record.entryMapCount > U16_MAX then Panicked
        else if tag < record.featureTag then
          FeatureWalk(tags, fm, maxEntryIndex, maxGlyphMapEntryIndex, ti + 1, ri,
                      cumulative + record.entryMapCount, Some(tag), acc)
        else
          match RecordMappings(fm, maxEntryIndex, maxGlyphMapEntryIndex, cumulative, record.entryMapCount, 0, acc)
          case Done(acc') =>
            FeatureWalk(tags, fm, maxEntryIndex, maxGlyphMapEntryIndex, ti, ri,
                        cumulative + record.entryMapCount, Some(tag), acc')
          case Failed(e) => Failed(e)
          case Panicked => Panicked
  }

  /** The entries the feature-map pass inserts, from an empty set. */
  function FeatureMapOutcome(m: PatchMapFormat1, features: seq<Tag>): Outcome<set<u16>> {
    match m.featureMap
    case None => Done({})
    case Some(Err(e)) => Failed(e)
    case Some(Ok(fm)) => FeatureWalk(features, fm, m.maxEntryIndex, m.maxGlyphMapEntryIndex, 0, 0, 0, None, {})
  }

  /** A `BTreeSet<Tag>` iterates its tags strictly ascending. */
  ghost predicate TagsSorted(tags: seq<Tag>) {
    forall i, j :: 0 <= i < j < |tags| ==> tags[i] < tags[j]
  }

  /** One iteration of the mapping loop that does not panic: the slice it
      reads is in bounds, and the rest of the loop continues from the next
      index with the mapping added or not. */
  lemma RecordMappingsStep(fm: FeatureMap, maxEntryIndex: u16, maxGlyphMapEntryIndex: u16,
                           tot: nat, entryCount: u16, i: nat, acc: set<u16>)
    requires i < entryCount
    requires !RecordMappings(fm, maxEntryIndex, maxGlyphMapEntryIndex, tot, entryCount, i, acc).Panicked?
    ensures MappingOffset(i + tot, maxEntryIndex) <= |fm.entryMapData|
    ensures var record := ReadEntryMapRecord(fm.entryMapData[MappingOffset(i + tot, maxEntryIndex)..], maxEntryIndex);
      && (record.Err? ==>
            RecordMappings(fm, maxEntryIndex, maxGlyphMapEntryIndex, tot, entryCount, i, acc) == Failed(record.error))
      && (record.Ok? ==>
            var mapped := record.value.firstEntryIndex + i;
            mapped <= U16_MAX
            && RecordMappings(fm, maxEntryIndex, maxGlyphMapEntryIndex, tot, entryCount, i, acc)
               == RecordMappings(fm, maxEntryIndex, maxGlyphMapEntryIndex, tot, entryCount, i + 1,
                                 if record.value.firstEntryIndex > maxGlyphMapEntryIndex
                                    || mapped <= maxGlyphMapEntryIndex || mapped > maxEntryIndex
                                 then acc else acc + {mapped as u16}))
  {
  }

  /** The body of the source's `for i in 0..entry_count` loop, run for one
      record whose tag was requested. `current` holds `entries` plus the
      entries `acc` the walk has inserted so far. */
  method InsertRecordMappings(fm: FeatureMap, maxEntryIndex: u16, maxGlyphMapEntryIndex: u16,
                              totEntryCount: nat, entryCount: u16, current: set<u16>,
                              ghost entries: set<u16>, ghost acc: set<u16>)
    returns (r: Result<set<u16>, ReadError>)
    requires current == entries + acc
    requires !RecordMappings(fm, maxEntryIndex, maxGlyphMapEntryIndex, totEntryCount, entryCount, 0, acc).Panicked?
    ensures RecordMappings(fm, maxEntryIndex, maxGlyphMapEntryIndex, totEntryCount, entryCount, 0, acc).Done? ==>
      r == Ok(entries + RecordMappings(fm, maxEntryIndex, maxGlyphMapEntryIndex, totEntryCount, entryCount, 0, acc).value)
    ensures RecordMappings(fm, maxEntryIndex, maxGlyphMapEntryIndex, totEntryCount, entryCount, 0, acc).Failed? ==>
      r == Err(RecordMappings(fm, maxEntryIndex, maxGlyphMapEntryIndex, totEntryCount, entryCount, 0, acc).error)
  {
    ghost var mappings := RecordMappings(fm, maxEntryIndex, maxGlyphMapEntryIndex, totEntryCount, entryCount, 0, acc);
    var updated := current;
    var i: nat := 0;
    ghost var inner: set<u16> := acc;
    while i < entryCount
      invariant i <= entryCount
      invariant RecordMappings(fm, maxEntryIndex, maxGlyphMapEntryIndex, totEntryCount, entryCount, i, inner) == mappings
      invariant updated == entries + inner
    {
      var index := i + totEntryCount;
      var byteIndex := MappingOffset(index, maxEntryIndex);
      RecordMappingsStep(fm, maxEntryIndex, maxGlyphMapEntryIndex, totEntryCount, entryCount, i, inner);
      var data := fm.entryMapData[byteIndex..];
      var entryRecord := ReadEntryMapRecord(data, maxEntryIndex);
      if entryRecord.Err? {
        return Err(entryRecord.error);
      }
      var mappedEntryIndex := entryRecord.value.firstEntryIndex + i;
      var first := entryRecord.value.firstEntryIndex;
      var last := entryRecord.value.firstEntryIndex;
      if first > last || first > maxGlyphMapEntryIndex || last > maxGlyphMapEntryIndex
         || mappedEntryIndex <= maxGlyphMapEntryIndex || mappedEntryIndex > maxEntryIndex {
        i := i + 1;
        continue;
      }
      updated := updated + {mappedEntryIndex};
      inner := inner + {mappedEntryIndex};
      i := i + 1;
    }
    return Ok(updated);
  }

  /** `intersect_format1_feature_map`: `entries` is the caller's `IntSet`,
      handed back with the feature-map entries inserted. */
  method IntersectFeatureMap(m: PatchMapFormat1, features: seq<Tag>, entries: set<u16>)
    returns (r: Result<set<u16>, ReadError>)
    requires TagsSorted(features)
    requires !FeatureMapOutcome(m, features).Panicked?
    ensures FeatureMapOutcome(m, features).Done? ==> r == Ok(entries + FeatureMapOutcome(m, features).value)
    ensures FeatureMapOutcome(m, features).Failed? ==> r == Err(FeatureMapOutcome(m, features).error)
  {
    var maxEntryIndex := m.maxEntryIndex;
    var maxGlyphMapEntryIndex := m.maxGlyphMapEntryIndex;
    if m.featureMap.None? {
      assert entries + {} == entries;
      return Ok(entries);
    }
    if m.featureMap.value.Err? {
      return Err(m.featureMap.value.error);
    }
    var fm := m.featureMap.value.value;
    ghost var whole := FeatureWalk(features, fm, maxEntryIndex, maxGlyphMapEntryIndex, 0, 0, 0, None, {});
    var nextTag: nat, nextRecord: nat := 0, 0;
    var cumulative: nat := 0;
    var largest: Option<Tag> := None;
    var current := entries;
    ghost var acc: set<u16> := {};
    while nextTag < |features| && nextRecord < |fm.featureRecords|
      invariant nextTag <= |features| && nextRecord <= |fm.featureRecords|
      invariant FeatureWalk(features, fm, maxEntryIndex, maxGlyphMapEntryIndex,
                            nextTag, nextRecord, cumulative, largest, acc) == whole
      invariant current == entries + acc
      decreases |features| - nextTag + (|fm.featureRecords| - nextRecord),
        if nextTag < |features| && largest == Some(features[nextTag]) then 0 else 1
    {
      if fm.featureRecords[nextRecord].Err? {
        return Err(fm.featureRecords[nextRecord].error);
      }
      var record := fm.featureRecords[nextRecord].value;
      var tag := features[nextTag];
      if tag > record.featureTag {
        nextRecord := nextRecord + 1;
        continue;
      }
      if largest.Some? && tag <= largest.value {
        nextTag := nextTag + 1;
        continue;
      }
      largest := Some(tag);
      var entryCount := record.entryMapCount;
      var totEntryCount := cumulative;
      cumulative := cumulative + entryCount;
      if tag < record.featureTag {
        nextTag := nextTag + 1;
        continue;
      }
      ghost var mappings := RecordMappings(fm, maxEntryIndex, maxGlyphMapEntryIndex, totEntryCount, entryCount, 0, acc);
      assert mappings.Done? ==> whole == FeatureWalk(features, fm, maxEntryIndex, maxGlyphMapEntryIndex,
                                                     nextTag, nextRecord, cumulative, largest, mappings.value);
      assert mappings.Failed? ==> whole == Failed(mappings.error);
      var inserted := InsertRecordMappings(fm, maxEntryIndex, maxGlyphMapEntryIndex, totEntryCount, entryCount,
                                           current, entries, acc);
      if inserted.Err? {
        return Err(inserted.error);
      }
      current := inserted.value;
      acc := mappings.value;
    }
    return Ok(current);
  }

  // ---------------------------------------------------------------------------
  // Step 3: output

  /** The elements of `s` from `lo` upward, in ascending order: the order an
      `IntSet<u16>` iterates in. */
  function Ascending(s: set<u16>, lo: nat): (r: seq<u16>)
    ensures forall e :: e in r <==> e in s && e >= lo
    ensures forall i, j :: 0 <= i < j < |r| ==> r[i] < r[j]
    decreases 0x1_0000 - lo
  {
    if lo >= 0x1_0000 then []
    else
      var rest := Ascending(s, lo + 1);
      var r := (if lo in s then [lo] else []) + rest;
      assert forall i, j :: 0 <= i < j < |r| ==> r[i] < r[j] by {
        forall i, j | 0 <= i < j < |r| ensures r[i] < r[j] {
          if lo in s && i == 0 {
            assert r[j] in rest;
          }
        }
      }
      r
  }

  /** The entries step 3 emits, ascending: entry 0 and the entries the table
      marks applied are filtered out. */
  function EmittedIndices(entries: set<u16>, applied: set<u16>): (r: seq<u16>)
    ensures forall e :: e in r <==> e in entries && e > 0 && e !in applied
    ensures forall i, j :: 0 <= i < j < |r| ==> r[i] < r[j]
  {
    Ascending(set e | e in entries && e > 0 && e !in applied, 0)
  }

  function EmittedPatches(entries: set<u16>, applied: set<u16>, uriTemplate: string, encoding: PatchEncoding): (r: seq<PatchUri>)
    ensures |r| == |EmittedIndices(entries, applied)|
    ensures forall k :: 0 <= k < |r| ==> r[k] == PatchUri(uriTemplate, encoding)
  {
    var indices := EmittedIndices(entries, applied);
    seq(|indices|, k requires 0 <= k < |indices| => FromIndex(uriTemplate, indices[k], encoding))
  }

  // ---------------------------------------------------------------------------
  // One table, then both

  /** The entry set after steps 1 and 2, when neither fails. */
  ghost function Format1Entries(font: Font, m: PatchMapFormat1, codepoints: set<u32>, features: seq<Tag>): set<u16>
    requires m.glyphMap.Ok? && FeatureMapOutcome(m, features).Done?
  {
    GlyphMapEntries(font.charmap, m.glyphMap.value, m.maxGlyphMapEntryIndex, codepoints)
      + FeatureMapOutcome(m, features).value
  }

  /** What `add_intersecting_format1_patches` appends for one table. */
  ghost function Format1Outcome(font: Font, m: PatchMapFormat1, codepoints: set<u32>, features: seq<Tag>)
    : Outcome<seq<PatchUri>>
  {
    match CheckTopLevelFields(font, m)
    case Err(e) => Failed(e)
    case Ok((uriTemplate, encoding)) =>
      if m.glyphMap.Err? then Failed(m.glyphMap.error)
      else if GlyphMapFails(font.charmap, m.glyphMap.value, codepoints) then Failed(OutOfBounds)
      else
        match FeatureMapOutcome(m, features)
        case Failed(e) => Failed(e)
        case Panicked => Panicked
        case Done(_) =>
          Done(EmittedPatches(Format1Entries(font, m, codepoints, features), m.appliedEntries, uriTemplate, encoding))
  }

  /** `add_intersecting_format1_patches`: `patches` is the caller's vector,
      handed back extended; on an error it is left as it was. */
  method AddIntersectingFormat1Patches(font: Font, m: PatchMapFormat1, codepoints: set<u32>, features: seq<Tag>,
                                       patches: seq<PatchUri>)
    returns (r: Result<seq<PatchUri>, ReadError>)
    requires TagsSorted(features)
    requires !Format1Outcome(font, m, codepoints, features).Panicked?
    ensures Format1Outcome(font, m, codepoints, features).Done? ==>
      r == Ok(patches + Format1Outcome(font, m, codepoints, features).value)
    ensures Format1Outcome(font, m, codepoints, features).Failed? ==>
      r == Err(Format1Outcome(font, m, codepoints, features).error)
  {
    var checked := CheckTopLevelFields(font, m);
    if checked.Err? {
      return Err(checked.error);
    }
    var (uriTemplate, encoding) := checked.value;

    var entries: set<u16> := {};
    var glyphResult := IntersectGlyphMap(font, m, codepoints, entries);
    if glyphResult.Err? {
      return Err(glyphResult.error);
    }
    entries := glyphResult.value;

    var featureResult := IntersectFeatureMap(m, features, entries);
    if featureResult.Err? {
      return Err(featureResult.error);
    }
    entries := featureResult.value;
    assert entries == Format1Entries(font, m, codepoints, features);

    return Ok(patches + EmittedPatches(entries, m.appliedEntries, uriTemplate, encoding));
  }

  /** What one scope contributes: nothing when its table is absent. */
  ghost function ScopeOutcome(font: Font, table: Option<Ift>, codepoints: set<u32>, features: seq<Tag>)
    : Outcome<seq<PatchUri>>
  {
    match table
    case None => Done([])
    // Format 2 is left as `todo!()`, which panics.
    case Some(Format2) => Panicked
    case Some(Format1(m)) => Format1Outcome(font, m, codepoints, features)
  }

  /** `intersecting_patches`: the IFT table's patches, then the IFTX table's;
      the first error aborts the call. */
  ghost function IntersectingOutcome(font: Font, codepoints: set<u32>, features: seq<Tag>): Outcome<seq<PatchUri>> {
    match ScopeOutcome(font, font.ift, codepoints, features)
    case Failed(e) => Failed(e)
    case Panicked => Panicked
    case Done(iftPatches) =>
      match ScopeOutcome(font, font.iftx, codepoints, features)
      case Failed(e) => Failed(e)
      case Panicked => Panicked
      case Done(iftxPatches) => Done(iftPatches + iftxPatches)
  }

  method AddIntersectingPatches(font: Font, table: Ift, codepoints: set<u32>, features: seq<Tag>,
                                patches: seq<PatchUri>)
    returns (r: Result<seq<PatchUri>, ReadError>)
    requires TagsSorted(features)
    requires !ScopeOutcome(font, Some(table), codepoints, features).Panicked?
    ensures ScopeOutcome(font, Some(table), codepoints, features).Done? ==>
      r == Ok(patches + ScopeOutcome(font, Some(table), codepoints, features).value)
    ensures ScopeOutcome(font, Some(table), codepoints, features).Failed? ==>
      r == Err(ScopeOutcome(font, Some(table), codepoints, features).error)
  {
    match table
    case Format1(m) =>
      r := AddIntersectingFormat1Patches(font, m, codepoints, features, patches);
    case Format2 =>
      assert false;
  }

  method IntersectingPatches(font: Font, codepoints: set<u32>, features: seq<Tag>)
    returns (r: Result<seq<PatchUri>, ReadError>)
    requires TagsSorted(features)
    requires !IntersectingOutcome(font, codepoints, features).Panicked?
    ensures IntersectingOutcome(font, codepoints, features).Done? ==>
      r == Ok(IntersectingOutcome(font, codepoints, features).value)
    ensures IntersectingOutcome(font, codepoints, features).Failed? ==>
      r == Err(IntersectingOutcome(font, codepoints, features).error)
  {
    ghost var iftOutcome := ScopeOutcome(font, font.ift, codepoints, features);
    ghost var iftxOutcome := ScopeOutcome(font, font.iftx, codepoints, features);
    var result: seq<PatchUri> := [];
    if font.ift.Some? {
      var added := AddIntersectingPatches(font, font.ift.value, codepoints, features, result);
      if added.Err? {
        return Err(added.error);
      }
      result := added.value;
    }
    assert iftOutcome.Done? && result == iftOutcome.value;
    if font.iftx.Some? {
      var added := AddIntersectingPatches(font, font.iftx.value, codepoints, features, result);
      if added.Err? {
        return Err(added.error);
      }
      result := added.value;
    }
    assert iftxOutcome.Done? && result == iftOutcome.value + iftxOutcome.value;
    return Ok(result);
  }

  // ---------------------------------------------------------------------------
  // Properties of the feature-map pass and of the output

  /** Every index the mapping loop of one record inserts lies above
      `maxGlyphMapEntryIndex` and at most `maxEntryIndex`; nothing is removed. */
  lemma {:induction false} RecordMappingsBounds(fm: FeatureMap, maxEntryIndex: u16, maxGlyphMapEntryIndex: u16,
                                                tot: nat, entryCount: u16, i: nat, acc: set<u16>)
    ensures var r := RecordMappings(fm, maxEntryIndex, maxGlyphMapEntryIndex, tot, entryCount, i, acc);
      r.Done? ==> acc <= r.value
                  && forall e :: e in r.value && e !in acc ==> maxGlyphMapEntryIndex < e <= maxEntryIndex
    decreases entryCount - i
  {
    if i < entryCount {
      var index := i + tot;
      var byteIndex := MappingOffset(index, maxEntryIndex);
      if index <= U16_MAX && byteIndex <= U16_MAX && byteIndex <= |fm.entryMapData| {
        var record := ReadEntryMapRecord(fm.entryMapData[byteIndex..], maxEntryIndex);
        if record.Ok? && record.value.firstEntryIndex + i <= U16_MAX {
          var mapped: u16 := record.value.firstEntryIndex + i;
          if record.value.firstEntryIndex > maxGlyphMapEntryIndex || mapped <= maxGlyphMapEntryIndex
             || mapped > maxEntryIndex {
            RecordMappingsBounds(fm, maxEntryIndex, maxGlyphMapEntryIndex, tot, entryCount, i + 1, acc);
          } else {
            RecordMappingsBounds(fm, maxEntryIndex, maxGlyphMapEntryIndex, tot, entryCount, i + 1, acc + {mapped});
          }
        }
      }
    }
  }

  /** The same bounds for the whole walk over the requested tags. */
  lemma {:induction false} FeatureWalkBounds(tags: seq<Tag>, fm: FeatureMap, maxEntryIndex: u16,
                                             maxGlyphMapEntryIndex: u16, ti: nat, ri: nat, cumulative: nat,
                                             largest: Option<Tag>, acc: set<u16>)
    ensures var r := FeatureWalk(tags, fm, maxEntryIndex, maxGlyphMapEntryIndex, ti, ri, cumulative, largest, acc);
      r.Done? ==> acc <= r.value
                  && forall e :: e in r.value && e !in acc ==> maxGlyphMapEntryIndex < e <= maxEntryIndex
    decreases |tags| - ti + (|fm.featureRecords| - ri), if ti < |tags| && largest == Some(tags[ti]) then 0 else 1
  {
    if ti < |tags| && ri < |fm.featureRecords| && fm.featureRecords[ri].Ok? {
      var record := fm.featureRecords[ri].value;
      var tag := tags[ti];
      if tag > record.featureTag {
        FeatureWalkBounds(tags, fm, maxEntryIndex, maxGlyphMapEntryIndex, ti, ri + 1, cumulative, largest, acc);
      } else if largest.Some? && tag <= largest.value {
        FeatureWalkBounds(tags, fm, maxEntryIndex, maxGlyphMapEntryIndex, ti + 1, ri, cumulative, largest, acc);
      } else if cumulative + record.entryMapCount <= U16_MAX {
        if tag < record.featureTag {
          FeatureWalkBounds(tags, fm, maxEntryIndex, maxGlyphMapEntryIndex, ti + 1, ri,
                            cumulative + record.entryMapCount, Some(tag), acc);
        } else {
          var mappings := RecordMappings(fm, maxEntryIndex, maxGlyphMapEntryIndex, cumulative,
                                         record.entryMapCount, 0, acc);
          RecordMappingsBounds(fm, maxEntryIndex, maxGlyphMapEntryIndex, cumulative, record.entryMapCount, 0, acc);
          if mappings.Done? {
            FeatureWalkBounds(tags, fm, maxEntryIndex, maxGlyphMapEntryIndex, ti, ri,
                              cumulative + record.entryMapCount, Some(tag), mappings.value);
          }
        }
      }
    }
  }

  /** Requesting only features the map has no record for adds no entry. */
  lemma {:induction false} FeatureWalkUnlistedAddsNothing(tags: seq<Tag>, fm: FeatureMap, maxEntryIndex: u16,
                                                          maxGlyphMapEntryIndex: u16, ti: nat, ri: nat,
                                                          cumulative: nat, largest: Option<Tag>, acc: set<u16>)
    requires forall k :: 0 <= k < |fm.featureRecords| && fm.featureRecords[k].Ok? ==>
      fm.featureRecords[k].value.featureTag !in tags
    ensures var r := FeatureWalk(tags, fm, maxEntryIndex, maxGlyphMapEntryIndex, ti, ri, cumulative, largest, acc);
      r.Done? ==> r.value == acc
    decreases |tags| - ti + (|fm.featureRecords| - ri), if ti < |tags| && largest == Some(tags[ti]) then 0 else 1
  {
    if ti < |tags| && ri < |fm.featureRecords| && fm.featureRecords[ri].Ok? {
      var record := fm.featureRecords[ri].value;
      var tag := tags[ti];
      if tag > record.featureTag {
        FeatureWalkUnlistedAddsNothing(tags, fm, maxEntryIndex, maxGlyphMapEntryIndex, ti, ri + 1, cumulative,
                                       largest, acc);
      } else if largest.Some? && tag <= largest.value {
        FeatureWalkUnlistedAddsNothing(tags, fm, maxEntryIndex, maxGlyphMapEntryIndex, ti + 1, ri, cumulative,
                                       largest, acc);
      } else if cumulative + record.entryMapCount <= U16_MAX {
        assert tag != record.featureTag by {
          assert tags[ti] in tags;
        }
        FeatureWalkUnlistedAddsNothing(tags, fm, maxEntryIndex, maxGlyphMapEntryIndex, ti + 1, ri,
                                       cumulative + record.entryMapCount, Some(tag), acc);
      }
    }
  }

  /** The feature-map pass only yields indices above the glyph map's range
      and at most the largest entry index. */
  lemma FeatureMapEntriesBounds(m: PatchMapFormat1, features: seq<Tag>)
    ensures FeatureMapOutcome(m, features).Done? ==>
      forall e :: e in FeatureMapOutcome(m, features).value ==>
        m.maxGlyphMapEntryIndex < e <= m.maxEntryIndex
  {
    if m.featureMap.Some? && m.featureMap.value.Ok? {
      FeatureWalkBounds(features, m.featureMap.value.value, m.maxEntryIndex, m.maxGlyphMapEntryIndex,
                        0, 0, 0, None, {});
    }
  }

  /** What one format 1 table contributes: the patches of the intersecting
      entries that are neither entry 0 nor applied, in ascending entry order,
      each carrying the table's template and encoding; every such entry is a
      valid index no larger than `maxEntryIndex`. */
  lemma Format1OutcomeSound(font: Font, m: PatchMapFormat1, codepoints: set<u32>, features: seq<Tag>)
    requires Format1Outcome(font, m, codepoints, features).Done?
    ensures m.uriTemplate.Some? && FromFormatNumber(m.patchEncoding).Some?
    ensures m.glyphMap.Ok? && FeatureMapOutcome(m, features).Done?
    ensures var entries := Format1Entries(font, m, codepoints, features);
      && (forall e :: e in entries ==> e <= m.maxEntryIndex)
      && Format1Outcome(font, m, codepoints, features).value ==
         EmittedPatches(entries, m.appliedEntries, m.uriTemplate.value, FromFormatNumber(m.patchEncoding).value)
  {
    GlyphMapEntriesBelowMax(font.charmap, m.glyphMap.value, m.maxGlyphMapEntryIndex, codepoints);
    FeatureMapEntriesBounds(m, features);
  }

  /** The walk offsets a record's slots by the counts of every record it
      reached before, but not of the records it skipped: with records T1 (2
      slots) and T2 (2 slots) and only T2 requested, T2's mappings are read
      from slots 0 and 1, which belong to T1. With one-byte fields, slots 0
      and 1 hold the range 1..1 and slots 2 and 3 the range 0..0; the walk
      inserts 1 + 1 = 2 from slot 1, where T2's own slots would have
      inserted nothing. */
  lemma SkippedRecordsNotCounted()
    ensures FeatureWalk([2], FeatureMap([Ok(FeatureRecord(1, 2)), Ok(FeatureRecord(2, 2))], [1, 1, 1, 1, 0, 0, 0, 0]),
                        10, 1, 0, 0, 0, None, {}) == Done({2})
    ensures RecordMappings(FeatureMap([Ok(FeatureRecord(1, 2)), Ok(FeatureRecord(2, 2))], [1, 1, 1, 1, 0, 0, 0, 0]),
                           10, 1, 2, 2, 0, {}) == Done({})
  {
    var fm := FeatureMap([Ok(FeatureRecord(1, 2)), Ok(FeatureRecord(2, 2))], [1, 1, 1, 1, 0, 0, 0, 0]);
    assert MappingOffset(1, 10) == 2;
    assert ReadEntryMapRecord(fm.entryMapData[0..], 10) == Ok(EntryMapRecord(1, 1));
    assert ReadEntryMapRecord(fm.entryMapData[2..], 10) == Ok(EntryMapRecord(1, 1));
    assert RecordMappings(fm, 10, 1, 0, 2, 2, {2}) == Done({2});
    assert RecordMappings(fm, 10, 1, 0, 2, 1, {}) == Done({2}) by {
      assert {} + {2 as u16} == {2};
    }
    assert RecordMappings(fm, 10, 1, 0, 2, 0, {}) == Done({2});
    assert FeatureWalk([2], fm, 10, 1, 0, 1, 2, Some(2), {2}) == Done({2});
    assert FeatureWalk([2], fm, 10, 1, 0, 1, 0, None, {}) == Done({2});
    assert MappingOffset(2, 10) == 4 && MappingOffset(3, 10) == 6;
    assert ReadEntryMapRecord(fm.entryMapData[4..], 10) == Ok(EntryMapRecord(0, 0));
    assert ReadEntryMapRecord(fm.entryMapData[6..], 10) == Ok(EntryMapRecord(0, 0));
    assert RecordMappings(fm, 10, 1, 2, 2, 1, {}) == Done({});
  }

  /** A record that a smaller requested tag reaches is counted, even when a
      later tag passes over it: with records T2 (2 slots) and T3 (2 slots)
      and tags 1 and 3 requested, tag 1 reaches T2 and counts its slots, so
      T3's mappings are read from slots 2 and 3 (ranges 0..0 and 1..1),
      giving entry 2. Read from slots 0 and 1 they would give nothing. */
  lemma ReachedThenSkippedCounted()
    ensures FeatureWalk([1, 3], FeatureMap([Ok(FeatureRecord(2, 2)), Ok(FeatureRecord(3, 2))], [0, 0, 0, 0, 0, 0, 1, 1]),
                        10, 1, 0, 0, 0, None, {}) == Done({2})
    ensures RecordMappings(FeatureMap([Ok(FeatureRecord(2, 2)), Ok(FeatureRecord(3, 2))], [0, 0, 0, 0, 0, 0, 1, 1]),
                           10, 1, 0, 2, 0, {}) == Done({})
  {
    var fm := FeatureMap([Ok(FeatureRecord(2, 2)), Ok(FeatureRecord(3, 2))], [0, 0, 0, 0, 0, 0, 1, 1]);
    assert MappingOffset(2, 10) == 4 && MappingOffset(3, 10) == 6;
    assert ReadEntryMapRecord(fm.entryMapData[4..], 10) == Ok(EntryMapRecord(0, 0));
    assert ReadEntryMapRecord(fm.entryMapData[6..], 10) == Ok(EntryMapRecord(1, 1));
    assert RecordMappings(fm, 10, 1, 2, 2, 2, {2}) == Done({2});
    assert RecordMappings(fm, 10, 1, 2, 2, 1, {}) == Done({2}) by {
      assert {} + {2 as u16} == {2};
    }
    assert RecordMappings(fm, 10, 1, 2, 2, 0, {}) == Done({2});
    assert FeatureWalk([1, 3], fm, 10, 1, 2, 1, 4, Some(3), {2}) == Done({2});
    assert FeatureWalk([1, 3], fm, 10, 1, 1, 1, 2, Some(1), {}) == Done({2});
    assert FeatureWalk([1, 3], fm, 10, 1, 1, 0, 2, Some(1), {}) == Done({2});
    assert MappingOffset(0, 10) == 0 && MappingOffset(1, 10) == 2;
    assert ReadEntryMapRecord(fm.entryMapData[0..], 10) == Ok(EntryMapRecord(0, 0));
    assert ReadEntryMapRecord(fm.entryMapData[2..], 10) == Ok(EntryMapRecord(0, 0));
    assert RecordMappings(fm, 10, 1, 0, 2, 1, {}) == Done({});
  }

  /** The upper bound of an entry map record is read from its first index, so
      a record whose last index exceeds `maxGlyphMapEntryIndex` is still used:
      slot 1 holds the range 1..9 with 9 above the glyph map's bound 1, and
      still yields entry 1 + 1 = 2. */
  lemma LastIndexNotChecked()
    ensures RecordMappings(FeatureMap([], [0, 0, 1, 9]), 10, 1, 0, 2, 0, {}) == Done({2})
  {
    var fm := FeatureMap([], [0, 0, 1, 9]);
    assert MappingOffset(1, 10) == 2;
    assert ReadEntryMapRecord(fm.entryMapData[0..], 10) == Ok(EntryMapRecord(0, 0));
    assert ReadEntryMapRecord(fm.entryMapData[2..], 10) == Ok(EntryMapRecord(1, 9));
    assert RecordMappings(fm, 10, 1, 0, 2, 2, {2}) == Done({2});
    assert RecordMappings(fm, 10, 1, 0, 2, 1, {}) == Done({2}) by {
      assert {} + {2 as u16} == {2};
    }
  }
}
