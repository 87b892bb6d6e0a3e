# Incremental Font Transfer client core, in Dafny

This project models the two steps an Incremental Font Transfer (IFT) client
takes to extend a font subset:

1. **Intersection** (skrifa's `patchmap` module). A subset definition is a set
   of codepoints plus a set of OpenType feature tags. It is intersected with
   the format 1 patch maps of the font's "IFT " and "IFTX" tables, giving the
   patch URIs to fetch. Module `PatchMap`:
   - top-level field validation;
   - the glyph-map pass;
   - the feature-map walk, including the byte offsets of its entry-map records
     and the panics of its `u16` arithmetic;
   - the ascending, filtered output.
2. **Grouping and application** (incremental-font-transfer's `patch_group`
   module). Module `PatchGroups`:
   - the candidates are sorted into fully invalidating, partially
     invalidating and non-invalidating patches per scope;
   - a compatible group is selected with no URI listed twice;
   - the group's URIs are listed;
   - one step of the group is applied against the caller's status map of URIs
     (`Applied` or `Pending` with data).

Supporting modules:
- `Wrappers`: `Option` and `Result`.
- `FixedWidth`: the `u8`, `u16` and `u32` ranges.
- `StringOrder`: the lexicographic order in which a `BTreeMap<String, _>`
  iterates. `SortedKeys` gives a key set in that order and proves it strictly
  ascending.

State the source changes in place becomes methods that take the old value and
return the new one. This covers the `IntSet` of entries, the `Vec` of patches
and the `HashMap` of URI statuses. Each method is proved against a
specification function: `Format1Outcome`, `FeatureWalk` and `RecordMappings`,
`Select`, `PendingPatches` and `MarkApplied`. The lemmas state what those
functions promise.

Kept as the code is written:
- `last` of an entry-map record is read from its first field.
- The feature walk adds a record's entry count to the running offset whenever
  a requested tag reaches that record, even when the tag sorts before the
  record's tag. A record that no requested tag reaches before the walk
  passes it is never counted; a record reached by a smaller tag is counted
  even if a later tag passes over it.
- `from_index` ignores the entry index and returns the template verbatim.
- Only the first invalidating patch of a group is consulted, so the IFTX
  partial patch of a two-partial group is never applied by
  `apply_next_patches`.
- Arithmetic that overflows `u16` panics, as in a debug build. So does a
  feature-map slice past the end of the entry-map data, and so does a
  format 2 table (`todo!()`). The model states each of these as the
  precondition that the outcome is not `Panicked`.

## Model

| member | source | states |
|---|---|---|
| PatchMap.FromFormatNumber | skrifa/src/patchmap.rs:231-244 | Recognises exactly the format numbers 1 to 4. The encoding it returns maps back to the same number. |
| PatchMap.FormatNumberRoundTrip | skrifa/src/patchmap.rs:231-244 | Every encoding is recovered from its format number. |
| PatchMap.FromIndex | skrifa/src/patchmap.rs:254-260 | The URI is the template verbatim and carries the given encoding. |
| PatchMap.FromIndexIgnoresIndex | skrifa/src/patchmap.rs:254-260 | Two entry indices give the same patch URI. |
| PatchMap.CheckTopLevelFields | skrifa/src/patchmap.rs:60-88 | Succeeds iff the glyph count matches `maxp` (when `maxp` is present), `maxGlyphMapEntryIndex <= maxEntryIndex`, the template is readable and the encoding is known. It returns the template and encoding. Every failure is `MalformedData`, with the glyph-count and entry-index messages on their checks. |
| PatchMap.GlyphMapEntriesBelowMax | skrifa/src/patchmap.rs:134-140 | The glyph-map pass inserts no entry above `maxGlyphMapEntryIndex` (by the definition of its filter). |
| PatchMap.IntersectGlyphMap | skrifa/src/patchmap.rs:108-145 | A glyph-map read error is returned. Any codepoint whose glyph lies past the entry array gives `OutOfBounds`. Otherwise the new set is the old set plus the entry of every mapped codepoint within the glyph-map range (0 for glyphs below the first mapped glyph). |
| PatchMap.InsertRecordMappings | skrifa/src/patchmap.rs:198-217 | The mapping loop of one record inserts exactly the mappings `RecordMappings` accepts, or fails with its read error. |
| PatchMap.IntersectFeatureMap | skrifa/src/patchmap.rs:147-221 | With no feature map nothing is added. A read error of the map or of a record is returned. Otherwise the new set is the old set plus the entries of the walk over the sorted tags and records. |
| PatchMap.RecordMappingsBounds | skrifa/src/patchmap.rs:198-217 | One record's mappings keep what was there and only add indices above `maxGlyphMapEntryIndex` and at most `maxEntryIndex`. |
| PatchMap.FeatureWalkBounds | skrifa/src/patchmap.rs:164-218 | The whole walk keeps what was there and only adds indices in that range. |
| PatchMap.FeatureWalkUnlistedAddsNothing | skrifa/src/patchmap.rs:174-195 | Requesting only tags for which the map has no record adds no entry. |
| PatchMap.FeatureMapEntriesBounds | skrifa/src/patchmap.rs:147-221 | Every entry of the feature-map pass lies strictly above `maxGlyphMapEntryIndex` and at most `maxEntryIndex`. |
| PatchMap.SkippedRecordsNotCounted | skrifa/src/patchmap.rs:174-200 | Concrete case: a requested record's mappings are read from a skipped record's slots, yielding entry 2. The same mappings read from its own slots yield nothing. |
| PatchMap.ReachedThenSkippedCounted | skrifa/src/patchmap.rs:174-200 | Concrete case: a record reached by a smaller tag is counted although the next tag passes over it, so the following record's mappings are read from later slots, yielding entry 2. Read from its first slots they would yield nothing. |
| PatchMap.LastIndexNotChecked | skrifa/src/patchmap.rs:201-213 | Concrete case: a record whose last index exceeds the glyph-map range is still used. |
| PatchMap.EmittedIndices | skrifa/src/patchmap.rs:94-103 | Step 3 emits exactly the entries that are non-zero and not applied, in strictly ascending order. |
| PatchMap.EmittedPatches | skrifa/src/patchmap.rs:94-103 | One patch per emitted entry, each with the table's template and encoding. |
| PatchMap.AddIntersectingFormat1Patches | skrifa/src/patchmap.rs:53-106 | Validation, glyph-map and feature-map errors are returned with the vector unchanged. Otherwise the vector is extended by the patches `Format1Outcome` gives. |
| PatchMap.Format1OutcomeSound | skrifa/src/patchmap.rs:53-106 | A successful table has a template and a known encoding. Every entry it intersects is at most `maxEntryIndex`. Its output is the ascending emission of those entries. |
| PatchMap.AddIntersectingPatches | skrifa/src/patchmap.rs:38-51 | A format 1 table extends the vector as `Format1Outcome` says. |
| PatchMap.IntersectingPatches | skrifa/src/patchmap.rs:20-36 | The IFT table's patches come first, then the IFTX table's. An absent table contributes nothing, and the first error is returned. |
| PatchGroups.InfoForgetsEncoding | incremental-font-transfer/src/patch_group.rs:319-326 | `Info` keeps a patch URI's URI and source table and drops its encoding: two patch URIs give the same info iff they agree on both. |
| PatchGroups.NoInvalidationPatches | incremental-font-transfer/src/patch_group.rs:364-371 | A partial scope has no non-invalidating patches. A non-invalidating scope lists one patch per map entry, and exactly the map's values. |
| PatchGroups.NoInvalidationPatchesOrder | incremental-font-transfer/src/patch_group.rs:364-371 | For a map keyed by URI, the listed URIs are the keys in strictly ascending order (the `BTreeMap` order), each key exactly once. |
| PatchGroups.ScopedHasUris | incremental-font-transfer/src/patch_group.rs:357-362 | A scope has URIs iff it is partially invalidating or lists some non-invalidating patch. |
| PatchGroups.InvalidatingPatches | incremental-font-transfer/src/patch_group.rs:74-97 | At most two patches. A patch is listed iff it is the full patch or one scope's partial patch. |
| PatchGroups.NonInvalidatingPatches | incremental-font-transfer/src/patch_group.rs:99-117 | A patch is listed iff the group is mixed and the patch is a value of a non-invalidating scope's map. |
| PatchGroups.NextInvalidatingPatch | incremental-font-transfer/src/patch_group.rs:70-97 | There is a next invalidating patch iff the group has one. It is the full patch, else IFT's partial patch, else IFTX's. |
| PatchGroups.Uris | incremental-font-transfer/src/patch_group.rs:53-57 | A group without patches has no URIs. A full group has exactly the full patch's URI. |
| PatchGroups.UrisOrder | incremental-font-transfer/src/patch_group.rs:53-57 | A mixed group lists IFT's partial URI, then IFTX's, then IFT's non-invalidating URIs ascending, then IFTX's ascending. |
| PatchGroups.HasUris | incremental-font-transfer/src/patch_group.rs:60-68 | `has_uris` holds iff the group lists some invalidating or non-invalidating patch. |
| PatchGroups.HasUrisIffUrisNonEmpty | incremental-font-transfer/src/patch_group.rs:52-68 | `has_uris` holds iff `uris` is non-empty. |
| PatchGroups.NoInvalidationDistinct | incremental-font-transfer/src/patch_group.rs:364-371 | A scope keyed by URI lists distinct URIs, each one of its keys. |
| PatchGroups.FirstWithOtherUri | incremental-font-transfer/src/patch_group.rs:193-206 | Finds the earliest IFTX partial patch whose URI differs from IFT's choice, and none iff every one shares it. |
| PatchGroups.PartitionCandidates | incremental-font-transfer/src/patch_group.rs:141-175 | Step 1 files each candidate as `PartitionOf` says. |
| PatchGroups.RemoveKeys | incremental-font-transfer/src/patch_group.rs:229-233 | Removing IFT's keys from IFTX leaves IFTX minus those keys. |
| PatchGroups.SelectNextPatchesFromCandidates | incremental-font-transfer/src/patch_group.rs:119-240 | The group formed is `Select` of the candidates and the two compatibility ids. |
| PatchGroups.SelectNextPatches | incremental-font-transfer/src/patch_group.rs:28-50 | An intersection error is returned. No candidates give a group with no patches and no URIs. Otherwise the group is `Select` of the candidates. |
| PatchGroups.ListedCandidatesMembers | incremental-font-transfer/src/patch_group.rs:149-164 | A list holds exactly the candidates of its kind: fully invalidating, or partially invalidating and routed to its scope. |
| PatchGroups.ListedCandidatesEmpty | incremental-font-transfer/src/patch_group.rs:149-164 | A list is empty iff no candidate is of its kind. |
| PatchGroups.ListedCandidatesFirst | incremental-font-transfer/src/patch_group.rs:149-164 | A list starts with the earliest candidate of its kind. |
| PatchGroups.NoInvalidationCandidatesMembers | incremental-font-transfer/src/patch_group.rs:165-173 | A scope's non-invalidating map is keyed by URI. It holds only glyph-keyed candidates routed to that scope, and the URI of every such candidate. |
| PatchGroups.NoInvalidationCandidatesLastWins | incremental-font-transfer/src/patch_group.rs:165-173 | Of candidates sharing a URI in one scope, the last one is kept. |
| PatchGroups.SelectFullFirst | incremental-font-transfer/src/patch_group.rs:177-181 | The first fully invalidating candidate forms the group alone. |
| PatchGroups.SelectMixedIffNoFull | incremental-font-transfer/src/patch_group.rs:177-181 | The group is mixed iff no candidate is fully invalidating. |
| PatchGroups.SelectIftPartialFirst | incremental-font-transfer/src/patch_group.rs:183-191 | Without a full patch, the IFT scope is the first partial candidate expecting the IFT table's id. |
| PatchGroups.FirstWithOtherUriListed | incremental-font-transfer/src/patch_group.rs:193-206 | Over a list of candidates, the search returns the earliest listed candidate whose URI is not IFT's choice. |
| PatchGroups.SelectIftxPartialFirst | incremental-font-transfer/src/patch_group.rs:193-206 | Without a full patch, the IFTX scope is the first partial candidate expecting the IFTX table's id whose URI differs from that of IFT's first partial candidate (or any URI when IFT has none). |
| PatchGroups.SelectRouted | incremental-font-transfer/src/patch_group.rs:149-175 | Each scope of a mixed group holds only candidates of that scope's compatibility id. A candidate matching neither id is dropped. |
| PatchGroups.SelectKeepsRouted | incremental-font-transfer/src/patch_group.rs:165-239 | Conversely, a glyph-keyed candidate routed to a scope that ends up non-invalidating is in that scope's map. The exceptions: its URI is the other scope's partial patch or, for IFTX, one of IFT's keys. |
| PatchGroups.MixedDistinctUris | incremental-font-transfer/src/patch_group.rs:208-239 | A mixed group whose scopes share no URI lists no URI twice. |
| PatchGroups.SelectNoDuplicateUris | incremental-font-transfer/src/patch_group.rs:134-139 | No URI occurs twice among a selected group's URIs. |
| PatchGroups.PendingPatches | incremental-font-transfer/src/patch_group.rs:266-278 | The batch holds exactly the pending non-invalidating patches with their data. Applied ones are excluded. |
| PatchGroups.PendingPatchesInOrder | incremental-font-transfer/src/patch_group.rs:266-284 | The batch is no longer than the list of non-invalidating patches and keeps its order: any two batch entries come from list positions in the same order. |
| PatchGroups.AccumulatePending | incremental-font-transfer/src/patch_group.rs:266-281 | Reports a missing URI iff one has no status. Otherwise it collects `PendingPatches`. |
| PatchGroups.MarkAllApplied | incremental-font-transfer/src/patch_group.rs:287-291 | Every listed URI present in the map becomes `Applied`; other entries are kept. |
| PatchGroups.MarkAppliedClearsPending | incremental-font-transfer/src/patch_group.rs:287-291 | After a batch, its URIs are `Applied`, the map keeps its keys, and nothing of the batch is pending. |
| PatchGroups.ApplyNextPatches | incremental-font-transfer/src/patch_group.rs:245-294 | See the breakdown after this table. |

`PatchGroups.ApplyNextPatches` states the following:
- It never adds or removes a status entry.
- On an error the status map is unchanged.
- If the first invalidating patch is missing from the map, the result is `MissingPatches`.
- If that patch is pending, it goes to the table-keyed applier, and on success only its URI becomes `Applied`.
- Otherwise, if any non-invalidating URI is missing, the result is `MissingPatches`.
- If none is pending, the result is `EmptyPatchList`.
- Otherwise the glyph-keyed applier receives exactly the pending patches in order, and on success they are all marked `Applied`.
- A group without URIs gives `EmptyPatchList`.

## Left out

- Parsing of the IFT, IFTX, `maxp` and `cmap` tables is not modelled. The font is given as the decoded fields the algorithm reads: the glyph count, a character map, the glyph map, feature records and entry-map bytes. A glyph map or feature map that fails to parse is an `Err` in those fields.
- `Charmap::map` is a finite map from codepoint to glyph id.
- The patch appliers (`apply_table_keyed_patch`, `apply_glyph_keyed_patches`) are function parameters. Their own errors are whatever they return.
- The intersection in `select_next_patches` is its `Result` parameter, and the two compatibility ids are parameters too. incremental-font-transfer's own `patchmap` module is not part of this model. Its patch URI carries a source table and compatibility id, which the model takes as given.
- PatchMap.IntersectGlyphMap: the source visits codepoints in ascending order, and the model takes them in any order. The inserted set is the same; only which `OutOfBounds` codepoint is hit first would differ, and the error value is the same either way.
- PatchMap.IntersectFeatureMap: it requires the tags to be strictly ascending, which the source's `BTreeSet<Tag>` guarantees. It also requires the walk not to panic, because `u16` overflow and slicing past the entry-map data panic in the source. Release-build wrap-around is not modelled.
- PatchMap.AddIntersectingFormat1Patches, PatchMap.AddIntersectingPatches and PatchMap.IntersectingPatches: they require the walk not to panic. A format 2 table panics (`todo!()`), so these methods are only specified for format 1 tables.
- PatchGroups.SelectNextPatchesFromCandidates: the source always returns `Ok`, so the model returns the group itself.
- The URI template is not expanded, as in the source's `from_index`.
