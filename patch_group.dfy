/** Selection of a compatible group of IFT patches from the candidates an
    intersection produced, and application of the next step of that group,
    as incremental-font-transfer's `patch_group` module does it.

    The candidates here carry what that crate's own `patchmap` attaches to a
    patch URI: its encoding (table-keyed, fully or partially invalidating, or
    glyph-keyed) and the table it came from together with that table's
    compatibility id. The two patch appliers are parameters. */
module PatchGroups {
  import opened Wrappers
  import opened FixedWidth
  import opened StringOrder
  import PatchMap

  datatype CompatibilityId = CompatibilityId(id0: u32, id1: u32, id2: u32, id3: u32)

  /** The table a patch was listed in, with the compatibility id it expects
      that table to have. */
  datatype IftTableTag = Ift(compatId: CompatibilityId) | Iftx(compatId: CompatibilityId)

  datatype PatchEncoding = TableKeyed(fullyInvalidating: bool) | GlyphKeyed

  datatype PatchUri = PatchUri(uri: string, encoding: PatchEncoding, sourceTable: IftTableTag)

  datatype PatchInfo = PatchInfo(uri: string, sourceTable: IftTableTag)

  /** The patches of one scope ("IFT " or "IFTX"): one partially invalidating
      patch, or any number of non-invalidating ones keyed by URI. */
  datatype ScopedGroup = PartialInvalidation(patch: PatchInfo) | NoInvalidation(patches: map<string, PatchInfo>)

  datatype CompatibleGroup = Full(patch: PatchInfo) | Mixed(ift: ScopedGroup, iftx: ScopedGroup)

  type FontBytes = seq<u8>

  datatype PatchGroup = PatchGroup(font: FontBytes, patches: Option<CompatibleGroup>)

  datatype UriStatus = Applied | Pending(data: seq<u8>)

  /** `ApplicationFailed` stands for every error an applier reports. */
  datatype PatchingError = MissingPatches | EmptyPatchList | ApplicationFailed(reason: string)

  type TableKeyedApplier = (FontBytes, PatchInfo, seq<u8>) -> Result<FontBytes, PatchingError>

  type GlyphKeyedApplier = (FontBytes, seq<(PatchInfo, seq<u8>)>) -> Result<FontBytes, PatchingError>

  function ExpectedCompatibilityId(p: PatchUri): CompatibilityId {
    p.sourceTable.compatId
  }

  /** `impl From<PatchUri> for PatchInfo`: keeps the URI and the source table
      and drops the encoding. */
  function Info(p: PatchUri): PatchInfo {
    PatchInfo(p.uri, p.sourceTable)
  }

  /** Two patch URIs give the same `PatchInfo` exactly when they differ at
      most in their encoding. */
  lemma InfoForgetsEncoding(p: PatchUri, q: PatchUri)
    ensures Info(p) == Info(q) <==> p.uri == q.uri && p.sourceTable == q.sourceTable
  {
  }

  // ---------------------------------------------------------------------------
  // The group's URIs

  /** `ScopedGroup::no_invalidation_iter`: the map's values in key order. */
  function NoInvalidationPatches(scope: ScopedGroup): (r: seq<PatchInfo>)
    ensures |r| == if scope.NoInvalidation? then |scope.patches| else 0
    ensures forall p :: p in r <==> scope.NoInvalidation? && p in scope.patches.Values
  {
    match scope
    case PartialInvalidation(_) => []
    case NoInvalidation(m) =>
      var keys := SortedKeys(m.Keys);
      var r := seq(|keys|, k requires 0 <= k < |keys| => m[keys[k]]);
      assert forall p :: p in m.Values ==> p in r by {
        forall p | p in m.Values
          ensures p in r
        {
          var u :| u in m && m[u] == p;
          var k :| 0 <= k < |keys| && keys[k] == u;
          assert r[k] == p;
        }
      }
      r
  }

  /** When every patch is filed under its own URI, `no_invalidation_iter`
      lists them in strictly ascending URI order, each key once. */
  lemma NoInvalidationPatchesOrder(scope: ScopedGroup)
    requires scope.NoInvalidation? && KeyedByUri(scope.patches)
    ensures UrisOf(NoInvalidationPatches(scope)) == SortedKeys(scope.patches.Keys)
    ensures StrictlyAscending(UrisOf(NoInvalidationPatches(scope)))
    ensures forall u :: u in UrisOf(NoInvalidationPatches(scope)) <==> u in scope.patches
  {
    var keys := SortedKeys(scope.patches.Keys);
    var r := NoInvalidationPatches(scope);
    assert forall k :: 0 <= k < |keys| ==> UrisOf(r)[k] == keys[k];
  }

  /** `ScopedGroup::has_uris`. */
  predicate ScopedHasUris(scope: ScopedGroup)
    ensures ScopedHasUris(scope) <==> scope.PartialInvalidation? || |NoInvalidationPatches(scope)| > 0
  {
    match scope
    case PartialInvalidation(_) => true
    case NoInvalidation(m) => m != map[]
  }

  /** `invalidating_patch_iter`: the full patch, else the IFT partial patch
      followed by the IFTX one. */
  function InvalidatingPatches(group: PatchGroup): (r: seq<PatchInfo>)
    ensures |r| <= 2
    ensures forall p :: p in r <==>
      group.patches == Some(Full(p))
      || (group.patches.Some? && group.patches.value.Mixed?
          && (group.patches.value.ift == PartialInvalidation(p) || group.patches.value.iftx == PartialInvalidation(p)))
  {
    match group.patches
    case None => []
    case Some(Full(p)) => [p]
    case Some(Mixed(ift, iftx)) =>
      (if ift.PartialInvalidation? then [ift.patch] else [])
      + (if iftx.PartialInvalidation? then [iftx.patch] else [])
  }

  /** `non_invalidating_patch_iter`: the IFT scope's non-invalidating
      patches, then the IFTX scope's. */
  function NonInvalidatingPatches(group: PatchGroup): (r: seq<PatchInfo>)
    ensures forall p :: p in r <==>
      group.patches.Some? && group.patches.value.Mixed?
      && ((group.patches.value.ift.NoInvalidation? && p in group.patches.value.ift.patches.Values)
          || (group.patches.value.iftx.NoInvalidation? && p in group.patches.value.iftx.patches.Values))
  {
    match group.patches
    case Some(Mixed(ift, iftx)) => NoInvalidationPatches(ift) + NoInvalidationPatches(iftx)
    case _ => []
  }

  /** The patch `apply_next_patches` applies when the group has an
      invalidating one: the full patch, else the IFT partial patch, else the
      IFTX partial patch. */
  function NextInvalidatingPatch(group: PatchGroup): (r: Option<PatchInfo>)
    ensures r.Some? <==> |InvalidatingPatches(group)| > 0
    ensures group.patches.Some? && group.patches.value.Full? ==> r == Some(group.patches.value.patch)
    ensures group.patches.Some? && group.patches.value.Mixed? && group.patches.value.ift.PartialInvalidation? ==>
      r == Some(group.patches.value.ift.patch)
    ensures (group.patches.Some? && group.patches.value.Mixed? && group.patches.value.ift.NoInvalidation?
             && group.patches.value.iftx.PartialInvalidation?) ==> r == Some(group.patches.value.iftx.patch)
  {
    var patches := InvalidatingPatches(group);
    if |patches| > 0 then Some(patches[0]) else None
  }

  function UrisOf(infos: seq<PatchInfo>): seq<string> {
    seq(|infos|, k requires 0 <= k < |infos| => infos[k].uri)
  }

  /** `PatchGroup::uris`: the invalidating patches' URIs, then the
      non-invalidating ones'. */
  function Uris(group: PatchGroup): (r: seq<string>)
    ensures group.patches.None? ==> r == []
    ensures group.patches.Some? && group.patches.value.Full? ==> r == [group.patches.value.patch.uri]
  {
    UrisOf(InvalidatingPatches(group) + NonInvalidatingPatches(group))
  }

  /** The URIs of a partially invalidating scope, or none. */
  function PartialUri(scope: ScopedGroup): seq<string> {
    if scope.PartialInvalidation? then [scope.patch.uri] else []
  }

  /** The keys of a non-invalidating scope in ascending order, or none. */
  function ScopeKeys(scope: ScopedGroup): seq<string> {
    if scope.NoInvalidation? then SortedKeys(scope.patches.Keys) else []
  }

  /** The order `uris` lists a mixed group in: IFT's partial URI, IFTX's
      partial URI, IFT's non-invalidating URIs ascending, IFTX's ascending. */
  lemma {:induction false} UrisOrder(group: PatchGroup)
    requires group.patches.Some? && group.patches.value.Mixed?
    requires group.patches.value.ift.NoInvalidation? ==> KeyedByUri(group.patches.value.ift.patches)
    requires group.patches.value.iftx.NoInvalidation? ==> KeyedByUri(group.patches.value.iftx.patches)
    ensures Uris(group) == (PartialUri(group.patches.value.ift) + PartialUri(group.patches.value.iftx))
                           + (ScopeKeys(group.patches.value.ift) + ScopeKeys(group.patches.value.iftx))
  {
    var ift, iftx := group.patches.value.ift, group.patches.value.iftx;
    var pi := if ift.PartialInvalidation? then [ift.patch] else [];
    var px := if iftx.PartialInvalidation? then [iftx.patch] else [];
    var a, b := NoInvalidationPatches(ift), NoInvalidationPatches(iftx);
    assert Uris(group) == UrisOf(pi + px) + UrisOf(a + b) by {
      assert InvalidatingPatches(group) == pi + px;
      assert NonInvalidatingPatches(group) == a + b;
      UrisOfAppend(pi + px, a + b);
    }
    assert UrisOf(pi + px) == PartialUri(ift) + PartialUri(iftx) by {
      UrisOfAppend(pi, px);
    }
    assert UrisOf(a + b) == ScopeKeys(ift) + ScopeKeys(iftx) by {
      UrisOfAppend(a, b);
      if ift.NoInvalidation? { NoInvalidationPatchesOrder(ift); }
      if iftx.NoInvalidation? { NoInvalidationPatchesOrder(iftx); }
    }
  }

  lemma UrisOfAppend(xs: seq<PatchInfo>, ys: seq<PatchInfo>)
    ensures UrisOf(xs + ys) == UrisOf(xs) + UrisOf(ys)
  {
  }

  /** `PatchGroup::has_uris`. */
  predicate HasUris(group: PatchGroup)
    ensures HasUris(group) <==> |InvalidatingPatches(group)| + |NonInvalidatingPatches(group)| > 0
  {
    match group.patches
    case None => false
    case Some(Full(_)) => true
    case Some(Mixed(ift, iftx)) => ScopedHasUris(ift) || ScopedHasUris(iftx)
  }

  lemma HasUrisIffUrisNonEmpty(group: PatchGroup)
    ensures HasUris(group) <==> |Uris(group)| > 0
  {
  }

  /** No URI occurs twice. */
  ghost predicate NoDuplicates(uris: seq<string>) {
    forall i, j :: 0 <= i < j < |uris| ==> uris[i] != uris[j]
  }

  /** Every non-invalidating patch is filed under its own URI. */
  ghost predicate KeyedByUri(m: map<string, PatchInfo>) {
    forall uri :: uri in m ==> m[uri].uri == uri
  }

  // ---------------------------------------------------------------------------
  // Selection

  datatype Scope = IftScope | IftxScope

  /** Where a partially invalidating or glyph-keyed candidate is filed: under
      IFT when it expects the IFT table's compatibility id, else under IFTX
      when it expects the IFTX table's, else nowhere. */
  function Route(p: PatchUri, iftCompatId: Option<CompatibilityId>, iftxCompatId: Option<CompatibilityId>)
    : Option<Scope>
  {
    if Some(ExpectedCompatibilityId(p)) == iftCompatId then Some(IftScope)
    else if Some(ExpectedCompatibilityId(p)) == iftxCompatId then Some(IftxScope)
    else None
  }

  /** The lists step 1 of the selection fills in input order: the fully
      invalidating candidates, and per scope the partially invalidating ones. */
  datatype ListKind = FullKind | PartialKind(scope: Scope)

  predicate IsFull(p: PatchUri) {
    p.encoding == TableKeyed(true)
  }

  predicate Listed(p: PatchUri, kind: ListKind, iftCompatId: Option<CompatibilityId>,
                   iftxCompatId: Option<CompatibilityId>)
  {
    match kind
    case FullKind => IsFull(p)
    case PartialKind(scope) => p.encoding == TableKeyed(false) && Route(p, iftCompatId, iftxCompatId) == Some(scope)
  }

  predicate IsGlyphKeyedIn(p: PatchUri, scope: Scope, iftCompatId: Option<CompatibilityId>,
                           iftxCompatId: Option<CompatibilityId>)
  {
    p.encoding == GlyphKeyed && Route(p, iftCompatId, iftxCompatId) == Some(scope)
  }

  /** The candidates of one list, in input order. */
  function ListedCandidates(cs: seq<PatchUri>, kind: ListKind, iftCompatId: Option<CompatibilityId>,
                            iftxCompatId: Option<CompatibilityId>): seq<PatchInfo>
    decreases |cs|
  {
    if cs == [] then []
    else
      ListedCandidates(cs[..|cs| - 1], kind, iftCompatId, iftxCompatId)
      + (if Listed(cs[|cs| - 1], kind, iftCompatId, iftxCompatId) then [Info(cs[|cs| - 1])] else [])
  }

  /** The glyph-keyed candidates filed under `scope`, keyed by URI; a later
      candidate replaces an earlier one with the same URI. */
  function NoInvalidationCandidates(cs: seq<PatchUri>, scope: Scope, iftCompatId: Option<CompatibilityId>,
                                    iftxCompatId: Option<CompatibilityId>): map<string, PatchInfo>
    decreases |cs|
  {
    if cs == [] then map[]
    else
      var m := NoInvalidationCandidates(cs[..|cs| - 1], scope, iftCompatId, iftxCompatId);
      var last := cs[|cs| - 1];
      if IsGlyphKeyedIn(last, scope, iftCompatId, iftxCompatId) then m[last.uri := Info(last)] else m
  }

  /** `Iterator::find` over the IFTX partial patches: the first whose URI is
      not the one the IFT scope selected. */
  function FirstWithOtherUri(patches: seq<PatchInfo>, selected: Option<string>): (r: Option<PatchInfo>)
    ensures r.Some? ==> exists k :: 0 <= k < |patches| && patches[k] == r.value
                         && (forall j :: 0 <= j < k ==> selected == Some(patches[j].uri))
    ensures r.Some? ==> selected != Some(r.value.uri)
    ensures r.None? <==> forall k :: 0 <= k < |patches| ==> selected == Some(patches[k].uri)
  {
    if patches == [] then None
    else if selected != Some(patches[0].uri) then Some(patches[0])
    else
      var r := FirstWithOtherUri(patches[1..], selected);
      if r.Some? then
        var k :| 0 <= k < |patches[1..]| && patches[1..][k] == r.value
                 && (forall j :: 0 <= j < k ==> selected == Some(patches[1..][j].uri));
        assert patches[k + 1] == r.value;
        r
      else r
  }

  function UriOf(p: Option<PatchInfo>): Option<string> {
    if p.Some? then Some(p.value.uri) else None
  }

  /** The candidates sorted by invalidation characteristics, as step 1 of
      the selection files them. */
  datatype Partition = Partition(
    full: seq<PatchInfo>,
    partialIft: seq<PatchInfo>,
    partialIftx: seq<PatchInfo>,
    noInvalidationIft: map<string, PatchInfo>,
    noInvalidationIftx: map<string, PatchInfo>)

  function PartitionOf(cs: seq<PatchUri>, iftCompatId: Option<CompatibilityId>,
                       iftxCompatId: Option<CompatibilityId>): Partition
  {
    Partition(ListedCandidates(cs, FullKind, iftCompatId, iftxCompatId),
              ListedCandidates(cs, PartialKind(IftScope), iftCompatId, iftxCompatId),
              ListedCandidates(cs, PartialKind(IftxScope), iftCompatId, iftxCompatId),
              NoInvalidationCandidates(cs, IftScope, iftCompatId, iftxCompatId),
              NoInvalidationCandidates(cs, IftxScope, iftCompatId, iftxCompatId))
  }

  /** Step 2 of the selection: the first fully invalidating patch alone if
      there is one; otherwise per scope the first partially invalidating
      patch (for IFTX the first whose URI differs from IFT's choice), or else
      the scope's non-invalidating patches, less the URIs chosen elsewhere. */
  function Choose(p: Partition): CompatibleGroup {
    if |p.full| > 0 then Full(p.full[0])
    else
      var iftSelected := if |p.partialIft| > 0 then Some(p.partialIft[0]) else None;
      var iftxSelected := FirstWithOtherUri(p.partialIftx, UriOf(iftSelected));
      match (iftSelected, iftxSelected)
      case (Some(a), Some(b)) => Mixed(PartialInvalidation(a), PartialInvalidation(b))
      case (Some(a), None) => Mixed(PartialInvalidation(a), NoInvalidation(p.noInvalidationIftx - {a.uri}))
      case (None, Some(b)) => Mixed(NoInvalidation(p.noInvalidationIft - {b.uri}), PartialInvalidation(b))
      case (None, None) =>
        Mixed(NoInvalidation(p.noInvalidationIft), NoInvalidation(p.noInvalidationIftx - p.noInvalidationIft.Keys))
  }

  /** The group `select_next_patches_from_candidates` forms. */
  function Select(cs: seq<PatchUri>, iftCompatId: Option<CompatibilityId>, iftxCompatId: Option<CompatibilityId>)
    : CompatibleGroup
  {
    Choose(PartitionOf(cs, iftCompatId, iftxCompatId))
  }

  /** Step 1 of `select_next_patches_from_candidates`. */
  method PartitionCandidates(candidates: seq<PatchUri>, iftCompatId: Option<CompatibilityId>,
                             iftxCompatId: Option<CompatibilityId>)
    returns (p: Partition)
    ensures p == PartitionOf(candidates, iftCompatId, iftxCompatId)
  {
    var fullInvalidation: seq<PatchInfo> := [];
    var partialInvalidationIft: seq<PatchInfo> := [];
    var partialInvalidationIftx: seq<PatchInfo> := [];
    var noInvalidationIft: map<string, PatchInfo> := map[];
    var noInvalidationIftx: map<string, PatchInfo> := map[];

    for i := 0 to |candidates|
      invariant fullInvalidation == ListedCandidates(candidates[..i], FullKind, iftCompatId, iftxCompatId)
      invariant partialInvalidationIft == ListedCandidates(candidates[..i], PartialKind(IftScope), iftCompatId, iftxCompatId)
      invariant partialInvalidationIftx == ListedCandidates(candidates[..i], PartialKind(IftxScope), iftCompatId, iftxCompatId)
      invariant noInvalidationIft == NoInvalidationCandidates(candidates[..i], IftScope, iftCompatId, iftxCompatId)
      invariant noInvalidationIftx == NoInvalidationCandidates(candidates[..i], IftxScope, iftCompatId, iftxCompatId)
    {
      var uri := candidates[i];
      assert candidates[..i + 1][..i] == candidates[..i];
      match uri.encoding
      case TableKeyed(true) =>
        fullInvalidation := fullInvalidation + [Info(uri)];
      case TableKeyed(false) =>
        if Some(ExpectedCompatibilityId(uri)) == iftCompatId {
          partialInvalidationIft := partialInvalidationIft + [Info(uri)];
        } else if Some(ExpectedCompatibilityId(uri)) == iftxCompatId {
          partialInvalidationIftx := partialInvalidationIftx + [Info(uri)];
        }
      case GlyphKeyed =>
        if Some(ExpectedCompatibilityId(uri)) == iftCompatId {
          noInvalidationIft := noInvalidationIft[uri.uri := Info(uri)];
        } else if Some(ExpectedCompatibilityId(uri)) == iftxCompatId {
          noInvalidationIftx := noInvalidationIftx[uri.uri := Info(uri)];
        }
    }
    assert candidates[..|candidates|] == candidates;
    p := Partition(fullInvalidation, partialInvalidationIft, partialInvalidationIftx,
                   noInvalidationIft, noInvalidationIftx);
  }

  /** Removes from `m` every key of `drop`, visiting those keys in order. */
  method RemoveKeys(m: map<string, PatchInfo>, drop: set<string>) returns (r: map<string, PatchInfo>)
    ensures r == m - drop
  {
    r := m;
    var keys := SortedKeys(drop);
    for j := 0 to |keys|
      invariant forall uri :: uri in r <==> uri in m && uri !in keys[..j]
      invariant forall uri :: uri in r ==> r[uri] == m[uri]
    {
      assert forall uri :: uri in keys[..j + 1] <==> uri in keys[..j] || uri == keys[j];
      r := r - {keys[j]};
    }
    assert keys[..|keys|] == keys;
  }

  /** `select_next_patches_from_candidates`. It never fails, so the model
      returns the group itself rather than `Ok` of it. */
  method SelectNextPatchesFromCandidates(candidates: seq<PatchUri>, iftCompatId: Option<CompatibilityId>,
                                         iftxCompatId: Option<CompatibilityId>)
    returns (group: CompatibleGroup)
    ensures group == Select(candidates, iftCompatId, iftxCompatId)
  {
    var p := PartitionCandidates(candidates, iftCompatId, iftxCompatId);
    var noInvalidationIft := p.noInvalidationIft;
    var noInvalidationIftx := p.noInvalidationIftx;

    if |p.full| > 0 {
      return Full(p.full[0]);
    }

    var iftSelectedUri: Option<string> := None;
    var iftScope: Option<ScopedGroup> := None;
    if |p.partialIft| > 0 {
      iftSelectedUri := Some(p.partialIft[0].uri);
      iftScope := Some(PartialInvalidation(p.partialIft[0]));
    }

    var iftxSelectedUri: Option<string> := None;
    var iftxScope: Option<ScopedGroup> := None;
    var found := FirstWithOtherUri(p.partialIftx, iftSelectedUri);
    if found.Some? {
      iftxSelectedUri := Some(found.value.uri);
      iftxScope := Some(PartialInvalidation(found.value));
    }

    if iftSelectedUri.Some? && iftxSelectedUri.None? {
      noInvalidationIftx := noInvalidationIftx - {iftSelectedUri.value};
    }
    if iftSelectedUri.None? && iftxSelectedUri.Some? {
      noInvalidationIft := noInvalidationIft - {iftxSelectedUri.value};
    }

    match (iftScope, iftxScope)
    case (Some(scope1), Some(scope2)) =>
      group := Mixed(scope1, scope2);
    case (Some(scope1), None) =>
      group := Mixed(scope1, NoInvalidation(noInvalidationIftx));
    case (None, Some(scope2)) =>
      group := Mixed(NoInvalidation(noInvalidationIft), scope2);
    case (None, None) =>
      // The two scopes may not share a URI: drop from IFTX every URI IFT holds.
      noInvalidationIftx := RemoveKeys(noInvalidationIftx, noInvalidationIft.Keys);
      group := Mixed(NoInvalidation(noInvalidationIft), NoInvalidation(noInvalidationIftx));
  }

  /** `PatchGroup::select_next_patches`, given the outcome of intersecting the
      font and the compatibility ids of its two tables. */
  method SelectNextPatches(font: FontBytes, candidates: Result<seq<PatchUri>, PatchMap.ReadError>,
                           iftCompatId: Option<CompatibilityId>, iftxCompatId: Option<CompatibilityId>)
    returns (r: Result<PatchGroup, PatchMap.ReadError>)
    ensures candidates.Err? ==> r == Err(candidates.error)
    ensures candidates.Ok? ==> r.Ok? && r.value.font == font
    ensures candidates == Ok([]) ==> r == Ok(PatchGroup(font, None)) && !HasUris(r.value)
    ensures candidates.Ok? && candidates.value != [] ==>
      r == Ok(PatchGroup(font, Some(Select(candidates.value, iftCompatId, iftxCompatId))))
  {
    if candidates.Err? {
      return Err(candidates.error);
    }
    if candidates.value == [] {
      return Ok(PatchGroup(font, None));
    }
    var compatGroup := SelectNextPatchesFromCandidates(candidates.value, iftCompatId, iftxCompatId);
    return Ok(PatchGroup(font, Some(compatGroup)));
  }

  // ---------------------------------------------------------------------------
  // Properties of the selection

  lemma {:induction false} ListedCandidatesMembers(cs: seq<PatchUri>, kind: ListKind,
                                                   iftCompatId: Option<CompatibilityId>,
                                                   iftxCompatId: Option<CompatibilityId>)
    ensures forall p :: p in ListedCandidates(cs, kind, iftCompatId, iftxCompatId) <==>
      exists k :: 0 <= k < |cs| && Listed(cs[k], kind, iftCompatId, iftxCompatId) && Info(cs[k]) == p
    decreases |cs|
  {
    if cs != [] {
      var front := cs[..|cs| - 1];
      ListedCandidatesMembers(front, kind, iftCompatId, iftxCompatId);
      forall p ensures p in ListedCandidates(cs, kind, iftCompatId, iftxCompatId) <==>
        exists k :: 0 <= k < |cs| && Listed(cs[k], kind, iftCompatId, iftxCompatId) && Info(cs[k]) == p
      {
        if p in ListedCandidates(front, kind, iftCompatId, iftxCompatId) {
          var k :| 0 <= k < |front| && Listed(front[k], kind, iftCompatId, iftxCompatId) && Info(front[k]) == p;
          assert cs[k] == front[k];
        }
        if exists k :: 0 <= k < |cs| && Listed(cs[k], kind, iftCompatId, iftxCompatId) && Info(cs[k]) == p {
          var k :| 0 <= k < |cs| && Listed(cs[k], kind, iftCompatId, iftxCompatId) && Info(cs[k]) == p;
          if k < |front| {
            assert front[k] == cs[k];
          }
        }
      }
    }
  }

  /** A list is empty exactly when no candidate belongs to it. */
  lemma ListedCandidatesEmpty(cs: seq<PatchUri>, kind: ListKind, iftCompatId: Option<CompatibilityId>,
                              iftxCompatId: Option<CompatibilityId>)
    ensures ListedCandidates(cs, kind, iftCompatId, iftxCompatId) == [] <==>
      forall k :: 0 <= k < |cs| ==> !Listed(cs[k], kind, iftCompatId, iftxCompatId)
  {
  }

  /** A list starts with its earliest candidate. */
  lemma {:induction false} ListedCandidatesFirst(cs: seq<PatchUri>, kind: ListKind,
                                                 iftCompatId: Option<CompatibilityId>,
                                                 iftxCompatId: Option<CompatibilityId>, k: nat)
    requires k < |cs| && Listed(cs[k], kind, iftCompatId, iftxCompatId)
    requires forall j :: 0 <= j < k ==> !Listed(cs[j], kind, iftCompatId, iftxCompatId)
    ensures |ListedCandidates(cs, kind, iftCompatId, iftxCompatId)| > 0
    ensures ListedCandidates(cs, kind, iftCompatId, iftxCompatId)[0] == Info(cs[k])
    decreases |cs|
  {
    var front := cs[..|cs| - 1];
    if k == |cs| - 1 {
      ListedCandidatesEmpty(front, kind, iftCompatId, iftxCompatId);
    } else {
      ListedCandidatesFirst(front, kind, iftCompatId, iftxCompatId, k);
    }
  }

  /** The non-invalidating candidates of a scope: keyed by their URIs, each
      one a routed glyph-keyed candidate, and every such candidate's URI
      present. */
  lemma NoInvalidationCandidatesMembers(cs: seq<PatchUri>, scope: Scope,
                                        iftCompatId: Option<CompatibilityId>,
                                        iftxCompatId: Option<CompatibilityId>)
    ensures KeyedByUri(NoInvalidationCandidates(cs, scope, iftCompatId, iftxCompatId))
    ensures forall uri :: uri in NoInvalidationCandidates(cs, scope, iftCompatId, iftxCompatId) ==>
      exists k :: 0 <= k < |cs| && IsGlyphKeyedIn(cs[k], scope, iftCompatId, iftxCompatId)
                  && Info(cs[k]) == NoInvalidationCandidates(cs, scope, iftCompatId, iftxCompatId)[uri]
    ensures forall k :: 0 <= k < |cs| && IsGlyphKeyedIn(cs[k], scope, iftCompatId, iftxCompatId) ==>
      cs[k].uri in NoInvalidationCandidates(cs, scope, iftCompatId, iftxCompatId)
  {
    NoInvalidationCandidatesKeyed(cs, scope, iftCompatId, iftxCompatId);
    NoInvalidationCandidatesDrawn(cs, scope, iftCompatId, iftxCompatId);
    NoInvalidationCandidatesComplete(cs, scope, iftCompatId, iftxCompatId);
  }

  lemma {:induction false} NoInvalidationCandidatesKeyed(cs: seq<PatchUri>, scope: Scope,
                                                         iftCompatId: Option<CompatibilityId>,
                                                         iftxCompatId: Option<CompatibilityId>)
    ensures KeyedByUri(NoInvalidationCandidates(cs, scope, iftCompatId, iftxCompatId))
    decreases |cs|
  {
    if cs != [] {
      NoInvalidationCandidatesKeyed(cs[..|cs| - 1], scope, iftCompatId, iftxCompatId);
    }
  }

  lemma {:induction false} NoInvalidationCandidatesDrawn(cs: seq<PatchUri>, scope: Scope,
                                                         iftCompatId: Option<CompatibilityId>,
                                                         iftxCompatId: Option<CompatibilityId>)
    ensures forall uri :: uri in NoInvalidationCandidates(cs, scope, iftCompatId, iftxCompatId) ==>
      exists k :: 0 <= k < |cs| && IsGlyphKeyedIn(cs[k], scope, iftCompatId, iftxCompatId)
                  && Info(cs[k]) == NoInvalidationCandidates(cs, scope, iftCompatId, iftxCompatId)[uri]
    decreases |cs|
  {
    if cs != [] {
      var front := cs[..|cs| - 1];
      var last := cs[|cs| - 1];
      var m := NoInvalidationCandidates(cs, scope, iftCompatId, iftxCompatId);
      var m0 := NoInvalidationCandidates(front, scope, iftCompatId, iftxCompatId);
      NoInvalidationCandidatesDrawn(front, scope, iftCompatId, iftxCompatId);
      forall uri | uri in m
        ensures exists k :: 0 <= k < |cs| && IsGlyphKeyedIn(cs[k], scope, iftCompatId, iftxCompatId)
                            && Info(cs[k]) == m[uri]
      {
        if uri == last.uri && IsGlyphKeyedIn(last, scope, iftCompatId, iftxCompatId) {
          assert Info(cs[|cs| - 1]) == m[uri];
        } else {
          assert uri in m0 && m[uri] == m0[uri];
          var k :| 0 <= k < |front| && IsGlyphKeyedIn(front[k], scope, iftCompatId, iftxCompatId)
                   && Info(front[k]) == m0[uri];
          assert cs[k] == front[k];
        }
      }
    }
  }

  lemma {:induction false} NoInvalidationCandidatesComplete(cs: seq<PatchUri>, scope: Scope,
                                                            iftCompatId: Option<CompatibilityId>,
                                                            iftxCompatId: Option<CompatibilityId>)
    ensures forall k :: 0 <= k < |cs| && IsGlyphKeyedIn(cs[k], scope, iftCompatId, iftxCompatId) ==>
      cs[k].uri in NoInvalidationCandidates(cs, scope, iftCompatId, iftxCompatId)
    decreases |cs|
  {
    if cs != [] {
      var front := cs[..|cs| - 1];
      NoInvalidationCandidatesComplete(front, scope, iftCompatId, iftxCompatId);
      forall k | 0 <= k < |cs| && IsGlyphKeyedIn(cs[k], scope, iftCompatId, iftxCompatId)
        ensures cs[k].uri in NoInvalidationCandidates(cs, scope, iftCompatId, iftxCompatId)
      {
        if k < |front| {
          assert front[k] == cs[k];
        }
      }
    }
  }

  /** Among candidates with the same URI in one scope, the last one is kept. */
  lemma {:induction false} NoInvalidationCandidatesLastWins(cs: seq<PatchUri>, scope: Scope,
                                                            iftCompatId: Option<CompatibilityId>,
                                                            iftxCompatId: Option<CompatibilityId>, k: nat)
    requires k < |cs| && IsGlyphKeyedIn(cs[k], scope, iftCompatId, iftxCompatId)
    requires forall j :: k < j < |cs| && IsGlyphKeyedIn(cs[j], scope, iftCompatId, iftxCompatId) ==>
      cs[j].uri != cs[k].uri
    ensures cs[k].uri in NoInvalidationCandidates(cs, scope, iftCompatId, iftxCompatId)
    ensures NoInvalidationCandidates(cs, scope, iftCompatId, iftxCompatId)[cs[k].uri] == Info(cs[k])
    decreases |cs|
  {
    if k < |cs| - 1 {
      var front := cs[..|cs| - 1];
      assert front[k] == cs[k];
      NoInvalidationCandidatesLastWins(front, scope, iftCompatId, iftxCompatId, k);
    }
  }

  /** The first fully invalidating candidate forms the group on its own. */
  lemma SelectFullFirst(cs: seq<PatchUri>, iftCompatId: Option<CompatibilityId>,
                        iftxCompatId: Option<CompatibilityId>, k: nat)
    requires k < |cs| && IsFull(cs[k])
    requires forall j :: 0 <= j < k ==> !IsFull(cs[j])
    ensures Select(cs, iftCompatId, iftxCompatId) == Full(Info(cs[k]))
  {
    ListedCandidatesFirst(cs, FullKind, iftCompatId, iftxCompatId, k);
  }

  /** The group is mixed exactly when no candidate is fully invalidating. */
  lemma SelectMixedIffNoFull(cs: seq<PatchUri>, iftCompatId: Option<CompatibilityId>,
                             iftxCompatId: Option<CompatibilityId>)
    ensures Select(cs, iftCompatId, iftxCompatId).Mixed? <==> forall k :: 0 <= k < |cs| ==> !IsFull(cs[k])
  {
    ListedCandidatesEmpty(cs, FullKind, iftCompatId, iftxCompatId);
  }

  /** Without a fully invalidating candidate, the IFT scope is the first
      partially invalidating candidate that expects the IFT table's id. */
  lemma SelectIftPartialFirst(cs: seq<PatchUri>, iftCompatId: Option<CompatibilityId>,
                              iftxCompatId: Option<CompatibilityId>, k: nat)
    requires forall j :: 0 <= j < |cs| ==> !IsFull(cs[j])
    requires k < |cs| && Listed(cs[k], PartialKind(IftScope), iftCompatId, iftxCompatId)
    requires forall j :: 0 <= j < k ==> !Listed(cs[j], PartialKind(IftScope), iftCompatId, iftxCompatId)
    ensures Select(cs, iftCompatId, iftxCompatId).Mixed?
    ensures Select(cs, iftCompatId, iftxCompatId).ift == PartialInvalidation(Info(cs[k]))
  {
    ListedCandidatesEmpty(cs, FullKind, iftCompatId, iftxCompatId);
    ListedCandidatesFirst(cs, PartialKind(IftScope), iftCompatId, iftxCompatId, k);
  }

  /** `find` over a concatenation looks in the second part only when the
      first has no match. */
  lemma {:induction false} FirstWithOtherUriAppend(xs: seq<PatchInfo>, ys: seq<PatchInfo>, selected: Option<string>)
    ensures FirstWithOtherUri(xs + ys, selected) ==
      if FirstWithOtherUri(xs, selected).Some? then FirstWithOtherUri(xs, selected) else FirstWithOtherUri(ys, selected)
    decreases |xs|
  {
    if xs == [] {
      assert xs + ys == ys;
    } else {
      assert (xs + ys)[1..] == xs[1..] + ys;
      FirstWithOtherUriAppend(xs[1..], ys, selected);
    }
  }

  /** The first listed candidate whose URI is not `selected` is the one
      `find` returns over the list. */
  lemma {:induction false} FirstWithOtherUriListed(cs: seq<PatchUri>, kind: ListKind,
                                                   iftCompatId: Option<CompatibilityId>,
                                                   iftxCompatId: Option<CompatibilityId>,
                                                   selected: Option<string>, k: nat)
    requires k < |cs| && Listed(cs[k], kind, iftCompatId, iftxCompatId) && Some(cs[k].uri) != selected
    requires forall j :: 0 <= j < k && Listed(cs[j], kind, iftCompatId, iftxCompatId) ==> Some(cs[j].uri) == selected
    ensures FirstWithOtherUri(ListedCandidates(cs, kind, iftCompatId, iftxCompatId), selected) == Some(Info(cs[k]))
    decreases |cs|
  {
    var front := cs[..|cs| - 1];
    var last := cs[|cs| - 1];
    var tail := if Listed(last, kind, iftCompatId, iftxCompatId) then [Info(last)] else [];
    var listed := ListedCandidates(front, kind, iftCompatId, iftxCompatId);
    FirstWithOtherUriAppend(listed, tail, selected);
    if k == |cs| - 1 {
      ListedCandidatesMembers(front, kind, iftCompatId, iftxCompatId);
      forall i | 0 <= i < |listed|
        ensures selected == Some(listed[i].uri)
      {
        assert listed[i] in listed;
        var j :| 0 <= j < |front| && Listed(front[j], kind, iftCompatId, iftxCompatId) && Info(front[j]) == listed[i];
        assert cs[j] == front[j];
      }
    } else {
      assert forall j :: 0 <= j < k ==> front[j] == cs[j];
      FirstWithOtherUriListed(front, kind, iftCompatId, iftxCompatId, selected, k);
    }
  }

  /** Without a fully invalidating candidate, the IFTX scope is the first
      partially invalidating candidate that expects the IFTX table's id and
      whose URI is not the one the IFT scope chose (`selected`, the URI of
      the first IFT partial candidate, or none). */
  lemma SelectIftxPartialFirst(cs: seq<PatchUri>, iftCompatId: Option<CompatibilityId>,
                               iftxCompatId: Option<CompatibilityId>, selected: Option<string>, k: nat)
    requires forall j :: 0 <= j < |cs| ==> !IsFull(cs[j])
    requires selected.None? ==> forall j :: 0 <= j < |cs| ==> !Listed(cs[j], PartialKind(IftScope), iftCompatId, iftxCompatId)
    requires selected.Some? ==>
      exists i :: 0 <= i < |cs| && Listed(cs[i], PartialKind(IftScope), iftCompatId, iftxCompatId)
                  && cs[i].uri == selected.value
                  && forall j :: 0 <= j < i ==> !Listed(cs[j], PartialKind(IftScope), iftCompatId, iftxCompatId)
    requires k < |cs| && Listed(cs[k], PartialKind(IftxScope), iftCompatId, iftxCompatId) && Some(cs[k].uri) != selected
    requires forall j :: 0 <= j < k && Listed(cs[j], PartialKind(IftxScope), iftCompatId, iftxCompatId) ==>
      Some(cs[j].uri) == selected
    ensures Select(cs, iftCompatId, iftxCompatId).Mixed?
    ensures Select(cs, iftCompatId, iftxCompatId).iftx == PartialInvalidation(Info(cs[k]))
  {
    var p := PartitionOf(cs, iftCompatId, iftxCompatId);
    ListedCandidatesEmpty(cs, FullKind, iftCompatId, iftxCompatId);
    if selected.None? {
      ListedCandidatesEmpty(cs, PartialKind(IftScope), iftCompatId, iftxCompatId);
    } else {
      var i :| 0 <= i < |cs| && Listed(cs[i], PartialKind(IftScope), iftCompatId, iftxCompatId)
               && cs[i].uri == selected.value
               && forall j :: 0 <= j < i ==> !Listed(cs[j], PartialKind(IftScope), iftCompatId, iftxCompatId);
      ListedCandidatesFirst(cs, PartialKind(IftScope), iftCompatId, iftxCompatId, i);
    }
    assert UriOf(if |p.partialIft| > 0 then Some(p.partialIft[0]) else None) == selected;
    FirstWithOtherUriListed(cs, PartialKind(IftxScope), iftCompatId, iftxCompatId, selected, k);
  }

  /** Conversely to `SelectRouted`, a glyph-keyed candidate routed to a scope
      that ended up non-invalidating is kept there, unless its URI went
      elsewhere: to the other scope's partial patch or, for IFTX, to the IFT
      scope's non-invalidating patches. */
  lemma SelectKeepsRouted(cs: seq<PatchUri>, iftCompatId: Option<CompatibilityId>,
                          iftxCompatId: Option<CompatibilityId>, k: nat)
    requires k < |cs|
    ensures var g := Select(cs, iftCompatId, iftxCompatId);
      g.Mixed? && g.ift.NoInvalidation? && IsGlyphKeyedIn(cs[k], IftScope, iftCompatId, iftxCompatId)
      && !(g.iftx.PartialInvalidation? && g.iftx.patch.uri == cs[k].uri)
      ==> cs[k].uri in g.ift.patches
    ensures var g := Select(cs, iftCompatId, iftxCompatId);
      g.Mixed? && g.iftx.NoInvalidation? && IsGlyphKeyedIn(cs[k], IftxScope, iftCompatId, iftxCompatId)
      && !(g.ift.PartialInvalidation? && g.ift.patch.uri == cs[k].uri)
      && !(g.ift.NoInvalidation? && cs[k].uri in g.ift.patches)
      ==> cs[k].uri in g.iftx.patches
  {
    NoInvalidationCandidatesMembers(cs, IftScope, iftCompatId, iftxCompatId);
    NoInvalidationCandidatesMembers(cs, IftxScope, iftCompatId, iftxCompatId);
  }

  /** Each scope of the group holds only candidates routed to that scope:
      a candidate whose expected id matches neither table is never selected. */
  ghost predicate DrawnFrom(g: ScopedGroup, cs: seq<PatchUri>, scope: Scope,
                            iftCompatId: Option<CompatibilityId>, iftxCompatId: Option<CompatibilityId>)
  {
    match g
    case PartialInvalidation(p) =>
      exists k :: 0 <= k < |cs| && Listed(cs[k], PartialKind(scope), iftCompatId, iftxCompatId) && Info(cs[k]) == p
    case NoInvalidation(m) =>
      forall uri :: uri in m ==>
        exists k :: 0 <= k < |cs| && IsGlyphKeyedIn(cs[k], scope, iftCompatId, iftxCompatId) && Info(cs[k]) == m[uri]
  }

  lemma SelectRouted(cs: seq<PatchUri>, iftCompatId: Option<CompatibilityId>, iftxCompatId: Option<CompatibilityId>)
    ensures var g := Select(cs, iftCompatId, iftxCompatId);
      g.Mixed? ==> DrawnFrom(g.ift, cs, IftScope, iftCompatId, iftxCompatId)
                   && DrawnFrom(g.iftx, cs, IftxScope, iftCompatId, iftxCompatId)
  {
    var p := PartitionOf(cs, iftCompatId, iftxCompatId);
    ListedCandidatesMembers(cs, PartialKind(IftScope), iftCompatId, iftxCompatId);
    ListedCandidatesMembers(cs, PartialKind(IftxScope), iftCompatId, iftxCompatId);
    NoInvalidationCandidatesMembers(cs, IftScope, iftCompatId, iftxCompatId);
    NoInvalidationCandidatesMembers(cs, IftxScope, iftCompatId, iftxCompatId);
    if |p.partialIft| > 0 {
      assert p.partialIft[0] in p.partialIft;
    }
    var found := FirstWithOtherUri(p.partialIftx, if |p.partialIft| > 0 then Some(p.partialIft[0].uri) else None);
    if found.Some? {
      var k :| 0 <= k < |p.partialIftx| && p.partialIftx[k] == found.value;
      assert found.value in p.partialIftx;
    }
  }

  /** No two patches share a URI. */
  ghost predicate DistinctUris(infos: seq<PatchInfo>) {
    forall i, j :: 0 <= i < j < |infos| ==> infos[i].uri != infos[j].uri
  }

  lemma DistinctUrisAppend(a: seq<PatchInfo>, b: seq<PatchInfo>)
    requires DistinctUris(a) && DistinctUris(b)
    requires forall i, j :: 0 <= i < |a| && 0 <= j < |b| ==> a[i].uri != b[j].uri
    ensures DistinctUris(a + b)
  {
  }

  /** A scope's non-invalidating patches, listed in key order, carry
      distinct URIs, each a key of the scope's map. */
  lemma NoInvalidationDistinct(m: map<string, PatchInfo>)
    requires KeyedByUri(m)
    ensures DistinctUris(NoInvalidationPatches(NoInvalidation(m)))
    ensures forall k :: 0 <= k < |NoInvalidationPatches(NoInvalidation(m))| ==>
      NoInvalidationPatches(NoInvalidation(m))[k].uri in m
  {
  }

  /** A mixed group lists no URI twice when its scopes share none. */
  lemma MixedDistinctUris(font: FontBytes, ift: ScopedGroup, iftx: ScopedGroup)
    requires ift.NoInvalidation? ==> KeyedByUri(ift.patches)
    requires iftx.NoInvalidation? ==> KeyedByUri(iftx.patches)
    requires ift.PartialInvalidation? && iftx.PartialInvalidation? ==> ift.patch.uri != iftx.patch.uri
    requires ift.PartialInvalidation? && iftx.NoInvalidation? ==> ift.patch.uri !in iftx.patches
    requires ift.NoInvalidation? && iftx.PartialInvalidation? ==> iftx.patch.uri !in ift.patches
    requires ift.NoInvalidation? && iftx.NoInvalidation? ==> ift.patches.Keys !! iftx.patches.Keys
    ensures var g := PatchGroup(font, Some(Mixed(ift, iftx)));
      DistinctUris(InvalidatingPatches(g) + NonInvalidatingPatches(g))
  {
    var g := PatchGroup(font, Some(Mixed(ift, iftx)));
    var a, b := NoInvalidationPatches(ift), NoInvalidationPatches(iftx);
    if ift.PartialInvalidation? && iftx.PartialInvalidation? {
      assert InvalidatingPatches(g) + NonInvalidatingPatches(g) == [ift.patch, iftx.patch];
    } else if ift.PartialInvalidation? {
      assert InvalidatingPatches(g) == [ift.patch];
      assert NonInvalidatingPatches(g) == b;
      NoInvalidationDistinct(iftx.patches);
      DistinctUrisAppend([ift.patch], b);
    } else if iftx.PartialInvalidation? {
      assert InvalidatingPatches(g) == [iftx.patch];
      assert NonInvalidatingPatches(g) == a;
      NoInvalidationDistinct(ift.patches);
      DistinctUrisAppend([iftx.patch], a);
    } else {
      assert InvalidatingPatches(g) == [];
      assert NonInvalidatingPatches(g) == a + b;
      NoInvalidationDistinct(ift.patches);
      NoInvalidationDistinct(iftx.patches);
      DistinctUrisAppend(a, b);
    }
  }

  /** The URIs of the group of a partition whose maps are keyed by URI. */
  lemma ChooseDistinctUris(font: FontBytes, p: Partition)
    requires KeyedByUri(p.noInvalidationIft) && KeyedByUri(p.noInvalidationIftx)
    ensures var g := PatchGroup(font, Some(Choose(p)));
      DistinctUris(InvalidatingPatches(g) + NonInvalidatingPatches(g))
  {
    var c := Choose(p);
    if |p.full| == 0 {
      MixedDistinctUris(font, c.ift, c.iftx);
    } else {
      assert InvalidatingPatches(PatchGroup(font, Some(c))) + NonInvalidatingPatches(PatchGroup(font, Some(c))) == [p.full[0]];
    }
  }

  /** No URI occurs twice in a selected group. */
  lemma SelectNoDuplicateUris(font: FontBytes, cs: seq<PatchUri>, iftCompatId: Option<CompatibilityId>,
                              iftxCompatId: Option<CompatibilityId>)
    ensures NoDuplicates(Uris(PatchGroup(font, Some(Select(cs, iftCompatId, iftxCompatId)))))
  {
    NoInvalidationCandidatesMembers(cs, IftScope, iftCompatId, iftxCompatId);
    NoInvalidationCandidatesMembers(cs, IftxScope, iftCompatId, iftxCompatId);
    ChooseDistinctUris(font, PartitionOf(cs, iftCompatId, iftxCompatId));
  }

  // ---------------------------------------------------------------------------
  // Application

  /** The non-invalidating patches whose status is `Pending`, in order, each
      with its data: what the glyph-keyed applier is given. */
  function PendingPatches(infos: seq<PatchInfo>, patchData: map<string, UriStatus>): (r: seq<(PatchInfo, seq<u8>)>)
    requires forall k :: 0 <= k < |infos| ==> infos[k].uri in patchData
    ensures forall e :: e in r ==> e.0 in infos && patchData[e.0.uri] == Pending(e.1)
    ensures forall k :: 0 <= k < |infos| && patchData[infos[k].uri].Pending? ==>
      (infos[k], patchData[infos[k].uri].data) in r
    decreases |infos|
  {
    if infos == [] then []
    else
      var last := infos[|infos| - 1];
      var front := infos[..|infos| - 1];
      var rest := PendingPatches(front, patchData);
      assert forall e :: e in front ==> e in infos;
      rest + (if patchData[last.uri].Pending? then [(last, patchData[last.uri].data)] else [])
  }

  /** The pending patches are handed over in the order of `infos` (the
      group's `uris` order), each one at most once per entry. */
  lemma {:induction false} PendingPatchesInOrder(infos: seq<PatchInfo>, patchData: map<string, UriStatus>)
    requires forall k :: 0 <= k < |infos| ==> infos[k].uri in patchData
    ensures |PendingPatches(infos, patchData)| <= |infos|
    ensures forall i, j :: 0 <= i < j < |PendingPatches(infos, patchData)| ==>
      exists a, b :: 0 <= a < b < |infos| && infos[a] == PendingPatches(infos, patchData)[i].0
                     && infos[b] == PendingPatches(infos, patchData)[j].0
    decreases |infos|
  {
    if infos != [] {
      var front := infos[..|infos| - 1];
      var rest := PendingPatches(front, patchData);
      var r := PendingPatches(infos, patchData);
      PendingPatchesInOrder(front, patchData);
      forall i, j | 0 <= i < j < |r|
        ensures exists a, b :: 0 <= a < b < |infos| && infos[a] == r[i].0 && infos[b] == r[j].0
      {
        assert r[i] == rest[i];
        if j < |rest| {
          assert r[j] == rest[j];
          var a, b :| 0 <= a < b < |front| && front[a] == rest[i].0 && front[b] == rest[j].0;
          assert infos[a] == front[a] && infos[b] == front[b];
        } else {
          assert rest[i] in rest;
          var a :| 0 <= a < |front| && front[a] == rest[i].0;
          assert infos[a] == front[a];
          assert infos[|infos| - 1] == r[j].0;
        }
      }
    }
  }

  ghost function UriSet(infos: seq<PatchInfo>): set<string> {
    set k | 0 <= k < |infos| :: infos[k].uri
  }

  /** The status map after a successful batch: every listed URI the map
      holds is `Applied`, every other entry as it was. */
  ghost function MarkApplied(patchData: map<string, UriStatus>, infos: seq<PatchInfo>): map<string, UriStatus> {
    map uri | uri in patchData :: if uri in UriSet(infos) then Applied else patchData[uri]
  }

  /** After a batch has been applied none of its patches is pending, so
      applying the same group again reports an empty patch list. */
  lemma MarkAppliedClearsPending(infos: seq<PatchInfo>, patchData: map<string, UriStatus>)
    requires forall k :: 0 <= k < |infos| ==> infos[k].uri in patchData
    ensures MarkApplied(patchData, infos).Keys == patchData.Keys
    ensures forall k :: 0 <= k < |infos| ==> MarkApplied(patchData, infos)[infos[k].uri] == Applied
    ensures PendingPatches(infos, MarkApplied(patchData, infos)) == []
  {
    var marked := MarkApplied(patchData, infos);
    forall k | 0 <= k < |infos| ensures marked[infos[k].uri] == Applied {
      assert infos[k].uri in UriSet(infos);
    }
    NothingPending(infos, marked);
  }

  lemma {:induction false} NothingPending(infos: seq<PatchInfo>, patchData: map<string, UriStatus>)
    requires forall k :: 0 <= k < |infos| ==> infos[k].uri in patchData && patchData[infos[k].uri] == Applied
    ensures PendingPatches(infos, patchData) == []
    decreases |infos|
  {
    if infos != [] {
      NothingPending(infos[..|infos| - 1], patchData);
    }
  }

  /** `apply_next_patches`. `patchData` is the caller's status map, passed in
      and handed back updated. */
  method ApplyNextPatches(group: PatchGroup, patchData: map<string, UriStatus>,
                          applyTableKeyed: TableKeyedApplier, applyGlyphKeyed: GlyphKeyedApplier)
    returns (r: Result<FontBytes, PatchingError>, newPatchData: map<string, UriStatus>)
    ensures newPatchData.Keys == patchData.Keys
    ensures r.Err? ==> newPatchData == patchData
    // One invalidating step.
    ensures NextInvalidatingPatch(group).Some? && NextInvalidatingPatch(group).value.uri !in patchData ==>
      r == Err(MissingPatches)
    ensures NextInvalidatingPatch(group).Some? && NextInvalidatingPatch(group).value.uri in patchData
            && patchData[NextInvalidatingPatch(group).value.uri].Pending? ==>
      var patch := NextInvalidatingPatch(group).value;
      && r == applyTableKeyed(group.font, patch, patchData[patch.uri].data)
      && (r.Ok? ==> newPatchData == patchData[patch.uri := Applied])
    // Otherwise one batch of non-invalidating patches.
    ensures NextInvalidatingPatch(group).None?
            || (NextInvalidatingPatch(group).value.uri in patchData
                && patchData[NextInvalidatingPatch(group).value.uri] == Applied)
      ==>
      var infos := NonInvalidatingPatches(group);
      && ((exists k :: 0 <= k < |infos| && infos[k].uri !in patchData) ==> r == Err(MissingPatches))
      && ((forall k :: 0 <= k < |infos| ==> infos[k].uri in patchData) ==>
            && (PendingPatches(infos, patchData) == [] ==> r == Err(EmptyPatchList))
            && (PendingPatches(infos, patchData) != [] ==>
                  && r == applyGlyphKeyed(group.font, PendingPatches(infos, patchData))
                  && (r.Ok? ==> newPatchData == MarkApplied(patchData, infos))))
    ensures !HasUris(group) ==> r == Err(EmptyPatchList)
  {
    newPatchData := patchData;
    var next := NextInvalidatingPatch(group);
    if next.Some? {
      var patch := next.value;
      if patch.uri !in patchData {
        return Err(MissingPatches), patchData;
      }
      match patchData[patch.uri]
      case Pending(data) =>
        var applied := applyTableKeyed(group.font, patch, data);
        if applied.Err? {
          return applied, patchData;
        }
        return applied, patchData[patch.uri := Applied];
      case Applied =>
    }

    var infos := NonInvalidatingPatches(group);
    var missing, accumulated := AccumulatePending(infos, patchData);
    if missing {
      return Err(MissingPatches), patchData;
    }
    if accumulated == [] {
      if !HasUris(group) {
        HasUrisIffUrisNonEmpty(group);
      }
      return Err(EmptyPatchList), patchData;
    }
    if !HasUris(group) {
      HasUrisIffUrisNonEmpty(group);
      assert false;
    }

    var newFont := applyGlyphKeyed(group.font, accumulated);
    if newFont.Err? {
      return newFont, patchData;
    }
    newPatchData := MarkAllApplied(patchData, infos);
    return newFont, newPatchData;
  }

  /** The first pass over the non-invalidating patches: `missing` when one
      has no entry in the status map, else the pending ones with their data. */
  method AccumulatePending(infos: seq<PatchInfo>, patchData: map<string, UriStatus>)
    returns (missing: bool, accumulated: seq<(PatchInfo, seq<u8>)>)
    ensures missing <==> exists k :: 0 <= k < |infos| && infos[k].uri !in patchData
    ensures !missing ==> accumulated == PendingPatches(infos, patchData)
  {
    accumulated := [];
    for i := 0 to |infos|
      invariant forall k :: 0 <= k < i ==> infos[k].uri in patchData
      invariant accumulated == PendingPatches(infos[..i], patchData)
    {
      var info := infos[i];
      if info.uri !in patchData {
        return true, accumulated;
      }
      assert infos[..i + 1][..i] == infos[..i];
      match patchData[info.uri]
      case Pending(data) =>
        accumulated := accumulated + [(info, data)];
      case Applied =>
    }
    assert infos[..|infos|] == infos;
    missing := false;
  }

  /** The second pass: every listed URI the status map holds becomes `Applied`. */
  method MarkAllApplied(patchData: map<string, UriStatus>, infos: seq<PatchInfo>)
    returns (newPatchData: map<string, UriStatus>)
    ensures newPatchData == MarkApplied(patchData, infos)
  {
    newPatchData := patchData;
    for i := 0 to |infos|
      invariant newPatchData == MarkApplied(patchData, infos[..i])
    {
      assert UriSet(infos[..i + 1]) == UriSet(infos[..i]) + {infos[i].uri};
      if infos[i].uri in newPatchData {
        newPatchData := newPatchData[infos[i].uri := Applied];
      }
    }
    assert infos[..|infos|] == infos;
  }
}
