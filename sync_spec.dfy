/**
 * What the two sync drivers of `ModManager` compute, as functions of the
 * configuration and the directory listings: `process_mods_from_json`, which
 * syncs into the target in place, and `smart_update_mods`, which collects new
 * and re-versioned mods in a `mods_update` bundle inside the target.
 */
module SyncSpec {
  import opened Common
  import opened Text
  import opened NameNormalizer
  import opened Manifest
  import opened FsModel
  import opened MetadataReader
  import opened UpdateDecision
  import opened ModLocator

  // ----- configuration -----

  /** One element of `game.mods`; `modId` is `None` when the key is absent or null. */
  datatype ModEntry = ModEntry(modId: Option<string>)
  datatype GameSection = GameSection(mods: Option<seq<ModEntry>>)
  /** The configuration text: not JSON at all, or an object with or without `game`. */
  datatype ConfigDoc = NotJson | ConfigObject(game: Option<GameSection>)

  datatype SyncError =
    | ConfigNotJson        // ValueError "解析JSON内容时出错"
    | ConfigMalformed      // ValueError "JSON文件格式不正确"
    | UpdateFolderIsFile   // `shutil.rmtree` raises on a plain file named `mods_update`

  /** The mod ids in configuration order, `mod.get('modId', '')` giving "" for a missing id. */
  function ConfigModIds(doc: ConfigDoc): (r: Result<seq<string>, SyncError>)
    ensures r == Failure(ConfigNotJson) <==> doc.NotJson?
    ensures r == Failure(ConfigMalformed) <==> doc.ConfigObject? && (doc.game.None? || doc.game.value.mods.None?)
    ensures r.Success? ==> |r.value| == |doc.game.value.mods.value|
    ensures r.Success? ==> forall i :: 0 <= i < |r.value| ==>
      (r.value[i] == "" <==> doc.game.value.mods.value[i].modId in {None, Some("")})
    ensures r.Success? ==> forall i :: 0 <= i < |r.value| ==> r.value[i] == doc.game.value.mods.value[i].modId.GetOr("")
  {
    match doc
    case NotJson => Failure(ConfigNotJson)
    case ConfigObject(game) =>
      if game.None? || game.value.mods.None? then Failure(ConfigMalformed)
      else
        var mods := game.value.mods.value;
        Success(seq(|mods|, i requires 0 <= i < |mods| => mods[i].modId.GetOr("")))
  }

  // ----- one mod -----

  datatype Outcome =
    | NoModId       // empty id: `continue` before any lookup
    | NotInSource   // no source directory contains the id
    | Added         // copied, target did not exist before (`new_mods`)
    | Updated       // copied over an existing target (`updated_mods`)
    | Skipped       // decided not to copy (`skipped_mods`)
    | CopyFailed    // `copy_mod_folder` returned False: no counter moves

  predicate Copied(o: Outcome) {
    o == Added || o == Updated
  }

  /** Failures of operating-system calls, by position in the configured mod list. */
  datatype Faults = Faults(renameFails: set<nat>, copyFails: set<nat>, saveFails: bool)

  /** The configured mod has a directory in the source listing. */
  predicate Found(source: Listing, modId: string) {
    modId != "" && FirstModDir(source, modId) < |source|
  }

  function SourceName(source: Listing, modId: string): string
    requires Found(source, modId)
  {
    source[FirstModDir(source, modId)].name
  }

  function SourceFolder(source: Listing, modId: string): Folder
    requires Found(source, modId)
  {
    source[FirstModDir(source, modId)].node.folder
  }

  /** `generate_mod_folder_name(basename(source), parsed.version)`. */
  function StandardName(source: Listing, modId: string): string
    requires Found(source, modId)
  {
    GenerateModFolderName(SourceName(source, modId), ParseModInfo(SourceFolder(source, modId), modId).version)
  }

  // --- process_mods_from_json: lines 277-313 ---

  /** A folder containing the id exists under another name and the standardised name is free. */
  predicate LegacyRenameWanted(target: Listing, modId: string, std: string) {
    var existing := FindExistingModPath(target, modId);
    existing.Some? && existing.value != std && !Exists(target, std)
  }

  /** The target listing and the legacy path (`existing_path`) after the optional rename. */
  datatype Renamed = Renamed(target: Listing, legacy: Option<string>)

  function LegacyRename(target: Listing, modId: string, std: string, fails: bool): (r: Renamed)
    ensures r.target != target ==> LegacyRenameWanted(target, modId, std) && !fails
    ensures LegacyRenameWanted(target, modId, std) && !fails ==>
      Lookup(r.target, std) == Lookup(target, FindExistingModPath(target, modId).value) && r.legacy == Some(std)
    ensures !(LegacyRenameWanted(target, modId, std) && !fails) ==> r.legacy == FindExistingModPath(target, modId)
    ensures LegacyRenameWanted(target, modId, std) && !fails && DistinctNames(target) ==>
      && !Exists(r.target, FindExistingModPath(target, modId).value)
      && forall n :: n != std && n != FindExistingModPath(target, modId).value ==> Lookup(r.target, n) == Lookup(target, n)
    ensures r.legacy.Some? ==> Exists(r.target, r.legacy.value)
    ensures DistinctNames(target) ==> DistinctNames(r.target)
  {
    var existing := FindExistingModPath(target, modId);
    if LegacyRenameWanted(target, modId, std) && !fails then
      Renamed(RenameEntry(target, existing.value, std), Some(std))
    else
      Renamed(target, existing)
  }

  /** `mod_target_path`: the standardised folder if it exists, else the legacy folder, else the standardised name. */
  function EffectiveTarget(r: Renamed, std: string): (p: string)
    requires r.legacy.Some? ==> Exists(r.target, r.legacy.value)
    ensures p == std || Some(p) == r.legacy
    ensures Exists(r.target, std) ==> p == std
    ensures Exists(r.target, p) <==> Exists(r.target, std) || r.legacy.Some?
  {
    if Exists(r.target, std) then std else r.legacy.GetOr(std)
  }

  datatype FoundStep = FoundStep(listing: Listing, outcome: Outcome)

  /**
   * Lines 277-313 for a mod found in the source as `src`: rename a legacy
   * folder, check against the effective target, merge-copy into the
   * standardised folder and classify by whether the target existed before.
   */
  function InPlaceFound(target: Listing, modId: string, std: string, src: Folder, renameFails: bool, copyFails: bool): (r: FoundStep)
    ensures r.outcome in {Added, Updated, Skipped, CopyFailed}
    ensures DistinctNames(target) ==> DistinctNames(r.listing)
  {
    var t1 := LegacyRename(target, modId, std, renameFails);
    var eff := EffectiveTarget(t1, std);
    var existedBefore := Exists(t1.target, eff);
    var d := CheckModNeedsUpdate(src, Lookup(t1.target, eff));
    if !d.needsUpdate then FoundStep(t1.target, Skipped)
    else if copyFails then FoundStep(t1.target, CopyFailed)
    else
      match CopyTree(t1.target, std, src)
      case None => FoundStep(t1.target, CopyFailed)
      case Some(t2) => FoundStep(t2, if existedBefore then Updated else Added)
  }

  /**
   * How the outcome follows the decision: skipped exactly when the check on
   * the effective target says no update is needed, updated or new by whether
   * that target existed before the copy, and the listing changes only by the
   * rename and a successful copy into the standardised folder.
   */
  lemma InPlaceOutcome(target: Listing, modId: string, std: string, src: Folder, renameFails: bool, copyFails: bool)
    ensures var r := InPlaceFound(target, modId, std, src, renameFails, copyFails);
      var t1 := LegacyRename(target, modId, std, renameFails);
      var eff := EffectiveTarget(t1, std);
      var d := CheckModNeedsUpdate(src, Lookup(t1.target, eff));
      && (r.outcome == Skipped <==> !d.needsUpdate)
      && (r.outcome == Updated ==> Exists(t1.target, eff))
      && (r.outcome == Added ==> !Exists(t1.target, eff))
      && (r.outcome == CopyFailed ==> copyFails || CopyTree(t1.target, std, src).None?)
      && (Copied(r.outcome) ==> CopyTree(t1.target, std, src) == Some(r.listing))
      && (!Copied(r.outcome) ==> r.listing == t1.target)
  {
  }

  /**
   * A mod is counted as new only when the target held neither its
   * standardised folder nor any directory whose name contains its id.
   */
  lemma InPlaceAddedOnlyWhenAbsent(target: Listing, modId: string, std: string, src: Folder, renameFails: bool, copyFails: bool)
    requires InPlaceFound(target, modId, std, src, renameFails, copyFails).outcome == Added
    ensures !Exists(target, std) && FindExistingModPath(target, modId).None?
  {
  }

  /**
   * After a successful in-place copy of a mod with readable metadata, the
   * standardised folder holds it and checking it again finds it up to date.
   */
  lemma InPlaceCopyIsCurrent(target: Listing, modId: string, std: string, src: Folder, renameFails: bool, copyFails: bool)
    requires ReadVersion(src.meta).Some?
    requires Copied(InPlaceFound(target, modId, std, src, renameFails, copyFails).outcome)
    ensures var l := InPlaceFound(target, modId, std, src, renameFails, copyFails).listing;
      Exists(l, std) && !CheckModNeedsUpdate(src, Lookup(l, std)).needsUpdate
  {
    var t1 := LegacyRename(target, modId, std, renameFails);
    InPlaceOutcome(target, modId, std, src, renameFails, copyFails);
    CopiedModIsUpToDate(t1.target, std, src);
  }

  /**
   * The in-place step touches at most two names of the target: the
   * standardised folder and the folder whose name contains the id.
   */
  lemma InPlaceFrame(target: Listing, modId: string, std: string, src: Folder, renameFails: bool, copyFails: bool)
    requires DistinctNames(target)
    ensures var r := InPlaceFound(target, modId, std, src, renameFails, copyFails);
      var existing := FindExistingModPath(target, modId);
      forall n :: n != std && (existing.Some? ==> n != existing.value) ==> Lookup(r.listing, n) == Lookup(target, n)
  {
    InPlaceOutcome(target, modId, std, src, renameFails, copyFails);
  }

  /**
   * A mod whose source folder has no `ServerData.json` is copied again and
   * counted as updated on every in-place run once its standardised folder
   * exists: the check reports "source lacks ServerData.json" however current
   * the target is.
   */
  lemma MetaLessModAlwaysUpdated(target: Listing, modId: string, std: string, src: Folder, renameFails: bool)
    requires src.meta.NoMetaFile?
    requires Lookup(target, std).Some? && Lookup(target, std).value.Dir?
    ensures InPlaceFound(target, modId, std, src, renameFails, false).outcome == Updated
  {
    InPlaceOutcome(target, modId, std, src, renameFails, false);
  }

  // --- smart_update_mods: lines 148-195 ---

  /** Line 166: only a version difference leads an existing mod into the bundle. */
  predicate BundleWorthy(d: Decision) {
    d.needsUpdate && d.reason == VersionDiffers
  }

  /**
   * Lines 148-195 for a mod found in the source as `src`: resolve its folder
   * in the target, copy it into the bundle when the target folder is missing
   * or its version differs, and skip it otherwise.
   */
  function BundleFound(target: Listing, bundle: Listing, modId: string, std: string, src: Folder, copyFails: bool): (r: FoundStep)
    ensures r.outcome in {Added, Updated, Skipped, CopyFailed}
    ensures DistinctNames(bundle) ==> DistinctNames(r.listing)
    ensures forall n :: n != std ==> Lookup(r.listing, n) == Lookup(bundle, n)
  {
    var resolved := ResolveTargetModPath(target, modId, std);
    var present := Exists(target, resolved);
    var copy := !present || BundleWorthy(CheckModNeedsUpdate(src, Lookup(target, resolved)));
    if !copy then FoundStep(bundle, Skipped)
    else if copyFails then FoundStep(bundle, CopyFailed)
    else
      match CopyTree(bundle, std, src)
      case None => FoundStep(bundle, CopyFailed)
      case Some(b2) => FoundStep(b2, if present then Updated else Added)
  }

  /**
   * Only a missing target (new) or a version difference (updated) puts a mod
   * into the bundle; every other decision skips it.
   */
  lemma BundleOutcome(target: Listing, bundle: Listing, modId: string, std: string, src: Folder, copyFails: bool)
    ensures var r := BundleFound(target, bundle, modId, std, src, copyFails);
      var resolved := ResolveTargetModPath(target, modId, std);
      var present := Exists(target, resolved);
      && (r.outcome == Skipped <==> present && CheckModNeedsUpdate(src, Lookup(target, resolved)).reason != VersionDiffers)
      && (r.outcome == Updated ==> present)
      && (r.outcome == Added ==> !present)
      && (r.outcome == CopyFailed ==> copyFails || CopyTree(bundle, std, src).None?)
      && (Copied(r.outcome) ==> CopyTree(bundle, std, src) == Some(r.listing))
      && (!Copied(r.outcome) ==> r.listing == bundle)
  {
  }

  /**
   * A mod whose target exists with the same version is never bundled, even
   * when its source folder is newer or the check failed.
   */
  lemma BundleSkipsSameVersion(target: Listing, bundle: Listing, modId: string, std: string, src: Folder, copyFails: bool)
    requires Exists(target, ResolveTargetModPath(target, modId, std))
    requires var tgt := Lookup(target, ResolveTargetModPath(target, modId, std));
      !BothReadable(src, tgt) || SameVersion(src, tgt)
    ensures BundleFound(target, bundle, modId, std, src, copyFails).outcome == Skipped
  {
    BundleOutcome(target, bundle, modId, std, src, copyFails);
  }

  // --- both drivers ---

  datatype Mode = InPlace | Bundle

  /** The listings the drivers write to: the target root and the `mods_update` bundle inside it. */
  datatype StepResult = StepResult(target: Listing, bundle: Listing, outcome: Outcome, info: Option<ModInfo>)

  /** One iteration of the loop over `mods`. */
  function ModStep(mode: Mode, source: Listing, target: Listing, bundle: Listing, modId: string,
                   renameFails: bool, copyFails: bool): (r: StepResult)
    ensures r.outcome == NoModId <==> modId == ""
    ensures r.outcome == NotInSource <==> modId != "" && !Found(source, modId)
    ensures r.info.Some? <==> Found(source, modId)
    ensures Found(source, modId) ==> r.info.value == ParseModInfo(SourceFolder(source, modId), modId)
    ensures !Found(source, modId) ==> r.target == target && r.bundle == bundle
    ensures mode.InPlace? ==> r.bundle == bundle
    ensures mode.Bundle? ==> r.target == target
    ensures DistinctNames(target) ==> DistinctNames(r.target)
    ensures DistinctNames(bundle) ==> DistinctNames(r.bundle)
  {
    if !Found(source, modId) then
      StepResult(target, bundle, if modId == "" then NoModId else NotInSource, None)
    else
      var src := SourceFolder(source, modId);
      var info := ParseModInfo(src, modId);
      var std := StandardName(source, modId);
      if mode.InPlace? then
        var s := InPlaceFound(target, modId, std, src, renameFails, copyFails);
        StepResult(s.listing, bundle, s.outcome, Some(info))
      else
        var s := BundleFound(target, bundle, modId, std, src, copyFails);
        StepResult(target, s.listing, s.outcome, Some(info))
  }

  /** In the bundle mode a found mod's step is `BundleFound` under its standardised name. */
  lemma BundleStepOfFound(source: Listing, target: Listing, bundle: Listing, modId: string, renameFails: bool, copyFails: bool)
    requires Found(source, modId)
    ensures var src := SourceFolder(source, modId);
      var s := BundleFound(target, bundle, modId, StandardName(source, modId), src, copyFails);
      ModStep(Bundle, source, target, bundle, modId, renameFails, copyFails)
        == StepResult(target, s.listing, s.outcome, Some(ParseModInfo(src, modId)))
  {
  }

  /** The counters and the `mod_info` dictionary. */
  datatype Tally = Tally(newMods: nat, updatedMods: nat, skippedMods: nat, foundAndCopied: bool, modInfo: ModInfoMap)

  const NoneCounted := Tally(0, 0, 0, false, [])

  /**
   * Lines 178-195 and 300-312: an added mod counts as new, an updated one as
   * updated, a skipped one as skipped, a failed copy in none of them; a found
   * mod's parsed record is stored under its id, and no other key changes.
   */
  function Record(t: Tally, o: Outcome, modId: string, info: Option<ModInfo>): (r: Tally)
    ensures r.newMods == t.newMods + (if o == Added then 1 else 0)
    ensures r.updatedMods == t.updatedMods + (if o == Updated then 1 else 0)
    ensures r.skippedMods == t.skippedMods + (if o == Skipped then 1 else 0)
    ensures r.newMods + r.updatedMods + r.skippedMods
         == t.newMods + t.updatedMods + t.skippedMods + (if o in {Added, Updated, Skipped} then 1 else 0)
    ensures r.newMods + r.updatedMods == t.newMods + t.updatedMods + (if Copied(o) then 1 else 0)
    ensures r.foundAndCopied <==> t.foundAndCopied || Copied(o)
    ensures info.Some? ==> Get(r.modInfo, modId) == info
    ensures forall k :: k != modId || info.None? ==> Get(r.modInfo, k) == Get(t.modInfo, k)
  {
    var modInfo := if info.Some? then PutKeepsOthers(t.modInfo, modId, info.value); Put(t.modInfo, modId, info.value) else t.modInfo;
    Tally(
      t.newMods + (if o == Added then 1 else 0),
      t.updatedMods + (if o == Updated then 1 else 0),
      t.skippedMods + (if o == Skipped then 1 else 0),
      t.foundAndCopied || Copied(o),
      modInfo)
  }

  /** A found mod's id becomes a key of `mod_info`, once. */
  lemma RecordModInfo(t: Tally, o: Outcome, modId: string, info: Option<ModInfo>)
    ensures KeySet(Record(t, o, modId, info).modInfo) == KeySet(t.modInfo) + (if info.Some? then {modId} else {})
    ensures DistinctKeys(t.modInfo) ==> DistinctKeys(Record(t, o, modId, info).modInfo)
  {
  }

  datatype SyncState = SyncState(target: Listing, bundle: Listing, tally: Tally)

  /** One loop iteration as a function of the target, the bundle, the mod id and the two fault flags. */
  type Step = (Listing, Listing, string, bool, bool) -> StepResult

  function StepOf(mode: Mode, source: Listing): Step {
    (target: Listing, bundle: Listing, modId: string, renameFails: bool, copyFails: bool) =>
      ModStep(mode, source, target, bundle, modId, renameFails, copyFails)
  }

  /** A step records a mod, and counts it, only when the mod was found in the source. */
  predicate RecordsFound(r: StepResult, source: Listing, modId: string) {
    && (r.info.Some? <==> Found(source, modId))
    && (r.info.Some? ==> r.info.value == ParseModInfo(SourceFolder(source, modId), modId))
    && (r.outcome in {Added, Updated, Skipped} ==> Found(source, modId))
  }

  /** A step keeps names distinct and writes only to the listing its mode allows. */
  predicate KeepsListings(r: StepResult, mode: Mode, target: Listing, bundle: Listing) {
    && (DistinctNames(target) ==> DistinctNames(r.target))
    && (DistinctNames(bundle) ==> DistinctNames(r.bundle))
    && (mode.Bundle? ==> r.target == target)
    && (mode.InPlace? ==> r.bundle == bundle)
  }

  ghost predicate WellBehaved(step: Step, mode: Mode, source: Listing) {
    forall target, bundle, modId, renameFails, copyFails ::
      && RecordsFound(step(target, bundle, modId, renameFails, copyFails), source, modId)
      && KeepsListings(step(target, bundle, modId, renameFails, copyFails), mode, target, bundle)
  }

  lemma StepOfWellBehaved(mode: Mode, source: Listing)
    ensures WellBehaved(StepOf(mode, source), mode, source)
  {
    forall target, bundle, modId, renameFails, copyFails
      ensures var r := StepOf(mode, source)(target, bundle, modId, renameFails, copyFails);
        RecordsFound(r, source, modId) && KeepsListings(r, mode, target, bundle)
    {
      var r := ModStep(mode, source, target, bundle, modId, renameFails, copyFails);
      assert RecordsFound(r, source, modId);
    }
  }

  /** The state after the first `n` configured mods. */
  function Run(step: Step, start: SyncState, ids: seq<string>, faults: Faults, n: nat): SyncState
    requires n <= |ids|
    decreases n
  {
    if n == 0 then start
    else
      var s := Run(step, start, ids, faults, n - 1);
      var r := step(s.target, s.bundle, ids[n - 1], n - 1 in faults.renameFails, n - 1 in faults.copyFails);
      SyncState(r.target, r.bundle, Record(s.tally, r.outcome, ids[n - 1], r.info))
  }

  /** One more configured mod: `Run` applies the step to the current state and records its result. */
  lemma RunNext(step: Step, start: SyncState, ids: seq<string>, faults: Faults, n: nat, r: StepResult)
    requires n < |ids|
    requires var s := Run(step, start, ids, faults, n);
      r == step(s.target, s.bundle, ids[n], n in faults.renameFails, n in faults.copyFails)
    ensures Run(step, start, ids, faults, n + 1)
         == SyncState(r.target, r.bundle, Record(Run(step, start, ids, faults, n).tally, r.outcome, ids[n], r.info))
  {
  }

  /** How many of the first `n` configured mods have a source directory. */
  function FoundCount(source: Listing, ids: seq<string>, n: nat): (c: nat)
    requires n <= |ids|
    ensures c <= n
  {
    if n == 0 then 0 else FoundCount(source, ids, n - 1) + (if Found(source, ids[n - 1]) then 1 else 0)
  }

  function FoundIds(source: Listing, ids: seq<string>, n: nat): set<string>
    requires n <= |ids|
  {
    set i | 0 <= i < n && Found(source, ids[i]) :: ids[i]
  }

  /** Counted mods were found in the source, so the counters never exceed the found mods. */
  lemma {:induction false} RunCounts(step: Step, mode: Mode, source: Listing, start: SyncState, ids: seq<string>, faults: Faults, n: nat)
    requires WellBehaved(step, mode, source)
    requires n <= |ids| && start.tally == NoneCounted
    ensures var t := Run(step, start, ids, faults, n).tally;
      t.newMods + t.updatedMods + t.skippedMods <= FoundCount(source, ids, n)
  {
    if n > 0 {
      RunCounts(step, mode, source, start, ids, faults, n - 1);
      var s := Run(step, start, ids, faults, n - 1);
      var r := step(s.target, s.bundle, ids[n - 1], n - 1 in faults.renameFails, n - 1 in faults.copyFails);
      assert Run(step, start, ids, faults, n) == SyncState(r.target, r.bundle, Record(s.tally, r.outcome, ids[n - 1], r.info));
      assert RecordsFound(r, source, ids[n - 1]);
    }
  }

  lemma FoundIdsStep(source: Listing, ids: seq<string>, n: nat)
    requires 0 < n <= |ids|
    ensures FoundIds(source, ids, n)
         == FoundIds(source, ids, n - 1) + (if Found(source, ids[n - 1]) then {ids[n - 1]} else {})
  {
  }

  /**
   * `mod_info` has exactly one key per configured mod found in the source,
   * and holds that mod's parsed `{name, version}` record.
   */
  lemma {:induction false} RunModInfo(step: Step, mode: Mode, source: Listing, start: SyncState, ids: seq<string>, faults: Faults, n: nat)
    requires WellBehaved(step, mode, source)
    requires n <= |ids| && start.tally == NoneCounted
    ensures var t := Run(step, start, ids, faults, n).tally;
      && KeySet(t.modInfo) == FoundIds(source, ids, n) && DistinctKeys(t.modInfo)
      && forall i :: 0 <= i < n && Found(source, ids[i]) ==>
           Get(t.modInfo, ids[i]) == Some(ParseModInfo(SourceFolder(source, ids[i]), ids[i]))
  {
    if n > 0 {
      RunModInfo(step, mode, source, start, ids, faults, n - 1);
      var s := Run(step, start, ids, faults, n - 1);
      var r := step(s.target, s.bundle, ids[n - 1], n - 1 in faults.renameFails, n - 1 in faults.copyFails);
      assert Run(step, start, ids, faults, n) == SyncState(r.target, r.bundle, Record(s.tally, r.outcome, ids[n - 1], r.info));
      assert RecordsFound(r, source, ids[n - 1]);
      RecordModInfo(s.tally, r.outcome, ids[n - 1], r.info);
      FoundIdsStep(source, ids, n);
    }
  }

  /** `found_and_copied` holds exactly when some copy succeeded. */
  lemma {:induction false} RunFoundAndCopied(step: Step, start: SyncState, ids: seq<string>, faults: Faults, n: nat)
    requires n <= |ids| && start.tally == NoneCounted
    ensures var t := Run(step, start, ids, faults, n).tally;
      t.foundAndCopied <==> t.newMods + t.updatedMods > 0
  {
    if n > 0 {
      RunFoundAndCopied(step, start, ids, faults, n - 1);
      var s := Run(step, start, ids, faults, n - 1);
      var r := step(s.target, s.bundle, ids[n - 1], n - 1 in faults.renameFails, n - 1 in faults.copyFails);
      assert Run(step, start, ids, faults, n) == SyncState(r.target, r.bundle, Record(s.tally, r.outcome, ids[n - 1], r.info));
    }
  }

  /** Listings keep distinct names through a run. */
  lemma {:induction false} RunDistinct(step: Step, mode: Mode, source: Listing, start: SyncState, ids: seq<string>, faults: Faults, n: nat)
    requires WellBehaved(step, mode, source)
    requires n <= |ids| && DistinctNames(start.target) && DistinctNames(start.bundle)
    ensures DistinctNames(Run(step, start, ids, faults, n).target)
    ensures DistinctNames(Run(step, start, ids, faults, n).bundle)
  {
    if n > 0 {
      RunDistinct(step, mode, source, start, ids, faults, n - 1);
      var s := Run(step, start, ids, faults, n - 1);
      var r := step(s.target, s.bundle, ids[n - 1], n - 1 in faults.renameFails, n - 1 in faults.copyFails);
      assert Run(step, start, ids, faults, n) == SyncState(r.target, r.bundle, Record(s.tally, r.outcome, ids[n - 1], r.info));
      assert KeepsListings(r, mode, s.target, s.bundle);
    }
  }

  /** The in-place run never touches the bundle; the bundle run never touches the target root. */
  lemma {:induction false} RunWritesOnlyItsListing(step: Step, mode: Mode, source: Listing, start: SyncState, ids: seq<string>, faults: Faults, n: nat)
    requires WellBehaved(step, mode, source)
    requires n <= |ids|
    ensures mode.Bundle? ==> Run(step, start, ids, faults, n).target == start.target
    ensures mode.InPlace? ==> Run(step, start, ids, faults, n).bundle == start.bundle
  {
    if n > 0 {
      RunWritesOnlyItsListing(step, mode, source, start, ids, faults, n - 1);
      var s := Run(step, start, ids, faults, n - 1);
      var r := step(s.target, s.bundle, ids[n - 1], n - 1 in faults.renameFails, n - 1 in faults.copyFails);
      assert Run(step, start, ids, faults, n) == SyncState(r.target, r.bundle, Record(s.tally, r.outcome, ids[n - 1], r.info));
      assert KeepsListings(r, mode, s.target, s.bundle);
    }
  }

  // ----- whole drivers -----

  const UpdateFolderName: string := "mods_update"
  const ModInfoFileName: string := "mod_info.json"

  /** The directory `os.makedirs` creates at time `now`. */
  function EmptyFolder(now: int): Folder {
    Folder(now, NoMetaFile, map[])
  }

  /**
   * Lines 120-123: an existing `mods_update` is removed and a fresh empty one
   * created; `rmtree` raises (`None`) when the name is a plain file.
   */
  function ResetUpdateFolder(target: Listing, now: int): (r: Option<Listing>)
    ensures r.None? <==> Lookup(target, UpdateFolderName).Some? && Lookup(target, UpdateFolderName).value.File?
    ensures r.Some? && DistinctNames(target) ==>
      && DistinctNames(r.value)
      && Lookup(r.value, UpdateFolderName) == Some(Dir(EmptyFolder(now)))
      && forall n :: n != UpdateFolderName ==> Lookup(r.value, n) == Lookup(target, n)
  {
    var created := Entry(UpdateFolderName, Dir(EmptyFolder(now)));
    if !Exists(target, UpdateFolderName) then
      AppendFresh(target, created);
      Some(target + [created])
    else if Lookup(target, UpdateFolderName).value.File? then
      None
    else
      var cleared := RemoveEntry(target, UpdateFolderName);
      AppendFresh(cleared, created);
      Some(cleared + [created])
  }

  lemma AppendFresh(l: Listing, e: Entry)
    ensures !Exists(l, e.name) ==> Lookup(l + [e], e.name) == Some(e.node)
    ensures !Exists(l, e.name) && DistinctNames(l) ==> DistinctNames(l + [e])
    ensures forall n :: n != e.name ==> Lookup(l + [e], n) == Lookup(l, n)
  {
    if !Exists(l, e.name) {
      IndexOfIs(l + [e], e.name, |l|);
    }
    forall n | n != e.name ensures Lookup(l + [e], n) == Lookup(l, n) {
      AppendKeepsOthers(l, e, n);
    }
  }

  datatype InPlaceSummary = InPlaceSummary(
    totalMods: nat, newMods: nat, updatedMods: nat, skippedMods: nat, foundAndCopied: bool, modInfo: ModInfoMap)

  /**
   * `process_mods_from_json`: the new target listing and the returned
   * summary. The two configuration errors are the only ones it raises.
   */
  function InPlaceSync(doc: ConfigDoc, source: Listing, target: Listing, faults: Faults): (r: Result<(Listing, InPlaceSummary), SyncError>)
    ensures r.Failure? <==> ConfigModIds(doc).Failure?
    ensures r.Failure? ==> r.error == ConfigModIds(doc).error
    ensures r.Success? ==> r.value.1.totalMods == |ConfigModIds(doc).value|
  {
    match ConfigModIds(doc)
    case Failure(e) => Failure(e)
    case Success(ids) =>
      var s := Run(StepOf(InPlace, source), SyncState(target, [], NoneCounted), ids, faults, |ids|);
      var t := s.tally;
      Success((s.target, InPlaceSummary(|ids|, t.newMods, t.updatedMods, t.skippedMods, t.foundAndCopied, t.modInfo)))
  }

  /** The state of the target root and the bundle after `smart_update_mods`. */
  datatype BundleSummary = BundleSummary(
    totalMods: nat, newMods: nat, updatedMods: nat, skippedMods: nat, updateFolder: string, modInfo: ModInfoMap)

  datatype BundleResult = BundleResult(target: Listing, bundle: Listing, summary: BundleSummary)

  /** Line 198: the manifest write, whose failure is ignored. */
  function SaveManifest(bundle: Listing, info: ModInfoMap, fails: bool): (r: Listing)
    ensures !fails && WriteFile(bundle, ModInfoFileName, ModInfoFile(info)).Some? ==>
      Lookup(r, ModInfoFileName) == Some(File(ModInfoFile(info)))
    ensures fails || WriteFile(bundle, ModInfoFileName, ModInfoFile(info)).None? ==> r == bundle
    ensures forall n :: n != ModInfoFileName ==> Lookup(r, n) == Lookup(bundle, n)
  {
    var written := WriteFile(bundle, ModInfoFileName, ModInfoFile(info));
    if fails || written.None? then bundle else written.value
  }

  /**
   * `smart_update_mods`: the configuration is checked before anything is
   * touched; the run then fails only when `mods_update` is a plain file.
   */
  function BundleSync(doc: ConfigDoc, source: Listing, target: Listing, faults: Faults, now: int): (r: Result<BundleResult, SyncError>)
    ensures ConfigModIds(doc).Failure? ==> r == Failure(ConfigModIds(doc).error)
    ensures r == Failure(UpdateFolderIsFile) <==>
      ConfigModIds(doc).Success? && Lookup(target, UpdateFolderName).Some? && Lookup(target, UpdateFolderName).value.File?
    ensures r.Success? ==> r.value.summary.totalMods == |ConfigModIds(doc).value| && r.value.summary.updateFolder == UpdateFolderName
  {
    match ConfigModIds(doc)
    case Failure(e) => Failure(e)
    case Success(ids) =>
      match ResetUpdateFolder(target, now)
      case None => Failure(UpdateFolderIsFile)
      case Some(reset) =>
        var s := Run(StepOf(Bundle, source), SyncState(reset, [], NoneCounted), ids, faults, |ids|);
        var t := s.tally;
        Success(BundleResult(s.target, SaveManifest(s.bundle, t.modInfo, faults.saveFails),
          BundleSummary(|ids|, t.newMods, t.updatedMods, t.skippedMods, UpdateFolderName, t.modInfo)))
  }

  /**
   * `process_mods_from_json` on a well-formed configuration: counters never
   * exceed the number of mods, `mod_info` holds exactly the ids found in the
   * source, and `found_and_copied` says whether something was copied.
   */
  lemma InPlaceSyncSummary(doc: ConfigDoc, source: Listing, target: Listing, faults: Faults)
    requires InPlaceSync(doc, source, target, faults).Success?
    ensures var ids := ConfigModIds(doc).value;
      var (l, r) := InPlaceSync(doc, source, target, faults).value;
      && r.totalMods == |ids|
      && r.newMods + r.updatedMods + r.skippedMods <= FoundCount(source, ids, |ids|) <= r.totalMods
      && KeySet(r.modInfo) == FoundIds(source, ids, |ids|)
      && (forall i :: 0 <= i < |ids| && Found(source, ids[i]) ==>
            Get(r.modInfo, ids[i]) == Some(ParseModInfo(SourceFolder(source, ids[i]), ids[i])))
      && (r.foundAndCopied <==> r.newMods + r.updatedMods > 0)
      && (DistinctNames(target) ==> DistinctNames(l))
  {
    var ids := ConfigModIds(doc).value;
    var step, start := StepOf(InPlace, source), SyncState(target, [], NoneCounted);
    StepOfWellBehaved(InPlace, source);
    RunCounts(step, InPlace, source, start, ids, faults, |ids|);
    RunModInfo(step, InPlace, source, start, ids, faults, |ids|);
    RunFoundAndCopied(step, start, ids, faults, |ids|);
    if DistinctNames(target) {
      RunDistinct(step, InPlace, source, start, ids, faults, |ids|);
    }
  }

  /**
   * `smart_update_mods` on a well-formed configuration: every entry of the
   * target root other than `mods_update` is left as it was, `mods_update` is
   * a fresh directory, the counters and `mod_info` behave as in place, and
   * the bundle gets the manifest unless the write fails.
   */
  lemma BundleSyncSummary(doc: ConfigDoc, source: Listing, target: Listing, faults: Faults, now: int)
    requires DistinctNames(target)
    requires BundleSync(doc, source, target, faults, now).Success?
    ensures var ids := ConfigModIds(doc).value;
      var r := BundleSync(doc, source, target, faults, now).value;
      && r.summary.totalMods == |ids|
      && r.summary.newMods + r.summary.updatedMods + r.summary.skippedMods <= FoundCount(source, ids, |ids|)
      && KeySet(r.summary.modInfo) == FoundIds(source, ids, |ids|)
      && (forall i :: 0 <= i < |ids| && Found(source, ids[i]) ==>
            Get(r.summary.modInfo, ids[i]) == Some(ParseModInfo(SourceFolder(source, ids[i]), ids[i])))
      && DistinctNames(r.target) && DistinctNames(r.bundle)
      && Lookup(r.target, UpdateFolderName) == Some(Dir(EmptyFolder(now)))
      && (forall n :: n != UpdateFolderName ==> Lookup(r.target, n) == Lookup(target, n))
      && (!faults.saveFails && (Lookup(r.bundle, ModInfoFileName).None? || Lookup(r.bundle, ModInfoFileName).value.File?)
          ==> Lookup(r.bundle, ModInfoFileName) == Some(File(ModInfoFile(r.summary.modInfo))))
  {
    var ids := ConfigModIds(doc).value;
    var reset := ResetUpdateFolder(target, now).value;
    var start := SyncState(reset, [], NoneCounted);
    var step := StepOf(Bundle, source);
    StepOfWellBehaved(Bundle, source);
    RunCounts(step, Bundle, source, start, ids, faults, |ids|);
    RunModInfo(step, Bundle, source, start, ids, faults, |ids|);
    RunDistinct(step, Bundle, source, start, ids, faults, |ids|);
    RunWritesOnlyItsListing(step, Bundle, source, start, ids, faults, |ids|);
  }
}
