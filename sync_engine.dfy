/**
 * The two sync drivers of `ModManager` as loops over the configured mods,
 * changing a filesystem held in a `Disk` object, each proved to produce what
 * the corresponding function of `SyncSpec` describes.
 */
module SyncEngine {
  import opened Common
  import opened Text
  import opened NameNormalizer
  import opened Manifest
  import opened FsModel
  import opened MetadataReader
  import opened UpdateDecision
  import opened ModLocator
  import opened SyncSpec

  datatype Root = TargetRoot | BundleRoot

  /**
   * The directories the manager works on: the source root, the target root,
   * and the contents of `target/mods_update`.
   */
  class Disk {
    var source: Listing
    var target: Listing
    var bundle: Listing

    constructor (source: Listing, target: Listing, bundle: Listing)
      ensures this.source == source && this.target == target && this.bundle == bundle
    {
      this.source := source;
      this.target := target;
      this.bundle := bundle;
    }

    /** `os.rename(target/from, target/to)`; `fails` stands for an operating-system error. */
    method Rename(from: string, to: string, fails: bool) returns (ok: bool)
      requires Exists(target, from) && !Exists(target, to)
      modifies this
      ensures ok == !fails
      ensures target == if ok then RenameEntry(old(target), from, to) else old(target)
      ensures source == old(source) && bundle == old(bundle)
    {
      ok := !fails;
      if ok {
        target := RenameEntry(target, from, to);
      }
    }

    /**
     * `copy_mod_folder(src, root/name)`: True after a merging `copytree`,
     * False when it raises, leaving the listing as it was.
     */
    method CopyModFolder(root: Root, name: string, src: Folder, fails: bool) returns (ok: bool)
      modifies this
      ensures var c := CopyTree(if root.TargetRoot? then old(target) else old(bundle), name, src);
        && ok == (!fails && c.Some?)
        && target == (if ok && root.TargetRoot? then c.value else old(target))
        && bundle == (if ok && root.BundleRoot? then c.value else old(bundle))
      ensures source == old(source)
    {
      var c := CopyTree(if root.TargetRoot? then target else bundle, name, src);
      ok := !fails && c.Some?;
      if ok {
        if root.TargetRoot? {
          target := c.value;
        } else {
          bundle := c.value;
        }
      }
    }

    /** `rmtree` of an existing `mods_update` followed by `makedirs`; False when `rmtree` raises. */
    method ResetUpdateFolder(now: int) returns (ok: bool)
      modifies this
      ensures ok == SyncSpec.ResetUpdateFolder(old(target), now).Some?
      ensures ok ==> target == SyncSpec.ResetUpdateFolder(old(target), now).value && bundle == []
      ensures !ok ==> target == old(target) && bundle == old(bundle)
      ensures source == old(source)
    {
      var r := SyncSpec.ResetUpdateFolder(target, now);
      ok := r.Some?;
      if ok {
        target := r.value;
        bundle := [];
      }
    }

    /** `save_mod_info_json(info, mods_update)`: the written path, or "" when the write fails. */
    method SaveModInfoJson(info: ModInfoMap, fails: bool) returns (path: string)
      modifies this
      ensures bundle == SaveManifest(old(bundle), info, fails)
      ensures path == "" <==> fails || WriteFile(old(bundle), ModInfoFileName, ModInfoFile(info)).None?
      ensures path != "" ==> path == UpdateFolderName + "/" + ModInfoFileName
      ensures source == old(source) && target == old(target)
    {
      var written := WriteFile(bundle, ModInfoFileName, ModInfoFile(info));
      if fails || written.None? {
        path := "";
      } else {
        bundle := written.value;
        path := UpdateFolderName + "/" + ModInfoFileName;
      }
    }
  }

  /**
   * Lines 137-146 of `smart_update_mods`: remember the last source entry
   * whose name contains the id, stopping at the first that is a directory.
   */
  method LocateSourceMod(source: Listing, modId: string) returns (candidate: Option<nat>)
    requires modId != ""
    ensures candidate.Some? ==> candidate.value < |source| && Contains(source[candidate.value].name, modId)
    ensures (candidate.Some? && source[candidate.value].node.Dir?) <==> Found(source, modId)
    ensures Found(source, modId) ==> candidate == Some(FirstModDir(source, modId))
  {
    candidate := None;
    var j := 0;
    while j < |source|
      invariant j <= |source|
      invariant NoModDirBefore(source, modId, j)
      invariant candidate.Some? ==> candidate.value < j && Contains(source[candidate.value].name, modId)
      invariant candidate.Some? ==> !source[candidate.value].node.Dir?
    {
      if Contains(source[j].name, modId) {
        candidate := Some(j);
        if source[j].node.Dir? {
          FirstModDirUnique(source, modId, j);
          return;
        }
      }
      j := j + 1;
    }
    FirstModDirUnique(source, modId, |source|);
  }

  /** Lines 277-310 of `process_mods_from_json` for a mod found in the source as `srcName`. */
  method SyncFoundModInPlace(disk: Disk, modId: string, srcName: string, src: Folder, renameFails: bool, copyFails: bool)
    returns (outcome: Outcome, parsed: ModInfo)
    modifies disk
    ensures parsed == ParseModInfo(src, modId)
    ensures var s := InPlaceFound(old(disk.target), modId, GenerateModFolderName(srcName, parsed.version), src, renameFails, copyFails);
      outcome == s.outcome && disk.target == s.listing
    ensures disk.source == old(disk.source) && disk.bundle == old(disk.bundle)
  {
    parsed := ParseModInfo(src, modId);
    var std := GenerateModFolderName(srcName, parsed.version);
    ghost var renamed := LegacyRename(disk.target, modId, std, renameFails);
    var existing := FindExistingModPath(disk.target, modId);
    if existing.Some? && existing.value != std && !Exists(disk.target, std) {
      var ok := disk.Rename(existing.value, std, renameFails);
      if ok {
        existing := Some(std);
      }
    }
    assert renamed == Renamed(disk.target, existing);
    var effective := if Exists(disk.target, std) then std else existing.GetOr(std);
    assert effective == EffectiveTarget(renamed, std);
    var existedBefore := Exists(disk.target, effective);
    var d := CheckModNeedsUpdate(src, Lookup(disk.target, effective));
    if d.needsUpdate {
      var ok := disk.CopyModFolder(TargetRoot, std, src, copyFails);
      if ok {
        outcome := if existedBefore then Updated else Added;
      } else {
        outcome := CopyFailed;
      }
    } else {
      outcome := Skipped;
    }
  }

  /** Lines 148-192 of `smart_update_mods` for a mod found in the source as `srcName`. */
  method SyncFoundModToBundle(disk: Disk, modId: string, srcName: string, src: Folder, copyFails: bool)
    returns (outcome: Outcome, parsed: ModInfo)
    modifies disk
    ensures parsed == ParseModInfo(src, modId)
    ensures var s := BundleFound(old(disk.target), old(disk.bundle), modId, GenerateModFolderName(srcName, parsed.version), src, copyFails);
      outcome == s.outcome && disk.bundle == s.listing
    ensures disk.source == old(disk.source) && disk.target == old(disk.target)
  {
    parsed := ParseModInfo(src, modId);
    var std := GenerateModFolderName(srcName, parsed.version);
    var resolved := ResolveTargetModPath(disk.target, modId, std);
    var needsUpdate: bool;
    if Exists(disk.target, resolved) {
      var d := CheckModNeedsUpdate(src, Lookup(disk.target, resolved));
      needsUpdate := d.needsUpdate && d.reason == VersionDiffers;
    } else {
      needsUpdate := true;
    }
    if needsUpdate {
      var present := Exists(disk.target, resolved);
      var ok := disk.CopyModFolder(BundleRoot, std, src, copyFails);
      if ok {
        outcome := if present then Updated else Added;
      } else {
        outcome := CopyFailed;
      }
    } else {
      outcome := Skipped;
    }
  }

  /**
   * The counter updates that close each iteration of both loops
   * (lines 178-195 and 300-312): a copied mod is new or updated, an
   * up-to-date one skipped, and a found mod is recorded in `mod_info`.
   */
  method CountOutcome(newMods: nat, updatedMods: nat, skippedMods: nat, foundAndCopied: bool, modInfo: ModInfoMap,
                      outcome: Outcome, modId: string, info: Option<ModInfo>)
    returns (newMods': nat, updatedMods': nat, skippedMods': nat, foundAndCopied': bool, modInfo': ModInfoMap)
    ensures Tally(newMods', updatedMods', skippedMods', foundAndCopied', modInfo')
         == Record(Tally(newMods, updatedMods, skippedMods, foundAndCopied, modInfo), outcome, modId, info)
  {
    newMods', updatedMods', skippedMods', foundAndCopied', modInfo' := newMods, updatedMods, skippedMods, foundAndCopied, modInfo;
    if outcome == Added {
      newMods' := newMods' + 1;
      foundAndCopied' := true;
    } else if outcome == Updated {
      updatedMods' := updatedMods' + 1;
      foundAndCopied' := true;
    } else if outcome == Skipped {
      skippedMods' := skippedMods' + 1;
    }
    if info.Some? {
      modInfo' := Put(modInfo', modId, info.value);
    }
  }

  /**
   * One iteration of the loop of `process_mods_from_json` (lines 267-313):
   * scan the source for the first directory whose name contains the id and
   * sync it in place.
   */
  method ProcessConfiguredMod(disk: Disk, modId: string, renameFails: bool, copyFails: bool)
    returns (outcome: Outcome, info: Option<ModInfo>)
    modifies disk
    ensures var r := ModStep(InPlace, old(disk.source), old(disk.target), [], modId, renameFails, copyFails);
      disk.target == r.target && outcome == r.outcome && info == r.info
    ensures disk.source == old(disk.source) && disk.bundle == old(disk.bundle)
  {
    if modId == "" {
      return NoModId, None;
    }
    var j := 0;
    while j < |disk.source|
      invariant j <= |disk.source| && NoModDirBefore(disk.source, modId, j)
      invariant disk.source == old(disk.source) && disk.target == old(disk.target) && disk.bundle == old(disk.bundle)
    {
      if Contains(disk.source[j].name, modId) {
        if !disk.source[j].node.Dir? {
          j := j + 1;
          continue;
        }
        FirstModDirUnique(disk.source, modId, j);
        var parsed;
        outcome, parsed := SyncFoundModInPlace(disk, modId, disk.source[j].name, disk.source[j].node.folder,
                                               renameFails, copyFails);
        return outcome, Some(parsed);
      }
      j := j + 1;
    }
    FirstModDirUnique(disk.source, modId, |disk.source|);
    return NotInSource, None;
  }

  /** `process_mods_from_json(json, source, target)`. */
  method ProcessModsFromJson(disk: Disk, doc: ConfigDoc, faults: Faults) returns (r: Result<InPlaceSummary, SyncError>)
    modifies disk
    ensures var spec := InPlaceSync(doc, old(disk.source), old(disk.target), faults);
      && (spec.Failure? ==> r == Failure(spec.error) && disk.target == old(disk.target))
      && (spec.Success? ==> r == Success(spec.value.1) && disk.target == spec.value.0)
    ensures disk.source == old(disk.source) && disk.bundle == old(disk.bundle)
  {
    if doc.NotJson? {
      return Failure(ConfigNotJson);
    }
    if doc.game.None? || doc.game.value.mods.None? {
      return Failure(ConfigMalformed);
    }
    var mods := doc.game.value.mods.value;
    ghost var ids := ConfigModIds(doc).value;
    ghost var step := StepOf(InPlace, disk.source);
    ghost var start := SyncState(disk.target, [], NoneCounted);
    var foundAndCopied := false;
    var modInfo: ModInfoMap := [];
    var updatedMods, skippedMods, newMods := 0, 0, 0;

    for i := 0 to |mods|
      invariant |ids| == |mods|
      invariant disk.source == old(disk.source) && disk.bundle == old(disk.bundle)
      invariant Run(step, start, ids, faults, i)
             == SyncState(disk.target, [], Tally(newMods, updatedMods, skippedMods, foundAndCopied, modInfo))
    {
      var modId := mods[i].modId.GetOr("");
      assert modId == ids[i];
      ghost var before := disk.target;
      var outcome, info := ProcessConfiguredMod(disk, modId, i in faults.renameFails, i in faults.copyFails);
      ghost var r := ModStep(InPlace, disk.source, before, [], modId, i in faults.renameFails, i in faults.copyFails);
      assert r == StepResult(disk.target, [], outcome, info);
      RunNext(step, start, ids, faults, i, r);
      newMods, updatedMods, skippedMods, foundAndCopied, modInfo :=
        CountOutcome(newMods, updatedMods, skippedMods, foundAndCopied, modInfo, outcome, modId, info);
    }
    return Success(InPlaceSummary(|mods|, newMods, updatedMods, skippedMods, foundAndCopied, modInfo));
  }

  /** One iteration of the loop of `smart_update_mods` (lines 133-195). */
  method UpdateConfiguredMod(disk: Disk, modId: string, copyFails: bool) returns (outcome: Outcome, info: Option<ModInfo>)
    modifies disk
    ensures var r := ModStep(Bundle, old(disk.source), old(disk.target), old(disk.bundle), modId, false, copyFails);
      disk.bundle == r.bundle && outcome == r.outcome && info == r.info
    ensures disk.source == old(disk.source) && disk.target == old(disk.target)
  {
    if modId == "" {
      return NoModId, None;
    }
    var candidate := LocateSourceMod(disk.source, modId);
    if candidate.None? || !disk.source[candidate.value].node.Dir? {
      return NotInSource, None;
    }
    var k := candidate.value;
    var parsed;
    outcome, parsed := SyncFoundModToBundle(disk, modId, disk.source[k].name, disk.source[k].node.folder, copyFails);
    info := Some(ParseModInfo(disk.source[k].node.folder, modId));
  }

  /** `smart_update_mods(json, source, target)`. */
  method SmartUpdateMods(disk: Disk, doc: ConfigDoc, faults: Faults, now: int) returns (r: Result<BundleSummary, SyncError>)
    modifies disk
    ensures var spec := BundleSync(doc, old(disk.source), old(disk.target), faults, now);
      && (spec.Failure? ==> r == Failure(spec.error) && disk.target == old(disk.target) && disk.bundle == old(disk.bundle))
      && (spec.Success? ==> r == Success(spec.value.summary)
                            && disk.target == spec.value.target && disk.bundle == spec.value.bundle)
    ensures disk.source == old(disk.source)
  {
    if doc.NotJson? {
      return Failure(ConfigNotJson);
    }
    if doc.game.None? || doc.game.value.mods.None? {
      return Failure(ConfigMalformed);
    }
    var mods := doc.game.value.mods.value;
    ghost var ids := ConfigModIds(doc).value;
    var reset := disk.ResetUpdateFolder(now);
    if !reset {
      return Failure(UpdateFolderIsFile);
    }
    ghost var step := StepOf(Bundle, disk.source);
    ghost var start := SyncState(disk.target, [], NoneCounted);
    var foundAndCopied := false;
    var modInfo: ModInfoMap := [];
    var updatedMods, skippedMods, newMods := 0, 0, 0;

    for i := 0 to |mods|
      invariant |ids| == |mods|
      invariant disk.source == old(disk.source)
      invariant Run(step, start, ids, faults, i)
             == SyncState(disk.target, disk.bundle, Tally(newMods, updatedMods, skippedMods, foundAndCopied, modInfo))
    {
      var modId := mods[i].modId.GetOr("");
      assert modId == ids[i];
      ghost var r := ModStep(Bundle, disk.source, disk.target, disk.bundle, modId, i in faults.renameFails, i in faults.copyFails);
      BundleStepIgnoresRename(disk.source, disk.target, disk.bundle, modId, i in faults.renameFails, i in faults.copyFails);
      var outcome, info := UpdateConfiguredMod(disk, modId, i in faults.copyFails);
      assert r == StepResult(disk.target, disk.bundle, outcome, info);
      RunNext(step, start, ids, faults, i, r);
      newMods, updatedMods, skippedMods, foundAndCopied, modInfo :=
        CountOutcome(newMods, updatedMods, skippedMods, foundAndCopied, modInfo, outcome, modId, info);
    }
    var _ := disk.SaveModInfoJson(modInfo, faults.saveFails);
    return Success(BundleSummary(|mods|, newMods, updatedMods, skippedMods, UpdateFolderName, modInfo));
  }

  /** The bundle driver never renames, so the rename fault flag does not affect its step. */
  lemma BundleStepIgnoresRename(source: Listing, target: Listing, bundle: Listing, modId: string, renameFails: bool, copyFails: bool)
    ensures ModStep(Bundle, source, target, bundle, modId, renameFails, copyFails)
         == ModStep(Bundle, source, target, bundle, modId, false, copyFails)
  {
  }
}
