/**
 * `check_mod_needs_update`: classifies a source mod folder against the
 * target path by rules tried in order, the first that applies deciding.
 */
module UpdateDecision {
  import opened Common
  import opened FsModel
  import opened MetadataReader
  import opened NameNormalizer

  /** The reported version of a target that does not exist. */
  const MissingVersion: string := "不存在"

  datatype Reason =
    | TargetMissing       // "目标模组不存在"
    | SourceMetaMissing   // "源模组缺少ServerData.json"
    | TargetMetaMissing   // "目标模组缺少ServerData.json"
    | VersionDiffers      // "版本不同 (源: .., 目标: ..)"
    | SourceNewer         // "源文件更新 (..)"
    | UpToDate            // "模组已是最新版本"
    | CheckFailed         // "检查过程中出错: .." (an exception was caught)

  datatype Decision = Decision(needsUpdate: bool, reason: Reason, sourceVersion: string, targetVersion: string)

  /** Whether a target path holds a metadata file at all (`os.path.isfile(target/ServerData.json)`). */
  predicate HasMetaFile(n: Node) {
    n.Dir? && !n.folder.meta.NoMetaFile?
  }

  /** Both metadata files exist and both versions can be read. */
  predicate BothReadable(src: Folder, tgt: Option<Node>) {
    tgt.Some? && tgt.value.Dir?
    && ReadVersion(src.meta).Some? && ReadVersion(tgt.value.folder.meta).Some?
  }

  /** Metadata files exist on both sides but reading one of them raises. */
  predicate ReadFails(src: Folder, tgt: Option<Node>) {
    tgt.Some? && !src.meta.NoMetaFile? && HasMetaFile(tgt.value) && !BothReadable(src, tgt)
  }

  predicate SameVersion(src: Folder, tgt: Option<Node>) {
    BothReadable(src, tgt) && ReadVersion(src.meta) == ReadVersion(tgt.value.folder.meta)
  }

  /** The source and target folder of a pair with readable metadata, by modification time. */
  predicate SourceIsNewer(src: Folder, tgt: Option<Node>) {
    tgt.Some? && tgt.value.Dir? && src.mtime > tgt.value.folder.mtime
  }

  /**
   * `check_mod_needs_update(source, target, mod_id)` where `tgt` is what the
   * target path holds (`None` when it does not exist). It says no update is
   * needed exactly when both metadata files are readable, the versions are
   * equal and the source is not newer than the target.
   */
  function CheckModNeedsUpdate(src: Folder, tgt: Option<Node>): (d: Decision)
    ensures !d.needsUpdate <==> SameVersion(src, tgt) && !SourceIsNewer(src, tgt)
    ensures d.reason == TargetMissing <==> tgt.None?
    ensures d.reason == SourceMetaMissing <==> tgt.Some? && src.meta.NoMetaFile?
    ensures d.reason == TargetMetaMissing <==> tgt.Some? && !src.meta.NoMetaFile? && !HasMetaFile(tgt.value)
    ensures d.reason == CheckFailed <==> ReadFails(src, tgt)
    ensures d.reason == VersionDiffers <==> BothReadable(src, tgt) && !SameVersion(src, tgt)
    ensures d.reason == SourceNewer <==> SameVersion(src, tgt) && SourceIsNewer(src, tgt)
    ensures d.reason == TargetMissing ==> d.sourceVersion == UnknownVersion && d.targetVersion == MissingVersion
    ensures BothReadable(src, tgt) ==>
      d.sourceVersion == ReadVersion(src.meta).value && d.targetVersion == ReadVersion(tgt.value.folder.meta).value
    ensures !BothReadable(src, tgt) && tgt.Some? ==> d.sourceVersion == UnknownVersion == d.targetVersion
  {
    if tgt.None? then
      Decision(true, TargetMissing, UnknownVersion, MissingVersion)
    else if src.meta.NoMetaFile? then
      Decision(true, SourceMetaMissing, UnknownVersion, UnknownVersion)
    else if !HasMetaFile(tgt.value) then
      Decision(true, TargetMetaMissing, UnknownVersion, UnknownVersion)
    else
      var t := tgt.value.folder;
      match (ReadVersion(src.meta), ReadVersion(t.meta))
      case (Some(sv), Some(tv)) =>
        if sv != tv then Decision(true, VersionDiffers, sv, tv)
        else if src.mtime > t.mtime then Decision(true, SourceNewer, sv, tv)
        else Decision(false, UpToDate, sv, tv)
      case _ => Decision(true, CheckFailed, UnknownVersion, UnknownVersion)
  }

  /**
   * After a successful `copy_mod_folder(source, target)` of a mod whose
   * metadata is readable, checking the pair again finds it up to date,
   * whether the target was created or merged into.
   */
  lemma CopiedModIsUpToDate(l: Listing, name: string, src: Folder)
    requires ReadVersion(src.meta).Some?
    requires CopyTree(l, name, src).Some?
    ensures !CheckModNeedsUpdate(src, Lookup(CopyTree(l, name, src).value, name)).needsUpdate
  {
    var r := CopyTree(l, name, src).value;
    var f := Lookup(r, name).value.folder;
    assert f.meta == src.meta && f.mtime == src.mtime;
  }

  /**
   * A version mismatch between readable metadata is reported as such, and
   * merging the source over the target settles it.
   */
  lemma UpdateNeededUntilCopied(src: Folder, t: Folder)
    requires ReadVersion(src.meta).Some? && ReadVersion(t.meta).Some?
    requires ReadVersion(src.meta) != ReadVersion(t.meta)
    ensures CheckModNeedsUpdate(src, Some(Dir(t))).reason == VersionDiffers
    ensures !CheckModNeedsUpdate(src, Some(Dir(MergeFolder(t, src)))).needsUpdate
  {
  }
}
