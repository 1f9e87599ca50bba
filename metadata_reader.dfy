/**
 * Reading a mod folder's `ServerData.json`: the version compared by the
 * update check and the `{name, version}` record kept in `mod_info`.
 */
module MetadataReader {
  import opened Common
  import opened Manifest
  import opened FsModel
  import opened NameNormalizer

  /** `data.get('revision', {}).get('version', '')`, or `None` where `.get` raises. */
  function VersionField(d: ServerData): (r: Option<string>)
    ensures r.None? <==> d.revision.RevisionNotObject?
    ensures d.revision.NoRevision? ==> r == Some("")
    ensures d.revision.RevisionObject? && d.revision.version.None? ==> r == Some("")
    ensures d.revision.RevisionObject? && d.revision.version.Some? ==> r == d.revision.version
  {
    match d.revision
    case NoRevision => Some("")
    case RevisionObject(v) => Some(v.GetOr(""))
    case RevisionNotObject => None
  }

  /** The version a folder's metadata declares, when its metadata can be read without raising. */
  function ReadVersion(m: MetaFile): (r: Option<string>)
    ensures r.Some? <==> m.Parsed? && !m.data.revision.RevisionNotObject?
    ensures m.Parsed? ==> r == VersionField(m.data)
  {
    if m.Parsed? then VersionField(m.data) else None
  }

  /**
   * `parse_mod_info(folder, mod_id)`: the name falls back from `name` to `id`
   * to the mod id, the version is `revision.version` (empty when absent), and
   * a missing or unreadable `ServerData.json` gives the mod id and "未知".
   */
  function ParseModInfo(f: Folder, modId: string): (r: ModInfo)
    ensures ReadVersion(f.meta).None? ==> r == ModInfo(modId, UnknownVersion)
    ensures ReadVersion(f.meta).Some? ==> r.version == ReadVersion(f.meta).value
    ensures ReadVersion(f.meta).Some? && f.meta.data.name.Some? ==> r.name == f.meta.data.name.value
    ensures ReadVersion(f.meta).Some? && f.meta.data.name.None? && f.meta.data.id.Some? ==>
      r.name == f.meta.data.id.value
    ensures ReadVersion(f.meta).Some? && f.meta.data.name.None? && f.meta.data.id.None? ==> r.name == modId
  {
    match ReadVersion(f.meta)
    case None => ModInfo(modId, UnknownVersion)
    case Some(v) => ModInfo(f.meta.data.name.GetOr(f.meta.data.id.GetOr(modId)), v)
  }

  /**
   * Copying a folder whose metadata file exists over any directory makes the
   * copy parse to the same record as the source.
   */
  lemma ParseAfterCopy(dst: Folder, src: Folder, modId: string)
    requires !src.meta.NoMetaFile?
    ensures ParseModInfo(MergeFolder(dst, src), modId) == ParseModInfo(src, modId)
  {
  }

  /**
   * A mod without a version and a mod whose metadata cannot be read are given
   * the same standardised folder name.
   */
  lemma NoVersionNamedLikeUnreadable(sourceName: string, withoutVersion: Folder, unreadable: Folder, modId: string)
    requires ReadVersion(withoutVersion.meta) == Some("")
    requires ReadVersion(unreadable.meta).None?
    ensures GenerateModFolderName(sourceName, ParseModInfo(withoutVersion, modId).version)
         == GenerateModFolderName(sourceName, ParseModInfo(unreadable, modId).version)
  {
    SanitizeKeepsUnknown();
  }
}
