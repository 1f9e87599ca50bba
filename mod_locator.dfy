/**
 * Finding a mod's folder in a directory listing: the first entry, in listing
 * order, that is a directory and whose name contains the mod id.
 */
module ModLocator {
  import opened Common
  import opened Text
  import opened FsModel

  predicate IsModDir(e: Entry, modId: string) {
    e.node.Dir? && Contains(e.name, modId)
  }

  predicate NoModDirBefore(l: Listing, modId: string, k: nat)
    requires k <= |l|
  {
    forall j :: 0 <= j < k ==> !IsModDir(l[j], modId)
  }

  /** Position of the first mod directory for `modId`, or `|l|` when there is none. */
  function FirstModDir(l: Listing, modId: string): (k: nat)
    ensures k <= |l| && NoModDirBefore(l, modId, k)
    ensures k < |l| ==> IsModDir(l[k], modId)
  {
    FirstModDirFrom(l, modId, 0)
  }

  function FirstModDirFrom(l: Listing, modId: string, from: nat): (k: nat)
    requires from <= |l|
    ensures from <= k <= |l|
    ensures forall j :: from <= j < k ==> !IsModDir(l[j], modId)
    ensures k < |l| ==> IsModDir(l[k], modId)
    decreases |l| - from
  {
    if from == |l| || IsModDir(l[from], modId) then from else FirstModDirFrom(l, modId, from + 1)
  }

  /** The first mod directory is unique: any position meeting the same description is it. */
  lemma FirstModDirUnique(l: Listing, modId: string, k: nat)
    requires k <= |l| && NoModDirBefore(l, modId, k)
    requires k < |l| ==> IsModDir(l[k], modId)
    ensures FirstModDir(l, modId) == k
  {
  }

  /**
   * `find_existing_mod_path(target, mod_id)`: the name of the first directory
   * whose name contains the id, or `None` (the empty path) when there is none.
   */
  function FindExistingModPath(l: Listing, modId: string): (r: Option<string>)
    ensures r.None? <==> forall i :: 0 <= i < |l| ==> !IsModDir(l[i], modId)
    ensures r.Some? ==> exists k :: 0 <= k < |l| && l[k].name == r.value && IsModDir(l[k], modId) && NoModDirBefore(l, modId, k)
    ensures r.Some? ==> Contains(r.value, modId) && Exists(l, r.value)
    ensures r.Some? && DistinctNames(l) ==> Lookup(l, r.value).Some? && Lookup(l, r.value).value.Dir?
  {
    var k := FirstModDir(l, modId);
    if k < |l| then
      ModDirExists(l, k);
      Some(l[k].name)
    else
      None
  }

  lemma ModDirExists(l: Listing, k: nat)
    requires k < |l|
    ensures Exists(l, l[k].name)
    ensures DistinctNames(l) ==> Lookup(l, l[k].name) == Some(l[k].node)
  {
    if DistinctNames(l) {
      LookupAt(l, k);
    }
  }

  /**
   * `resolve_target_mod_path(target, mod_id, standardized)`: the first
   * directory whose name contains the id, or else the standardised name.
   */
  function ResolveTargetModPath(l: Listing, modId: string, standardized: string): (r: string)
    ensures (forall i :: 0 <= i < |l| ==> !IsModDir(l[i], modId)) ==> r == standardized
    ensures r == FindExistingModPath(l, modId).GetOr(standardized)
    ensures r != standardized ==> exists k :: 0 <= k < |l| && l[k].name == r && IsModDir(l[k], modId) && NoModDirBefore(l, modId, k)
  {
    var k := FirstModDir(l, modId);
    if k < |l| then l[k].name else standardized
  }

  /**
   * A mod found by resolving exists in the listing; a standardised fallback
   * exists only if an entry already bears that name.
   */
  lemma ResolvedExists(l: Listing, modId: string, standardized: string)
    ensures FindExistingModPath(l, modId).Some? ==> Exists(l, ResolveTargetModPath(l, modId, standardized))
    ensures FindExistingModPath(l, modId).None? ==>
      (Exists(l, ResolveTargetModPath(l, modId, standardized)) <==> Exists(l, standardized))
  {
  }
}
