/**
 * The part of the filesystem the mod manager observes. A directory listing
 * (what `os.listdir` returns, in its order) is a sequence of named entries;
 * a mod folder is a value holding its own modification time, the state of
 * its `ServerData.json` and the rest of its files keyed by relative path.
 */
module FsModel {
  import opened Common
  import opened Manifest

  type Bytes = seq<bv8>

  /** The `revision` member of `ServerData.json`. */
  datatype Revision =
    | NoRevision                              // member absent
    | RevisionObject(version: Option<string>) // an object, with or without `version`
    | RevisionNotObject                       // present but not an object (`.get` raises)

  /** The members of a `ServerData.json` object that the mod manager reads. */
  datatype ServerData = ServerData(id: Option<string>, name: Option<string>, revision: Revision)

  /** What a folder's `ServerData.json` is. */
  datatype MetaFile =
    | NoMetaFile            // no regular file of that name
    | Unparseable           // not JSON, or JSON that is not an object
    | Parsed(data: ServerData)

  datatype Folder = Folder(mtime: int, meta: MetaFile, files: map<string, Bytes>)

  /** Contents of a plain file: opaque bytes, or a `mod_info.json` written by the manager. */
  datatype FileContent = Raw(bytes: Bytes) | ModInfoFile(info: ModInfoMap)

  datatype Node = Dir(folder: Folder) | File(content: FileContent)

  datatype Entry = Entry(name: string, node: Node)

  type Listing = seq<Entry>

  predicate DistinctNames(l: Listing) {
    forall i, j :: 0 <= i < j < |l| ==> l[i].name != l[j].name
  }

  /** Position of the entry called `name`, or `|l|` when there is none. */
  function IndexOf(l: Listing, name: string): (k: nat)
    ensures k <= |l|
    ensures forall j :: 0 <= j < k ==> l[j].name != name
    ensures k < |l| ==> l[k].name == name
  {
    IndexFrom(l, name, 0)
  }

  function IndexFrom(l: Listing, name: string, from: nat): (k: nat)
    requires from <= |l|
    ensures from <= k <= |l|
    ensures forall j :: from <= j < k ==> l[j].name != name
    ensures k < |l| ==> l[k].name == name
    decreases |l| - from
  {
    if from == |l| || l[from].name == name then from else IndexFrom(l, name, from + 1)
  }

  /** `os.path.exists(join(root, name))`. */
  predicate Exists(l: Listing, name: string) {
    IndexOf(l, name) < |l|
  }

  function Lookup(l: Listing, name: string): (r: Option<Node>)
    ensures r.Some? <==> exists i :: 0 <= i < |l| && l[i].name == name
    ensures r.Some? <==> Exists(l, name)
  {
    var k := IndexOf(l, name);
    if k < |l| then Some(l[k].node) else None
  }

  /** The first position holding `name` (or `|l|`) is what `IndexOf` finds. */
  lemma IndexOfIs(l: Listing, name: string, i: nat)
    requires i <= |l|
    requires forall j :: 0 <= j < i ==> l[j].name != name
    requires i < |l| ==> l[i].name == name
    ensures IndexOf(l, name) == i
  {
  }

  /** In a listing with distinct names, the entry at position `i` is what its name looks up. */
  lemma LookupAt(l: Listing, i: nat)
    requires DistinctNames(l) && i < |l|
    ensures IndexOf(l, l[i].name) == i
    ensures Lookup(l, l[i].name) == Some(l[i].node)
  {
  }

  /** Changing the entry at one position leaves every other name where it was. */
  lemma ReplaceAtKeepsOthers(l: Listing, k: nat, e: Entry, name: string)
    requires k < |l| && e.name == l[k].name && name != e.name
    ensures IndexOf(l[k := e], name) == IndexOf(l, name)
    ensures Lookup(l[k := e], name) == Lookup(l, name)
  {
    IndexOfIs(l[k := e], name, IndexOf(l, name));
  }

  /** Appending an entry leaves every other name where it was. */
  lemma AppendKeepsOthers(l: Listing, e: Entry, name: string)
    requires name != e.name
    ensures Lookup(l + [e], name) == Lookup(l, name)
  {
    var r := l + [e];
    var a := IndexOf(l, name);
    if a < |l| {
      IndexOfIs(r, name, a);
    } else {
      IndexOfIs(r, name, |r|);
    }
  }

  /**
   * `os.rename(join(root, from), join(root, to))` where `to` does not exist:
   * the entry keeps its position and contents and only changes its name.
   */
  function RenameEntry(l: Listing, from: string, to: string): (r: Listing)
    requires Exists(l, from) && !Exists(l, to)
    ensures |r| == |l|
    ensures Lookup(r, to) == Lookup(l, from)
    ensures DistinctNames(l) ==> DistinctNames(r) && !Exists(r, from)
    ensures forall n :: n != from && n != to ==> Lookup(r, n) == Lookup(l, n)
  {
    var k := IndexOf(l, from);
    var r := l[k := Entry(to, l[k].node)];
    RenameFacts(l, from, to);
    r
  }

  lemma RenameFacts(l: Listing, from: string, to: string)
    requires Exists(l, from) && !Exists(l, to)
    ensures var k := IndexOf(l, from); var r := l[k := Entry(to, l[k].node)];
      && Lookup(r, to) == Lookup(l, from)
      && (DistinctNames(l) ==> DistinctNames(r) && !Exists(r, from))
      && forall n :: n != from && n != to ==> Lookup(r, n) == Lookup(l, n)
  {
    var k := IndexOf(l, from);
    var r := l[k := Entry(to, l[k].node)];
    IndexOfIs(r, to, k);
    if DistinctNames(l) {
      IndexOfIs(r, from, |r|);
    }
    forall n | n != from && n != to ensures Lookup(r, n) == Lookup(l, n) {
      IndexOfIs(r, n, IndexOf(l, n));
    }
  }

  /**
   * The folder `shutil.copytree(src, dst, dirs_exist_ok=True)` leaves at
   * `dst`: every file of `src` is copied over (overwriting), files only `dst`
   * has are kept, and `copystat` gives `dst` the modification time of `src`.
   */
  function MergeFolder(dst: Folder, src: Folder): (r: Folder)
    ensures r.mtime == src.mtime
    ensures r.meta == (if src.meta.NoMetaFile? then dst.meta else src.meta)
    ensures r.files.Keys == dst.files.Keys + src.files.Keys
    ensures forall p :: p in src.files ==> r.files[p] == src.files[p]
    ensures forall p :: p in dst.files && p !in src.files ==> r.files[p] == dst.files[p]
  {
    Folder(src.mtime, if src.meta.NoMetaFile? then dst.meta else src.meta, dst.files + src.files)
  }

  /** Copying the same folder a second time changes nothing. */
  lemma MergeIdempotent(dst: Folder, src: Folder)
    ensures MergeFolder(MergeFolder(dst, src), src) == MergeFolder(dst, src)
  {
    var once := MergeFolder(dst, src);
    assert once.files + src.files == once.files;
  }

  /** Copying into a fresh empty directory yields an exact copy of the source. */
  lemma MergeIntoEmpty(mtime: int, src: Folder)
    ensures MergeFolder(Folder(mtime, NoMetaFile, map[]), src) == src
  {
    assert map[] + src.files == src.files;
  }

  /**
   * `shutil.copytree(src, join(root, name), dirs_exist_ok=True)`: `None` when
   * it raises (a plain file is in the way); otherwise the new listing, where a
   * new directory is added at the end and an existing one is merged into.
   */
  function CopyTree(l: Listing, name: string, src: Folder): (r: Option<Listing>)
    ensures r.None? <==> Lookup(l, name).Some? && Lookup(l, name).value.File?
    ensures r.Some? ==> (Lookup(r.value, name) ==
      Some(Dir(if Exists(l, name) then MergeFolder(Lookup(l, name).value.folder, src) else src)))
    ensures r.Some? ==> forall n :: n != name ==> Lookup(r.value, n) == Lookup(l, n)
    ensures r.Some? && DistinctNames(l) ==> DistinctNames(r.value)
    ensures r.Some? && Exists(l, name) ==> |r.value| == |l|
    ensures r.Some? && !Exists(l, name) ==> r.value == l + [Entry(name, Dir(src))]
  {
    var k := IndexOf(l, name);
    if k == |l| then
      var e := Entry(name, Dir(src));
      assert IndexOf(l + [e], name) == |l| by {
        assert (l + [e])[|l|].name == name;
      }
      assert forall n :: n != name ==> Lookup(l + [e], n) == Lookup(l, n) by {
        forall n | n != name ensures Lookup(l + [e], n) == Lookup(l, n) {
          AppendKeepsOthers(l, e, n);
        }
      }
      Some(l + [e])
    else if l[k].node.File? then
      None
    else
      var e := Entry(name, Dir(MergeFolder(l[k].node.folder, src)));
      assert IndexOf(l[k := e], name) == k by {
        assert l[k := e][k].name == name;
      }
      assert forall n :: n != name ==> Lookup(l[k := e], n) == Lookup(l, n) by {
        forall n | n != name ensures Lookup(l[k := e], n) == Lookup(l, n) {
          ReplaceAtKeepsOthers(l, k, e, n);
        }
      }
      Some(l[k := e])
  }

  /**
   * `open(join(root, name), 'w')` followed by a write: `None` when a directory
   * is in the way; otherwise the file is created at the end or overwritten in
   * place.
   */
  function WriteFile(l: Listing, name: string, content: FileContent): (r: Option<Listing>)
    ensures r.None? <==> Lookup(l, name).Some? && Lookup(l, name).value.Dir?
    ensures r.Some? ==> Lookup(r.value, name) == Some(File(content))
    ensures r.Some? ==> forall n :: n != name ==> Lookup(r.value, n) == Lookup(l, n)
    ensures r.Some? && DistinctNames(l) ==> DistinctNames(r.value)
  {
    var k := IndexOf(l, name);
    var e := Entry(name, File(content));
    if k == |l| then
      assert IndexOf(l + [e], name) == |l| by {
        assert (l + [e])[|l|].name == name;
      }
      assert forall n :: n != name ==> Lookup(l + [e], n) == Lookup(l, n) by {
        forall n | n != name ensures Lookup(l + [e], n) == Lookup(l, n) {
          AppendKeepsOthers(l, e, n);
        }
      }
      Some(l + [e])
    else if l[k].node.Dir? then
      None
    else
      assert IndexOf(l[k := e], name) == k by {
        assert l[k := e][k].name == name;
      }
      assert forall n :: n != name ==> Lookup(l[k := e], n) == Lookup(l, n) by {
        forall n | n != name ensures Lookup(l[k := e], n) == Lookup(l, n) {
          ReplaceAtKeepsOthers(l, k, e, n);
        }
      }
      Some(l[k := e])
  }

  /** `shutil.rmtree(join(root, name))` on an existing entry: it is removed, the rest keep their order. */
  function RemoveEntry(l: Listing, name: string): (r: Listing)
    requires Exists(l, name)
    ensures |r| == |l| - 1
    ensures DistinctNames(l) ==> !Exists(r, name) && DistinctNames(r)
    ensures DistinctNames(l) ==> forall n :: n != name ==> Lookup(r, n) == Lookup(l, n)
  {
    var k := IndexOf(l, name);
    var r := l[..k] + l[k + 1..];
    RemoveFacts(l, name);
    r
  }

  lemma RemoveFacts(l: Listing, name: string)
    requires Exists(l, name)
    ensures var k := IndexOf(l, name); var r := l[..k] + l[k + 1..];
      DistinctNames(l) ==> (!Exists(r, name) && DistinctNames(r)
        && forall n :: n != name ==> Lookup(r, n) == Lookup(l, n))
  {
    var k := IndexOf(l, name);
    var r := l[..k] + l[k + 1..];
    assert forall i :: 0 <= i < |r| ==> r[i] == (if i < k then l[i] else l[i + 1]);
    if DistinctNames(l) {
      IndexOfIs(r, name, |r|);
      forall n | n != name ensures Lookup(r, n) == Lookup(l, n) {
        var a := IndexOf(l, n);
        if a < k {
          IndexOfIs(r, n, a);
        } else if a < |l| {
          IndexOfIs(r, n, a - 1);
        } else {
          IndexOfIs(r, n, |r|);
        }
      }
    }
  }
}
