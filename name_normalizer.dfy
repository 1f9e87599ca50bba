/**
 * Folder-name normalisation of the mod manager: `sanitize_folder_name`
 * and `generate_mod_folder_name`.
 */
module NameNormalizer {
  import opened Text

  /** The characters Windows forbids in a folder name. */
  predicate IsIllegal(c: char) {
    c == '<' || c == '>' || c == ':' || c == '"' || c == '/' || c == '\\' || c == '|' || c == '?' || c == '*'
  }

  predicate HasNoIllegal(s: string) {
    forall i :: 0 <= i < |s| ==> !IsIllegal(s[i])
  }

  predicate SpaceBetween(s: string, lo: nat, hi: nat)
    requires lo <= hi <= |s|
  {
    forall k :: lo <= k < hi ==> IsSpace(s[k])
  }

  predicate DotsBetween(s: string, lo: nat, hi: nat)
    requires lo <= hi <= |s|
  {
    forall k :: lo <= k < hi ==> s[k] == '.'
  }

  predicate SpaceOrDotBetween(s: string, lo: nat, hi: nat)
    requires lo <= hi <= |s|
  {
    forall k :: lo <= k < hi ==> IsSpace(s[k]) || s[k] == '.'
  }

  /** The version suffix used when a mod declares no version ("unknown"). */
  const UnknownVersion: string := "未知"

  function ReplaceChar(c: char): char {
    if IsIllegal(c) then '_' else c
  }

  /** `re.sub(r'[<>:"/\\|?*]', '_', s)`: one-for-one replacement. */
  function ReplaceIllegal(s: string): (r: string)
    ensures |r| == |s|
    ensures forall i :: 0 <= i < |s| ==> r[i] == ReplaceChar(s[i])
  {
    seq(|s|, i requires 0 <= i < |s| => ReplaceChar(s[i]))
  }

  /** Where `s[from..].lstrip()` starts: the first non-whitespace index at or after `from`. */
  function SkipSpace(s: string, from: nat): (k: nat)
    requires from <= |s|
    ensures from <= k <= |s| && SpaceBetween(s, from, k)
    ensures k < |s| ==> !IsSpace(s[k])
    decreases |s| - from
  {
    if from < |s| && IsSpace(s[from]) then SkipSpace(s, from + 1) else from
  }

  /** Where `s[lo..hi].rstrip()` ends. */
  function TrimSpaceEnd(s: string, lo: nat, hi: nat): (k: nat)
    requires lo <= hi <= |s|
    ensures lo <= k <= hi && SpaceBetween(s, k, hi)
    ensures lo < k ==> !IsSpace(s[k - 1])
    decreases hi - lo
  {
    if lo < hi && IsSpace(s[hi - 1]) then TrimSpaceEnd(s, lo, hi - 1) else hi
  }

  /** Where `s[lo..hi].rstrip('.')` ends. */
  function TrimDotsEnd(s: string, lo: nat, hi: nat): (k: nat)
    requires lo <= hi <= |s|
    ensures lo <= k <= hi && DotsBetween(s, k, hi)
    ensures lo < k ==> s[k - 1] != '.'
    decreases hi - lo
  {
    if lo < hi && s[hi - 1] == '.' then TrimDotsEnd(s, lo, hi - 1) else hi
  }

  /** The slice of the replaced name that sanitising keeps. */
  function SanitizeBounds(name: string): (b: (nat, nat))
    ensures b.0 <= b.1 <= |name|
  {
    var replaced := ReplaceIllegal(name);
    var lo := SkipSpace(replaced, 0);
    (lo, TrimDotsEnd(replaced, lo, TrimSpaceEnd(replaced, lo, |replaced|)))
  }

  lemma ReplacedIsLegal(c: char)
    ensures !IsIllegal(ReplaceChar(c))
  {
  }

  /** Replacement only ever writes '_', which is neither whitespace nor a dot. */
  lemma ReplaceKeepsSpaceOrDot(c: char)
    requires IsSpace(ReplaceChar(c)) || ReplaceChar(c) == '.'
    ensures ReplaceChar(c) == c
  {
  }

  /**
   * `sanitize_folder_name`: replace the illegal characters by '_', strip
   * whitespace at both ends, then strip trailing dots. The result is free of
   * illegal characters, does not start with whitespace, does not end in a
   * dot and is never longer than the input. It may still END in whitespace
   * (the dots stripped last can uncover it), so it is not idempotent.
   */
  function SanitizeFolderName(name: string): (r: string)
    ensures HasNoIllegal(r)
    ensures r != [] ==> !IsSpace(r[0]) && r[|r| - 1] != '.'
    ensures |r| <= |name|
  {
    var replaced := ReplaceIllegal(name);
    var (lo, hi) := SanitizeBounds(name);
    var r := replaced[lo..hi];
    forall i | 0 <= i < |r|
      ensures !IsIllegal(r[i])
    {
      assert r[i] == ReplaceChar(name[lo + i]);
      ReplacedIsLegal(name[lo + i]);
    }
    r
  }

  /**
   * The output of sanitising is the replaced input with whitespace cut from
   * the front and, from the back, whitespace and then dots: it is the slice
   * `[lo .. lo + |r|]` of the replaced input, the input holds whitespace
   * before `lo`, dots from `lo + |r|` to `mid` and whitespace after `mid`,
   * and each cut is as long as it can be (`strip` stops at the first
   * non-whitespace character, `rstrip('.')` at the first non-dot).
   */
  lemma SanitizeIsTrimmedSlice(name: string) returns (lo: nat, mid: nat)
    ensures lo + |SanitizeFolderName(name)| <= mid <= |name|
    ensures SanitizeFolderName(name) == ReplaceIllegal(name)[lo..lo + |SanitizeFolderName(name)|]
    ensures SpaceBetween(name, 0, lo)
    ensures DotsBetween(name, lo + |SanitizeFolderName(name)|, mid)
    ensures SpaceBetween(name, mid, |name|)
    ensures lo < |name| ==> !IsSpace(name[lo])
    ensures lo < mid ==> !IsSpace(name[mid - 1])
  {
    var replaced := ReplaceIllegal(name);
    var b := SanitizeBounds(name);
    lo := b.0;
    mid := TrimSpaceEnd(replaced, lo, |replaced|);
    assert b.1 == TrimDotsEnd(replaced, lo, mid);
    forall k | 0 <= k < lo
      ensures IsSpace(name[k])
    {
      ReplaceKeepsSpaceOrDot(name[k]);
    }
    forall k | b.1 <= k < mid
      ensures name[k] == '.'
    {
      ReplaceKeepsSpaceOrDot(name[k]);
    }
    forall k | mid <= k < |name|
      ensures IsSpace(name[k])
    {
      ReplaceKeepsSpaceOrDot(name[k]);
    }
    if lo < |name| {
      SpaceIsNotReplaced(name[lo]);
    }
    if lo < mid {
      SpaceIsNotReplaced(name[mid - 1]);
    }
  }

  /** Whitespace is never among the replaced characters. */
  lemma SpaceIsNotReplaced(c: char)
    ensures IsSpace(c) ==> ReplaceChar(c) == c
  {
  }

  /** A name that sanitising leaves alone. */
  predicate IsCleanName(s: string) {
    HasNoIllegal(s) && (s != [] ==> !IsSpace(s[0]) && !IsSpace(s[|s| - 1]) && s[|s| - 1] != '.')
  }

  lemma CleanNameIsNotReplaced(s: string)
    requires HasNoIllegal(s)
    ensures ReplaceIllegal(s) == s
  {
    var replaced := ReplaceIllegal(s);
    forall i | 0 <= i < |s|
      ensures replaced[i] == s[i]
    {
    }
  }

  /** Sanitising returns its input exactly when the input is already clean. */
  lemma SanitizeFixedPointIffClean(s: string)
    ensures SanitizeFolderName(s) == s <==> IsCleanName(s)
  {
    var replaced := ReplaceIllegal(s);
    var b := SanitizeBounds(s);
    var mid := TrimSpaceEnd(replaced, b.0, |replaced|);
    if IsCleanName(s) {
      CleanNameIsNotReplaced(s);
      assert b.0 == 0;
      assert mid == |s|;
      assert b.1 == |s|;
      assert replaced[0..|s|] == s;
    }
  }

  /**
   * Sanitising is not idempotent: the dot stripped from "a ." uncovers a
   * space that a second pass removes.
   */
  lemma SanitizeNotIdempotent()
    ensures SanitizeFolderName("a .") == "a "
    ensures SanitizeFolderName(SanitizeFolderName("a .")) == "a"
  {
    var s := "a .";
    CleanNameIsNotReplaced(s);
    assert SkipSpace(s, 0) == 0;
    assert TrimSpaceEnd(s, 0, 3) == 3;
    assert TrimDotsEnd(s, 0, 3) == 2;
    var t := "a ";
    CleanNameIsNotReplaced(t);
    assert SkipSpace(t, 0) == 0;
    assert TrimSpaceEnd(t, 0, 2) == 1;
    assert TrimDotsEnd(t, 0, 1) == 1;
  }

  /**
   * A mod identifier that sanitising cannot damage: non-empty, no illegal
   * character, no whitespace at either end and no trailing dot.
   */
  predicate IsStableId(id: string) {
    id != [] && IsCleanName(id)
  }

  /**
   * A folder name that contains a stable mod identifier still contains it
   * after sanitising, so a folder created under the sanitised name is found
   * again by the identifier on the next run.
   */
  lemma SanitizeKeepsModId(name: string, id: string)
    requires IsStableId(id) && Contains(name, id)
    ensures Contains(SanitizeFolderName(name), id)
  {
    var i := ContainsWitness(name, id);
    var r := SanitizeFolderName(name);
    var lo, _ := SanitizeIsTrimmedSlice(name);
    var replaced := ReplaceIllegal(name);
    assert name[i] == id[0];
    var last := i + |id| - 1;
    assert name[last] == id[|id| - 1];
    assert lo <= i;
    assert last < lo + |r|;
    forall k | 0 <= k < |id|
      ensures r[i - lo + k] == id[k]
    {
      assert name[i + k] == id[k];
      assert r[i - lo + k] == replaced[i + k] == ReplaceChar(name[i + k]);
    }
    assert r[i - lo..i - lo + |id|] == id;
    ContainsAt(r, id, i - lo);
  }

  lemma HasNoIllegalConcat(x: string, y: string)
    requires HasNoIllegal(x) && HasNoIllegal(y)
    ensures HasNoIllegal(x + y)
  {
  }

  /** `version or '未知'`: an empty version stands for "unknown". */
  function VersionOrUnknown(version: string): string {
    if version == "" then UnknownVersion else version
  }

  /**
   * `generate_mod_folder_name`: the standardised folder name
   * `sanitize(source) + "_" + sanitize(version or "未知")`. It is a single
   * path component (no separator or other illegal character), it starts with
   * the sanitised source folder name, the underscore follows it, and the
   * rest is the sanitised version.
   */
  function GenerateModFolderName(sourceFolderName: string, version: string): (r: string)
    ensures HasNoIllegal(r)
    ensures |SanitizeFolderName(sourceFolderName)| < |r| && r[|SanitizeFolderName(sourceFolderName)|] == '_'
    ensures StartsWith(r, SanitizeFolderName(sourceFolderName))
    ensures r[|SanitizeFolderName(sourceFolderName)| + 1..] == SanitizeFolderName(VersionOrUnknown(version))
  {
    var safeName := SanitizeFolderName(sourceFolderName);
    var safeVersion := SanitizeFolderName(VersionOrUnknown(version));
    HasNoIllegalConcat(safeName, "_");
    HasNoIllegalConcat(safeName + "_", safeVersion);
    assert (safeName + "_" + safeVersion)[..|safeName|] == safeName;
    assert (safeName + "_" + safeVersion)[|safeName| + 1..] == safeVersion;
    safeName + "_" + safeVersion
  }

  /**
   * For one source folder, two versions give the same standardised name
   * exactly when their sanitised forms (with "未知" for an empty version)
   * agree; so a version change shows in the name unless sanitising erases it.
   */
  lemma GenerateSameIffVersionPartsAgree(sourceFolderName: string, v1: string, v2: string)
    ensures GenerateModFolderName(sourceFolderName, v1) == GenerateModFolderName(sourceFolderName, v2)
        <==> SanitizeFolderName(VersionOrUnknown(v1)) == SanitizeFolderName(VersionOrUnknown(v2))
  {
    var n := |SanitizeFolderName(sourceFolderName)| + 1;
    var r1, r2 := GenerateModFolderName(sourceFolderName, v1), GenerateModFolderName(sourceFolderName, v2);
    if r1 == r2 {
      assert r1[n..] == r2[n..];
    }
  }

  lemma SanitizeKeepsUnknown()
    ensures SanitizeFolderName(UnknownVersion) == UnknownVersion
  {
    assert IsCleanName(UnknownVersion);
    SanitizeFixedPointIffClean(UnknownVersion);
  }

  /** An empty version gives the suffix "未知" verbatim. */
  lemma EmptyVersionGivesUnknownSuffix(sourceFolderName: string)
    ensures GenerateModFolderName(sourceFolderName, "")
            == SanitizeFolderName(sourceFolderName) + "_" + UnknownVersion
  {
    SanitizeKeepsUnknown();
  }

  /** The standardised name keeps every stable identifier of the source folder name. */
  lemma GenerateKeepsModId(sourceFolderName: string, version: string, id: string)
    requires IsStableId(id) && Contains(sourceFolderName, id)
    ensures Contains(GenerateModFolderName(sourceFolderName, version), id)
  {
    var safeName := SanitizeFolderName(sourceFolderName);
    SanitizeKeepsModId(sourceFolderName, id);
    var i := ContainsWitness(safeName, id);
    var r := GenerateModFolderName(sourceFolderName, version);
    assert r[..|safeName|] == safeName;
    assert r[i..i + |id|] == safeName[i..i + |id|];
    ContainsAt(r, id, i);
  }
}
