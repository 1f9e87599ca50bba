/**
 * The `mod_info` dictionary the sync drivers fill (mod id -> name and
 * version) and that `save_mod_info_json` writes out. A Python dict keeps
 * insertion order and assigning to an existing key keeps its position, so it
 * is modelled as a sequence of (key, value) pairs with distinct keys.
 */
module Manifest {
  import opened Common

  /** The record `parse_mod_info` returns: `{'name': ..., 'version': ...}`. */
  datatype ModInfo = ModInfo(name: string, version: string)

  type ModInfoMap = seq<(string, ModInfo)>

  function KeySet(m: ModInfoMap): set<string> {
    set i | 0 <= i < |m| :: m[i].0
  }

  predicate DistinctKeys(m: ModInfoMap) {
    forall i, j :: 0 <= i < j < |m| ==> m[i].0 != m[j].0
  }

  /** Position of `key`, or `|m|` when it is absent. */
  function KeyIndex(m: ModInfoMap, key: string): (k: nat)
    ensures k <= |m|
    ensures forall j :: 0 <= j < k ==> m[j].0 != key
    ensures k < |m| ==> m[k].0 == key
  {
    KeyIndexFrom(m, key, 0)
  }

  function KeyIndexFrom(m: ModInfoMap, key: string, from: nat): (k: nat)
    requires from <= |m|
    ensures from <= k <= |m|
    ensures forall j :: from <= j < k ==> m[j].0 != key
    ensures k < |m| ==> m[k].0 == key
    decreases |m| - from
  {
    if from == |m| || m[from].0 == key then from else KeyIndexFrom(m, key, from + 1)
  }

  lemma KeyIndexIsPresence(m: ModInfoMap, key: string)
    ensures KeyIndex(m, key) < |m| <==> key in KeySet(m)
  {
    if key in KeySet(m) {
      var i :| 0 <= i < |m| && m[i].0 == key;
      assert KeyIndex(m, key) <= i;
    }
  }

  /** `m.get(key)`. */
  function Get(m: ModInfoMap, key: string): Option<ModInfo> {
    var k := KeyIndex(m, key);
    if k < |m| then Some(m[k].1) else None
  }

  /**
   * `m[key] = value`: an existing key keeps its place and takes the new
   * value; a new key goes at the end.
   */
  function Put(m: ModInfoMap, key: string, value: ModInfo): (r: ModInfoMap)
    ensures KeySet(r) == KeySet(m) + {key}
    ensures Get(r, key) == Some(value)
    ensures DistinctKeys(m) ==> DistinctKeys(r)
  {
    var k := KeyIndex(m, key);
    KeyIndexIsPresence(m, key);
    if k < |m| then
      PutReplaceFacts(m, key, value);
      m[k := (key, value)]
    else
      PutAppendFacts(m, key, value);
      m + [(key, value)]
  }

  /**
   * Assigning one key leaves every other key's value alone; an existing key
   * keeps its position and a new key is appended.
   */
  lemma PutKeepsOthers(m: ModInfoMap, key: string, value: ModInfo)
    ensures forall other :: other != key ==> Get(Put(m, key, value), other) == Get(m, other)
    ensures key in KeySet(m) ==> |Put(m, key, value)| == |m| && forall i :: 0 <= i < |m| ==> Put(m, key, value)[i].0 == m[i].0
    ensures key !in KeySet(m) ==> Put(m, key, value) == m + [(key, value)]
  {
    KeyIndexIsPresence(m, key);
    if KeyIndex(m, key) < |m| {
      PutReplaceFacts(m, key, value);
    } else {
      PutAppendFacts(m, key, value);
    }
  }

  lemma PutReplaceFacts(m: ModInfoMap, key: string, value: ModInfo)
    requires KeyIndex(m, key) < |m|
    ensures var r := m[KeyIndex(m, key) := (key, value)];
      && KeySet(r) == KeySet(m)
      && Get(r, key) == Some(value)
      && forall other :: other != key ==> Get(r, other) == Get(m, other)
  {
    var k := KeyIndex(m, key);
    var r := m[k := (key, value)];
    forall x | x in KeySet(m) ensures x in KeySet(r) {
      var i :| 0 <= i < |m| && m[i].0 == x;
      assert r[i].0 == x;
    }
    forall x | x in KeySet(r) ensures x in KeySet(m) {
      var i :| 0 <= i < |r| && r[i].0 == x;
      assert m[i].0 == x;
    }
    SameKeysSameIndex(m, r, key);
    forall other | other != key ensures Get(r, other) == Get(m, other) {
      SameKeysSameIndex(m, r, other);
    }
  }

  lemma PutAppendFacts(m: ModInfoMap, key: string, value: ModInfo)
    requires KeyIndex(m, key) == |m|
    ensures var r := m + [(key, value)];
      && KeySet(r) == KeySet(m) + {key}
      && Get(r, key) == Some(value)
      && forall other :: other != key ==> Get(r, other) == Get(m, other)
  {
    var r := m + [(key, value)];
    forall x | x in KeySet(m) ensures x in KeySet(r) {
      var i :| 0 <= i < |m| && m[i].0 == x;
      assert r[i].0 == x;
    }
    forall x | x in KeySet(r) ensures x in KeySet(m) + {key} {
      var i :| 0 <= i < |r| && r[i].0 == x;
      if i < |m| { assert m[i].0 == x; }
    }
    assert KeyIndex(r, key) == |m| by {
      assert r[|m|].0 == key;
    }
    forall other | other != key ensures Get(r, other) == Get(m, other) {
      var j := KeyIndex(m, other);
      if j == |m| {
        assert r[|m|].0 != other;
      } else {
        SameKeysSameIndexPrefix(m, r, other, j);
      }
    }
  }

  /** Two maps with the same keys position by position find every key at the same place. */
  lemma SameKeysSameIndex(m: ModInfoMap, r: ModInfoMap, key: string)
    requires |m| == |r| && forall i :: 0 <= i < |m| ==> r[i].0 == m[i].0
    ensures KeyIndex(r, key) == KeyIndex(m, key)
  {
    var a, b := KeyIndex(m, key), KeyIndex(r, key);
    if a < b {
      assert r[a].0 == key;
    }
  }

  lemma SameKeysSameIndexPrefix(m: ModInfoMap, r: ModInfoMap, key: string, j: nat)
    requires |m| <= |r| && forall i :: 0 <= i < |m| ==> r[i] == m[i]
    requires j == KeyIndex(m, key) && j < |m|
    ensures KeyIndex(r, key) == j && r[j] == m[j]
  {
  }
}
