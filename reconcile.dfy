/** The decision step of `download_collection_internal`
    (src/workshop_downloader.rs:209-241): which mods of the collection to
    install and which installed mods to remove, from the ids found on disk,
    the manifest and the versioned collection. */
module Reconcile {
  import opened ModManifest

  // ---------------------------------------------------------------------------
  // Order-preserving filter
  // ---------------------------------------------------------------------------

  predicate IsSubsequence<T(==)>(a: seq<T>, b: seq<T>)
    decreases |b|
  {
    if a == [] then true
    else if b == [] then false
    else if a[0] == b[0] then IsSubsequence(a[1..], b[1..])
    else IsSubsequence(a, b[1..])
  }

  /** `iter().filter(p).collect()`: the elements satisfying `p`, in order,
      each as often as in `s`. */
  function Filter<T(==,!new)>(s: seq<T>, p: T -> bool): (r: seq<T>)
    ensures forall x :: x in r <==> x in s && p(x)
    ensures forall x :: multiset(r)[x] == if p(x) then multiset(s)[x] else 0
    ensures IsSubsequence(r, s)
  {
    if s == [] then []
    else
      assert s == [s[0]] + s[1..];
      if p(s[0]) then [s[0]] + Filter(s[1..], p)
      else Filter(s[1..], p)
  }

  lemma {:induction false} FilterNone<T(!new)>(s: seq<T>, p: T -> bool)
    requires forall x :: x in s ==> !p(x)
    ensures Filter(s, p) == []
  {
    if s != [] {
      FilterNone(s[1..], p);
    }
  }

  // ---------------------------------------------------------------------------
  // Maps collected from lists
  // ---------------------------------------------------------------------------

  /** The id has no later occurrence in the list. */
  predicate LastOccurrence(mods: seq<ModManifestMod>, i: int)
    requires 0 <= i < |mods|
  {
    forall j :: i < j < |mods| ==> mods[j].publishedfileid != mods[i].publishedfileid
  }

  /** `iter().map(|m| (id, version)).collect::<HashMap>()`: later inserts
      overwrite earlier ones. */
  function VersionMap(mods: seq<ModManifestMod>): (m: map<string, u64>)
  {
    if mods == [] then map[]
    else VersionMap(mods[..|mods| - 1])[mods[|mods| - 1].publishedfileid := mods[|mods| - 1].version]
  }

  /** The map has exactly the listed ids as keys... */
  lemma {:induction false} VersionMapKeys(mods: seq<ModManifestMod>, id: string)
    ensures id in VersionMap(mods) <==> exists i :: 0 <= i < |mods| && mods[i].publishedfileid == id
  {
    if mods != [] {
      var init := mods[..|mods| - 1];
      VersionMapKeys(init, id);
      if id in VersionMap(init) {
        var i :| 0 <= i < |init| && init[i].publishedfileid == id;
        assert mods[i] == init[i];
      }
      if exists i :: 0 <= i < |mods| - 1 && mods[i].publishedfileid == id {
        var i :| 0 <= i < |mods| - 1 && mods[i].publishedfileid == id;
        assert init[i] == mods[i];
      }
    }
  }

  /** ...and each id maps to the version of its last occurrence. */
  lemma {:induction false} VersionMapLast(mods: seq<ModManifestMod>, i: int)
    requires 0 <= i < |mods| && LastOccurrence(mods, i)
    ensures mods[i].publishedfileid in VersionMap(mods)
    ensures VersionMap(mods)[mods[i].publishedfileid] == mods[i].version
  {
    var init := mods[..|mods| - 1];
    if i < |mods| - 1 {
      assert init[i] == mods[i];
      assert LastOccurrence(init, i);
      VersionMapLast(init, i);
    }
  }

  predicate ShouldBeInstalled(onDisk: set<string>, manifest: map<string, u64>, m: ModManifestMod) {
    || m.publishedfileid !in onDisk
    || m.publishedfileid !in manifest
    || m.version > manifest[m.publishedfileid]
  }

  predicate ShouldBeRemoved(collection: map<string, u64>, id: string) {
    id !in collection
  }

  // ---------------------------------------------------------------------------
  // The two lists
  // ---------------------------------------------------------------------------

  function InstallList(collection: seq<ModManifestMod>, onDisk: seq<string>, manifest: seq<ModManifestMod>): (r: seq<ModManifestMod>)
  {
    var disk := set id | id in onDisk;
    var versions := VersionMap(manifest);
    Filter(collection, m => ShouldBeInstalled(disk, versions, m))
  }

  function RemoveList(onDisk: seq<string>, collection: seq<ModManifestMod>): (r: seq<string>)
  {
    var wanted := VersionMap(collection);
    Filter(onDisk, id => ShouldBeRemoved(wanted, id))
  }

  /** A mod of the collection is installed iff it is not on disk, not in the
      manifest, or newer than the manifest says; the list keeps collection
      order. In particular an up-to-date mod present on disk is never
      downloaded again. */
  lemma InstallListSpec(collection: seq<ModManifestMod>, onDisk: seq<string>, manifest: seq<ModManifestMod>, m: ModManifestMod)
    ensures m in InstallList(collection, onDisk, manifest) <==>
      m in collection && (m.publishedfileid !in onDisk || m.publishedfileid !in VersionMap(manifest)
                          || m.version > VersionMap(manifest)[m.publishedfileid])
    ensures multiset(InstallList(collection, onDisk, manifest))[m] ==
      if m.publishedfileid !in onDisk || m.publishedfileid !in VersionMap(manifest)
         || m.version > VersionMap(manifest)[m.publishedfileid]
      then multiset(collection)[m] else 0
    ensures IsSubsequence(InstallList(collection, onDisk, manifest), collection)
  {
  }

  /** An id found on disk is removed iff no mod of the collection has it; the
      list keeps disk order. */
  lemma RemoveListSpec(onDisk: seq<string>, collection: seq<ModManifestMod>, id: string)
    ensures id in RemoveList(onDisk, collection) <==>
      id in onDisk && forall i :: 0 <= i < |collection| ==> collection[i].publishedfileid != id
    ensures multiset(RemoveList(onDisk, collection))[id] ==
      if forall i :: 0 <= i < |collection| ==> collection[i].publishedfileid != id then multiset(onDisk)[id] else 0
    ensures IsSubsequence(RemoveList(onDisk, collection), onDisk)
  {
    VersionMapKeys(collection, id);
  }

  /** No id is both installed and removed. */
  lemma InstallAndRemoveDisjoint(collection: seq<ModManifestMod>, onDisk: seq<string>, manifest: seq<ModManifestMod>)
    ensures forall m :: m in InstallList(collection, onDisk, manifest) ==>
      m.publishedfileid !in RemoveList(onDisk, collection)
  {
    forall m | m in InstallList(collection, onDisk, manifest)
      ensures m.publishedfileid !in RemoveList(onDisk, collection)
    {
      var i :| 0 <= i < |collection| && collection[i] == m;
      VersionMapKeys(collection, m.publishedfileid);
    }
  }

  predicate UniqueIds(mods: seq<ModManifestMod>) {
    forall i, j :: 0 <= i < j < |mods| ==> mods[i].publishedfileid != mods[j].publishedfileid
  }

  /** Steady state: once every mod of a collection with distinct ids is on
      disk and the manifest lists exactly the collection (what a successful
      sync writes), the next sync of the same collection installs nothing;
      and when nothing else is on disk, it removes nothing. */
  lemma SyncedCollectionIsStable(collection: seq<ModManifestMod>, onDisk: seq<string>)
    requires UniqueIds(collection)
    requires forall i :: 0 <= i < |collection| ==> collection[i].publishedfileid in onDisk
    ensures InstallList(collection, onDisk, collection) == []
    ensures (forall id :: id in onDisk ==> exists i :: 0 <= i < |collection| && collection[i].publishedfileid == id)
      ==> RemoveList(onDisk, collection) == []
  {
    var versions := VersionMap(collection);
    forall m | m in collection
      ensures !ShouldBeInstalled((set id | id in onDisk), versions, m)
    {
      var i :| 0 <= i < |collection| && collection[i] == m;
      assert LastOccurrence(collection, i);
      VersionMapLast(collection, i);
    }
    FilterNone(collection, m => ShouldBeInstalled((set id | id in onDisk), versions, m));
    if forall id :: id in onDisk ==> exists i :: 0 <= i < |collection| && collection[i].publishedfileid == id {
      forall id | id in onDisk
        ensures !ShouldBeRemoved(versions, id)
      {
        VersionMapKeys(collection, id);
      }
      FilterNone(onDisk, id => ShouldBeRemoved(versions, id));
    }
  }
}
