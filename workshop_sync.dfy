/** `download_collection_internal` (src/workshop_downloader.rs:181-295):
    brings an instance's mods folder in step with its Steam Workshop
    collection.

    `Sync` states the whole effect as a function of the disk before the
    call and of the outside world: the server's collections (`remote`,
    acyclic by `rank`) and upload times (`versions`), the listing of the
    mods folder, and what a steamcmd run leaves in the staging folder for
    a given command line. `ModsSync.DownloadCollection` performs the same
    steps on a disk object and is proved to match it. */
module WorkshopSync {
  import opened Wrappers
  import opened ModManifest
  import opened SteamApi
  import opened CollectionResolver
  import opened DiskInventory
  import opened Reconcile
  import opened SteamCmd
  import opened ModsFolder
  import opened Instances
  import opened Paths

  /** A steamcmd run: the downloads it leaves for a command line, or `None`
      when the process cannot be spawned. Its exit status is not consulted. */
  type SteamCmdRun = seq<string> -> Option<Staging>

  /** The removal loop; the mods folder stays a folder. */
  function RemoveAll(mods: Option<Node>, ids: seq<string>): (r: Option<Node>)
    ensures r.Some? <==> mods.Some?
    ensures mods.Some? && mods.value.Dir? ==> r.value.Dir?
  {
    if ids == [] then mods else RemoveMod(RemoveAll(mods, ids[..|ids| - 1]), ids[|ids| - 1])
  }

  function InstallAll(d: Disk, mods: seq<ModManifestMod>): (r: (Result<(), SyncError>, Disk))
    ensures r.1.manifest == d.manifest
  {
    if mods == [] then (Ok(()), d)
    else
      var prev := InstallAll(d, mods[..|mods| - 1]);
      if prev.0.Err? then prev else InstallStaged(prev.1, mods[|mods| - 1].publishedfileid)
  }

  lemma {:induction false} InstallAllStopsAtFailure(d: Disk, mods: seq<ModManifestMod>, i: nat)
    requires i <= |mods| && InstallAll(d, mods[..i]).0.Err?
    ensures InstallAll(d, mods) == InstallAll(d, mods[..i])
    decreases |mods| - i
  {
    if i < |mods| {
      assert mods[..i + 1][..i] == mods[..i];
      InstallAllStopsAtFailure(d, mods, i + 1);
    } else {
      assert mods[..i] == mods;
    }
  }

  /** Reset the staging folder, then run steamcmd in it. */
  function Download(d: Disk, argv: seq<string>, steamcmd: SteamCmdRun): (r: (Result<(), SyncError>, Disk))
    ensures r.1.mods == d.mods && r.1.manifest == d.manifest
    ensures r.0.Ok? <==> steamcmd(argv).Some?
    ensures r.1.staging == (if r.0.Ok? then steamcmd(argv) else Some(map[]))
  {
    var reset := d.(staging := ResetStaging(d.staging));
    match steamcmd(argv)
    case None => (Err(SpawnFailed), reset)
    case Some(downloads) => (Ok(()), reset.(staging := Some(downloads)))
  }

  function ManifestMods(d: Disk): seq<ModManifestMod> {
    if d.manifest.Some? then d.manifest.value.mods else []
  }

  /** The effect once the collection is known: download when something is to
      be installed, remove, install, then overwrite the manifest. On success
      the manifest is the collection; on failure it is left alone. */
  function Apply(d: Disk, collection: seq<ModManifestMod>, onDisk: seq<string>, forceInstallDir: string,
                 steamcmd: SteamCmdRun): (r: (Result<(), SyncError>, Disk))
    ensures r.0.Ok? ==> r.1.manifest == Some(ModManifestJson(collection))
    ensures r.0.Err? ==> r.1.manifest == d.manifest
  {
    var toInstall := InstallList(collection, onDisk, ManifestMods(d));
    var toRemove := RemoveList(onDisk, collection);
    var downloaded := if toInstall == [] then (Ok(()), d)
                      else Download(d, SteamCmdArgs(forceInstallDir, toInstall), steamcmd);
    if downloaded.0.Err? then downloaded
    else
      var removed := downloaded.1.(mods := RemoveAll(downloaded.1.mods, toRemove));
      var installed := InstallAll(removed, toInstall);
      if installed.0.Err? then installed
      else (Ok(()), installed.1.(manifest := Some(ModManifestJson(collection))))
  }

  // ---------------------------------------------------------------------------
  // The sync as written: the reset and the folder rename of the source
  // ---------------------------------------------------------------------------

  /** The install loop with the rename as written. */
  function InstallAllAsWritten(d: Disk, mods: seq<ModManifestMod>): (r: (Result<(), SyncError>, Disk))
    ensures r.0.Ok? ==> r == InstallAll(d, mods)
  {
    if mods == [] then (Ok(()), d)
    else
      var prev := InstallAllAsWritten(d, mods[..|mods| - 1]);
      if prev.0.Err? then prev else InstallStagedAsWritten(prev.1, mods[|mods| - 1].publishedfileid)
  }

  /** The download with the reset as written: a missing staging folder stops
      it before steamcmd runs. */
  function DownloadAsWritten(d: Disk, argv: seq<string>, steamcmd: SteamCmdRun): (r: (Result<(), SyncError>, Disk))
    ensures r.0.Ok? ==> r == Download(d, argv, steamcmd)
    ensures d.staging.None? ==> r == (Err(RemoveFailed), d)
  {
    var reset := ResetStagingAsWritten(d.staging);
    if reset.0.Err? then (reset.0, d)
    else
      match steamcmd(argv)
      case None => (Err(SpawnFailed), d.(staging := reset.1))
      case Some(downloads) => (Ok(()), d.(staging := Some(downloads)))
  }

  /** `Apply` with the reset and the rename as written. */
  function ApplyAsWritten(d: Disk, collection: seq<ModManifestMod>, onDisk: seq<string>, forceInstallDir: string,
                          steamcmd: SteamCmdRun): (r: (Result<(), SyncError>, Disk))
    ensures r.0.Ok? ==> r == Apply(d, collection, onDisk, forceInstallDir, steamcmd)
  {
    var toInstall := InstallList(collection, onDisk, ManifestMods(d));
    var toRemove := RemoveList(onDisk, collection);
    var downloaded := if toInstall == [] then (Ok(()), d)
                      else DownloadAsWritten(d, SteamCmdArgs(forceInstallDir, toInstall), steamcmd);
    if downloaded.0.Err? then downloaded
    else
      var removed := downloaded.1.(mods := RemoveAll(downloaded.1.mods, toRemove));
      var installed := InstallAllAsWritten(removed, toInstall);
      if installed.0.Err? then installed
      else (Ok(()), installed.1.(manifest := Some(ModManifestJson(collection))))
  }

  /** With no staging folder and something to install, the sync as written
      stops before downloading and nothing on disk changes, whatever steamcmd
      would do; the corrected sync goes on to run steamcmd, and fails only if
      it cannot be spawned. */
  lemma MissingStagingStopsApplyAsWritten(d: Disk, collection: seq<ModManifestMod>, onDisk: seq<string>,
                                           forceInstallDir: string, steamcmd: SteamCmdRun)
    requires d.staging.None? && InstallList(collection, onDisk, ManifestMods(d)) != []
    ensures ApplyAsWritten(d, collection, onDisk, forceInstallDir, steamcmd) == (Err(RemoveFailed), d)
    ensures var argv := SteamCmdArgs(forceInstallDir, InstallList(collection, onDisk, ManifestMods(d)));
      steamcmd(argv).None? ==>
        Apply(d, collection, onDisk, forceInstallDir, steamcmd) == (Err(SpawnFailed), d.(staging := Some(map[])))
  {
  }

  /** The collection's mods with their versions, as the two Steam queries
      return them; `None` when either query fails. */
  function RemoteCollection(remote: Remote, rank: map<string, nat>, versions: map<string, u64>, cid: string)
    : Option<seq<ModManifestMod>>
    requires Ranked(remote, rank) && cid in rank
  {
    assert AllRanked(rank, [cid]);
    match Resolve(remote, rank, [cid])
    case None => None
    case Some(children) => VersionedMods(versions, children)
  }

  function Sync(d: Disk, instance: Instance, remote: Remote, rank: map<string, nat>, versions: map<string, u64>,
                listing: seq<DirEntryResult>, forceInstallDir: string, steamcmd: SteamCmdRun): (r: (Result<(), SyncError>, Disk))
    requires Ranked(remote, rank)
    requires instance.CollectionId().Some? ==> instance.CollectionId().value in rank
    ensures instance.CollectionId().None? ==> r == (Err(NoCollectionAssigned), d)
    ensures instance.CollectionId().Some? && d.mods.Some? && !d.mods.value.Dir? ==> r == (Err(ReadDirFailed), d)
    ensures instance.CollectionId().Some? && (d.mods.None? || d.mods.value.Dir?)
              && RemoteCollection(remote, rank, versions, instance.CollectionId().value).None? ==>
              r.0 == Err(RequestFailed)
    ensures r.0.Ok? ==>
      instance.CollectionId().Some? && RemoteCollection(remote, rank, versions, instance.CollectionId().value).Some?
  {
    match instance.CollectionId()
    case None => (Err(NoCollectionAssigned), d)
    case Some(cid) =>
      var d1 := if d.mods.None? then d.(mods := Some(Dir(map[]))) else d;
      if !d1.mods.value.Dir? then (Err(ReadDirFailed), d1)
      else
        match RemoteCollection(remote, rank, versions, cid)
        case None => (Err(RequestFailed), d1)
        case Some(collection) => Apply(d1, collection, InstalledIds(listing), forceInstallDir, steamcmd)
  }

  /** `Sync` with the reset and the rename as written. Wherever it succeeds
      the corrected sync gives the same disk: the corrections only turn
      failures into successes. */
  function SyncAsWritten(d: Disk, instance: Instance, remote: Remote, rank: map<string, nat>, versions: map<string, u64>,
                         listing: seq<DirEntryResult>, forceInstallDir: string, steamcmd: SteamCmdRun)
    : (r: (Result<(), SyncError>, Disk))
    requires Ranked(remote, rank)
    requires instance.CollectionId().Some? ==> instance.CollectionId().value in rank
    ensures r.0.Ok? ==> r == Sync(d, instance, remote, rank, versions, listing, forceInstallDir, steamcmd)
  {
    match instance.CollectionId()
    case None => (Err(NoCollectionAssigned), d)
    case Some(cid) =>
      var d1 := if d.mods.None? then d.(mods := Some(Dir(map[]))) else d;
      if !d1.mods.value.Dir? then (Err(ReadDirFailed), d1)
      else
        match RemoteCollection(remote, rank, versions, cid)
        case None => (Err(RequestFailed), d1)
        case Some(collection) => ApplyAsWritten(d1, collection, InstalledIds(listing), forceInstallDir, steamcmd)
  }

  // ---------------------------------------------------------------------------
  // Properties of a sync
  // ---------------------------------------------------------------------------

  function IdSet(mods: seq<ModManifestMod>): set<string> {
    set m | m in mods :: m.publishedfileid
  }

  /** The names a mod id can occupy in the mods folder: `<id>` and `<id>.pak`. */
  function Names(ids: set<string>): set<string> {
    ids + set id | id in ids :: PakFileName(id)
  }

  /** Only entries are removed; nothing is added or changed. */
  ghost predicate Shrinks(a: Option<Node>, b: Option<Node>) {
    a.Some? && a.value.Dir? ==>
      && b.Some? && b.value.Dir?
      && b.value.entries.Keys <= a.value.entries.Keys
      && forall k :: k in b.value.entries ==> b.value.entries[k] == a.value.entries[k]
  }

  /** The removal loop only deletes, and only names of the removed ids; no
      removed id is left as a folder, and one that was not a folder is not
      left as a `.pak` file either. */
  lemma RemoveAllSpec(mods: Option<Node>, ids: seq<string>)
    ensures !(mods.Some? && mods.value.Dir?) ==> RemoveAll(mods, ids) == mods
    ensures Shrinks(mods, RemoveAll(mods, ids))
    ensures Frame(mods, RemoveAll(mods, ids), Names(set id | id in ids), {})
    ensures forall id :: id in ids ==> !HasDirAt(RemoveAll(mods, ids), id)
    ensures forall id :: id in ids && !HasDirAt(mods, id) ==> !HasFileAt(RemoveAll(mods, ids), PakFileName(id))
  {
    RemoveAllFrame(mods, ids);
    RemoveAllGone(mods, ids);
  }

  /** The removal loop only deletes, and only names of the removed ids. */
  lemma {:induction false} RemoveAllFrame(mods: Option<Node>, ids: seq<string>)
    ensures !(mods.Some? && mods.value.Dir?) ==> RemoveAll(mods, ids) == mods
    ensures Shrinks(mods, RemoveAll(mods, ids))
    ensures Frame(mods, RemoveAll(mods, ids), Names(set id | id in ids), {})
  {
    if ids != [] {
      var init, last := ids[..|ids| - 1], ids[|ids| - 1];
      var prev := RemoveAll(mods, init);
      RemoveAllFrame(mods, init);
      FrameCompose(mods, prev, RemoveAll(mods, ids), Names(set id | id in init), {}, {last, PakFileName(last)}, {});
      FrameWiden(mods, RemoveAll(mods, ids), Names(set id | id in init) + {last, PakFileName(last)}, {},
                 Names(set id | id in ids), {});
    }
  }

  /** No removed id is left as a folder, nor as a `.pak` file unless it was
      a folder to begin with. */
  lemma {:induction false} RemoveAllGone(mods: Option<Node>, ids: seq<string>)
    ensures forall id :: id in ids ==> !HasDirAt(RemoveAll(mods, ids), id)
    ensures forall id :: id in ids && !HasDirAt(mods, id) ==> !HasFileAt(RemoveAll(mods, ids), PakFileName(id))
  {
    if ids != [] {
      var init, last := ids[..|ids| - 1], ids[|ids| - 1];
      var prev := RemoveAll(mods, init);
      RemoveAllGone(mods, init);
      RemoveAllFrame(mods, init);
      forall id | id in ids
        ensures !HasDirAt(RemoveAll(mods, ids), id)
      {
        if id != last {
          assert id in init;
        }
      }
      forall id | id in ids && !HasDirAt(mods, id)
        ensures !HasFileAt(RemoveAll(mods, ids), PakFileName(id))
      {
        if id != last {
          assert id in init;
        } else {
          assert !HasDirAt(prev, id);
        }
      }
    }
  }

  /** The install loop writes only the names of the installed ids, and a
      folder only at an installed id. */
  lemma {:induction false} InstallAllFrame(d: Disk, mods: seq<ModManifestMod>)
    ensures Frame(d.mods, InstallAll(d, mods).1.mods, Names(IdSet(mods)), IdSet(mods))
  {
    if mods != [] {
      var init, last := mods[..|mods| - 1], mods[|mods| - 1];
      InstallAllFrame(d, init);
      assert IdSet(init) <= IdSet(mods) && last.publishedfileid in IdSet(mods) by {
        forall m | m in init ensures m in mods { }
      }
      var prev := InstallAll(d, init);
      if prev.0.Ok? {
        var id := last.publishedfileid;
        InstallStagedFrame(prev.1, id);
        FrameCompose(d.mods, prev.1.mods, InstallAll(d, mods).1.mods,
                     Names(IdSet(init)), IdSet(init), {id, PakFileName(id)}, {id});
      }
      FrameWiden(d.mods, InstallAll(d, mods).1.mods, Names(IdSet(init)) + {last.publishedfileid, PakFileName(last.publishedfileid)},
                 IdSet(init) + {last.publishedfileid}, Names(IdSet(mods)), IdSet(mods));
    }
  }

  /** A successful install loop deletes the staging folder of every mod it
      installed and nothing else. */
  lemma {:induction false} InstallAllClearsStaging(d: Disk, mods: seq<ModManifestMod>)
    ensures var r := InstallAll(d, mods);
      r.0.Ok? ==> r.1.staging == (if d.staging.Some? then Some(d.staging.value - IdSet(mods)) else None)
  {
    if mods == [] {
      if d.staging.Some? {
        assert d.staging.value - IdSet(mods) == d.staging.value;
      }
    } else {
      var init, last := mods[..|mods| - 1], mods[|mods| - 1];
      var prev := InstallAll(d, init);
      InstallAllClearsStaging(d, init);
      if prev.0.Ok? {
        var r := InstallStaged(prev.1, last.publishedfileid);
        assert InstallAll(d, mods) == r;
        assert IdSet(mods) == IdSet(init) + {last.publishedfileid} by {
          assert mods == init + [last];
        }
        if d.staging.Some? {
          assert d.staging.value - IdSet(init) - {last.publishedfileid} == d.staging.value - IdSet(mods);
        }
      }
    }
  }

  /** Without a collection id the sync fails and touches nothing. On success
      the manifest is exactly the collection's versioned list; on any failure
      it is the one from before. */
  lemma SyncManifest(d: Disk, instance: Instance, remote: Remote, rank: map<string, nat>, versions: map<string, u64>,
                     listing: seq<DirEntryResult>, forceInstallDir: string, steamcmd: SteamCmdRun)
    requires Ranked(remote, rank)
    requires instance.CollectionId().Some? ==> instance.CollectionId().value in rank
    ensures var r := Sync(d, instance, remote, rank, versions, listing, forceInstallDir, steamcmd);
      && (instance.CollectionId().None? ==> r == (Err(NoCollectionAssigned), d))
      && (r.0.Ok? ==>
            && instance.CollectionId().Some?
            && RemoteCollection(remote, rank, versions, instance.CollectionId().value).Some?
            && r.1.manifest == Some(ModManifestJson(RemoteCollection(remote, rank, versions, instance.CollectionId().value).value)))
      && (r.0.Err? ==> r.1.manifest == d.manifest)
  {
    match instance.CollectionId()
    case None =>
    case Some(cid) =>
      var d1 := if d.mods.None? then d.(mods := Some(Dir(map[]))) else d;
      if d1.mods.value.Dir? {
        match RemoteCollection(remote, rank, versions, cid)
        case None =>
        case Some(collection) =>
      }
  }

  /** A stale id is not the id of any mod of the collection. */
  lemma StaleNotInCollection(onDisk: seq<string>, collection: seq<ModManifestMod>, id: string)
    requires id in RemoveList(onDisk, collection)
    ensures id !in IdSet(collection)
  {
    RemoveListSpec(onDisk, collection, id);
    VersionMapKeys(collection, id);
  }

  /** Only mods of the collection are installed. */
  lemma InstallListWithin(collection: seq<ModManifestMod>, onDisk: seq<string>, manifest: seq<ModManifestMod>)
    ensures IdSet(InstallList(collection, onDisk, manifest)) <= IdSet(collection)
  {
    var toInstall := InstallList(collection, onDisk, manifest);
    forall m | m in toInstall ensures m in collection { }
  }

  /** Removing the stale ids and then installing mods of the collection
      touches only their names, and leaves no stale id as a folder. */
  lemma RemoveThenInstallFrame(mods: Option<Node>, removed: Disk, stale: seq<string>, toInstall: seq<ModManifestMod>,
                               collection: seq<ModManifestMod>)
    requires mods.Some? && mods.value.Dir?
    requires removed.mods == RemoveAll(mods, stale)
    requires IdSet(toInstall) <= IdSet(collection)
    requires forall id :: id in stale ==> id !in IdSet(collection)
    ensures var installed := InstallAll(removed, toInstall).1.mods;
      && Frame(mods, installed, Names(IdSet(collection)) + Names(set id | id in stale), IdSet(collection))
      && forall id :: id in stale ==> !HasDirAt(installed, id)
  {
    var installed := InstallAll(removed, toInstall).1.mods;
    RemoveAllSpec(mods, stale);
    InstallAllFrame(removed, toInstall);
    FrameCompose(mods, removed.mods, installed, Names(set id | id in stale), {},
                 Names(IdSet(toInstall)), IdSet(toInstall));
    FrameWiden(mods, installed, Names(set id | id in stale) + Names(IdSet(toInstall)), IdSet(toInstall),
               Names(IdSet(collection)) + Names(set id | id in stale), IdSet(collection));
    forall id | id in stale
      ensures !HasDirAt(installed, id)
    {
      assert id !in IdSet(toInstall);
    }
  }

  lemma ApplyFrame(d: Disk, collection: seq<ModManifestMod>, onDisk: seq<string>, forceInstallDir: string,
                   steamcmd: SteamCmdRun)
    requires d.mods.Some? && d.mods.value.Dir?
    ensures var stale := RemoveList(onDisk, collection);
      var r := Apply(d, collection, onDisk, forceInstallDir, steamcmd);
      && Frame(d.mods, r.1.mods, Names(IdSet(collection)) + Names(set id | id in stale), IdSet(collection))
      && (r.0.Ok? ==> forall id :: id in stale ==> !HasDirAt(r.1.mods, id))
  {
    var stale := RemoveList(onDisk, collection);
    var toInstall := InstallList(collection, onDisk, ManifestMods(d));
    var downloaded := if toInstall == [] then (Ok(()), d)
                      else Download(d, SteamCmdArgs(forceInstallDir, toInstall), steamcmd);
    assert downloaded.1.mods == d.mods;
    var r := Apply(d, collection, onDisk, forceInstallDir, steamcmd);
    if downloaded.0.Err? {
      assert r.1.mods == d.mods;
    } else {
      var removed := downloaded.1.(mods := RemoveAll(d.mods, stale));
      var installed := InstallAll(removed, toInstall);
      assert r.1.mods == installed.1.mods && (r.0.Ok? ==> installed.0.Ok?);
      InstallListWithin(collection, onDisk, ManifestMods(d));
      forall id | id in stale ensures id !in IdSet(collection) {
        StaleNotInCollection(onDisk, collection, id);
      }
      RemoveThenInstallFrame(d.mods, removed, stale, toInstall, collection);
    }
  }

  /** What a sync may change in the mods folder, whether it succeeds or not:
      only the names of the collection's mods and of the stale ids, and a
      folder only at a collection mod's id. After a successful sync no stale
      id is left as a folder. */
  lemma SyncFrame(d: Disk, instance: Instance, remote: Remote, rank: map<string, nat>, versions: map<string, u64>,
                  listing: seq<DirEntryResult>, forceInstallDir: string, steamcmd: SteamCmdRun)
    requires Ranked(remote, rank)
    requires instance.CollectionId().Some? && instance.CollectionId().value in rank
    requires RemoteCollection(remote, rank, versions, instance.CollectionId().value).Some?
    ensures var collection := RemoteCollection(remote, rank, versions, instance.CollectionId().value).value;
      var stale := RemoveList(InstalledIds(listing), collection);
      var r := Sync(d, instance, remote, rank, versions, listing, forceInstallDir, steamcmd);
      && Frame(d.mods, r.1.mods, Names(IdSet(collection)) + Names(set id | id in stale), IdSet(collection))
      && (r.0.Ok? ==> forall id :: id in stale ==> !HasDirAt(r.1.mods, id))
  {
    var collection := RemoteCollection(remote, rank, versions, instance.CollectionId().value).value;
    var d1 := if d.mods.None? then d.(mods := Some(Dir(map[]))) else d;
    if d1.mods.value.Dir? {
      assert Sync(d, instance, remote, rank, versions, listing, forceInstallDir, steamcmd)
          == Apply(d1, collection, InstalledIds(listing), forceInstallDir, steamcmd);
      ApplyFrame(d1, collection, InstalledIds(listing), forceInstallDir, steamcmd);
    }
  }

  /** With nothing to install, steamcmd is never run: the outcome does not
      depend on it and the staging folder is left as it was. */
  lemma NothingToInstallSkipsDownload(d: Disk, instance: Instance, remote: Remote, rank: map<string, nat>,
                                      versions: map<string, u64>, listing: seq<DirEntryResult>, forceInstallDir: string,
                                      steamcmd: SteamCmdRun, other: SteamCmdRun)
    requires Ranked(remote, rank)
    requires instance.CollectionId().Some? && instance.CollectionId().value in rank
    requires RemoteCollection(remote, rank, versions, instance.CollectionId().value).Some?
    requires InstallList(RemoteCollection(remote, rank, versions, instance.CollectionId().value).value,
                         InstalledIds(listing), ManifestMods(d)) == []
    ensures Sync(d, instance, remote, rank, versions, listing, forceInstallDir, steamcmd)
         == Sync(d, instance, remote, rank, versions, listing, forceInstallDir, other)
    ensures Sync(d, instance, remote, rank, versions, listing, forceInstallDir, steamcmd).1.staging == d.staging
  {
    var d1 := if d.mods.None? then d.(mods := Some(Dir(map[]))) else d;
    assert ManifestMods(d1) == ManifestMods(d);
    if d1.mods.value.Dir? {
      var collection := RemoteCollection(remote, rank, versions, instance.CollectionId().value).value;
      ApplyWithoutDownload(d1, collection, InstalledIds(listing), forceInstallDir, steamcmd, other);
    }
  }

  /** With nothing to install, applying a collection does not run steamcmd
      and leaves the staging folder alone. */
  lemma ApplyWithoutDownload(d: Disk, collection: seq<ModManifestMod>, onDisk: seq<string>, forceInstallDir: string,
                             steamcmd: SteamCmdRun, other: SteamCmdRun)
    requires InstallList(collection, onDisk, ManifestMods(d)) == []
    ensures Apply(d, collection, onDisk, forceInstallDir, steamcmd) == Apply(d, collection, onDisk, forceInstallDir, other)
    ensures Apply(d, collection, onDisk, forceInstallDir, steamcmd).1.staging == d.staging
  {
    var removed := d.(mods := RemoveAll(d.mods, RemoveList(onDisk, collection)));
    assert InstallAll(removed, []) == (Ok(()), removed);
  }

  class ModsSync {
    var mods: Option<Node>
    var staging: Option<Staging>
    var manifest: Option<ModManifestJson>

    function State(): Disk
      reads this
    {
      Disk(mods, staging, manifest)
    }

    constructor (d: Disk)
      ensures State() == d
    {
      mods := d.mods;
      staging := d.staging;
      manifest := d.manifest;
    }

    /** One step of the removal loop. */
    method RemoveInstalledMod(id: string)
      modifies this
      ensures State() == old(State()).(mods := RemoveMod(old(mods), id))
    {
      match mods {
        case Some(Dir(e)) =>
          if id in e && e[id].Dir? {
            mods := Some(Dir(e - {id}));
          } else if PakFileName(id) in e && e[PakFileName(id)].File? {
            mods := Some(Dir(e - {PakFileName(id)}));
          }
        case _ =>
      }
    }

    /** Reset the staging folder and run steamcmd in it. */
    method DownloadMods(argv: seq<string>, steamcmd: SteamCmdRun) returns (r: Result<(), SyncError>)
      modifies this
      ensures (r, State()) == Download(old(State()), argv, steamcmd)
    {
      staging := Some(map[]);
      var downloads := steamcmd(argv);
      if downloads.None? {
        return Err(SpawnFailed);
      }
      staging := downloads;
      return Ok(());
    }

    /** One step of the install loop: move the contents of the mod's staging
      folder into the mods folder, then delete the staging folder. */
    method InstallStagedMod(id: string) returns (r: Result<(), SyncError>)
      modifies this
      ensures (r, State()) == InstallStaged(old(State()), id)
    {
      if staging.None? || id !in staging.value {
        return Ok(());
      }
      var entries := staging.value[id];
      var kept: seq<StagedEntry> := [];
      var k := 0;
      while k < |entries|
        invariant 0 <= k <= |entries|
        invariant staging == old(staging) && manifest == old(manifest)
        invariant MoveStaged(id, entries, old(mods), []) == MoveStaged(id, entries[k..], mods, kept)
      {
        var entry := entries[k];
        assert entries[k..][0] == entry && entries[k..][1..] == entries[k + 1..];
        match entry {
          case Unreadable =>
            staging := Some(staging.value[id := kept + entries[k..]]);
            return Err(ReadDirFailed);
          case Staged(name, node) =>
            if node.File? && Extension(name) == Some("pak") {
              var moved := RenameFile(mods, PakFileName(id));
              if moved.Err? {
                staging := Some(staging.value[id := kept + entries[k..]]);
                return Err(moved.error);
              }
              mods := moved.value;
            } else if node.Dir? {
              var moved := ReplaceWithDir(mods, id, node);
              if moved.Err? {
                staging := Some(staging.value[id := kept + entries[k..]]);
                return Err(moved.error);
              }
              mods := moved.value;
            } else {
              kept := kept + [entry];
            }
        }
        k := k + 1;
      }
      staging := Some(staging.value - {id});
      return Ok(());
    }

    /** The removal loop (lines 256-265). */
    method RemoveMods(toRemove: seq<string>)
      modifies this
      ensures State() == old(State()).(mods := RemoveAll(old(mods), toRemove))
    {
      ghost var d := State();
      for i := 0 to |toRemove|
        invariant State() == d.(mods := RemoveAll(d.mods, toRemove[..i]))
      {
        assert toRemove[..i + 1][..i] == toRemove[..i];
        RemoveInstalledMod(toRemove[i]);
      }
      assert toRemove[..|toRemove|] == toRemove;
    }

    /** The install loop (lines 269-286): stops at the first failure. */
    method InstallMods(toInstall: seq<ModManifestMod>) returns (r: Result<(), SyncError>)
      modifies this
      ensures (r, State()) == InstallAll(old(State()), toInstall)
    {
      ghost var d := State();
      for i := 0 to |toInstall|
        invariant InstallAll(d, toInstall[..i]) == (Ok(()), State())
      {
        assert toInstall[..i + 1][..i] == toInstall[..i];
        r := InstallStagedMod(toInstall[i].publishedfileid);
        if r.Err? {
          InstallAllStopsAtFailure(d, toInstall, i + 1);
          return;
        }
      }
      assert toInstall[..|toInstall|] == toInstall;
      return Ok(());
    }

    /** Lines 209-291, once the collection and the installed ids are known. */
    method ApplyCollection(collection: seq<ModManifestMod>, modsOnDisk: seq<string>, forceInstallDir: string,
                           steamcmd: SteamCmdRun) returns (r: Result<(), SyncError>)
      modifies this
      ensures (r, State()) == Apply(old(State()), collection, modsOnDisk, forceInstallDir, steamcmd)
    {
      var modsInManifest := if manifest.Some? then manifest.value.mods else [];
      var toInstall := InstallList(collection, modsOnDisk, modsInManifest);
      var toRemove := RemoveList(modsOnDisk, collection);
      if toInstall != [] {
        var argv := SteamCmdArgs(forceInstallDir, toInstall);
        r := DownloadMods(argv, steamcmd);
        if r.Err? {
          return;
        }
      }
      RemoveMods(toRemove);
      r := InstallMods(toInstall);
      if r.Err? {
        return;
      }
      manifest := Some(ModManifestJson(collection));
      return Ok(());
    }

    method DownloadCollection(instance: Instance, remote: Remote, ghost rank: map<string, nat>,
                              versions: map<string, u64>, listing: seq<DirEntryResult>,
                              forceInstallDir: string, steamcmd: SteamCmdRun) returns (r: Result<(), SyncError>)
      requires Ranked(remote, rank)
      requires instance.CollectionId().Some? ==> instance.CollectionId().value in rank
      modifies this
      ensures (r, State()) == Sync(old(State()), instance, remote, rank, versions, listing, forceInstallDir, steamcmd)
    {
      var collectionId := instance.CollectionId();
      if collectionId.None? {
        return Err(NoCollectionAssigned);
      }
      if mods.None? {
        mods := Some(Dir(map[]));
      }
      if !mods.value.Dir? {
        return Err(ReadDirFailed);
      }
      var modsOnDisk := CollectInstalledMods(listing);
      var children := CollectModsFromCollections(remote, rank, [collectionId.value]);
      if children.None? {
        return Err(RequestFailed);
      }
      var collection := GetVersionedMods(versions, children.value);
      if collection.None? {
        return Err(RequestFailed);
      }
      r := ApplyCollection(collection.value, modsOnDisk, forceInstallDir, steamcmd);
    }
  }
}
