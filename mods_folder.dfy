/** The filesystem effects of a collection sync
    (src/workshop_downloader.rs:153-155, 254-286): removing installed mods,
    resetting the steamcmd staging folder, and moving downloaded mods from
    the staging folder into the mods folder with POSIX `rename` semantics. */
module ModsFolder {
  import opened Wrappers
  import opened Paths
  import opened ModManifest

  /** A filesystem entry; `Other` is anything that is neither a regular file
      nor a directory. */
  datatype Node = File | Dir(entries: map<string, Node>) | Other

  datatype SyncError =
    | NoCollectionAssigned
    | RequestFailed
    | ReadDirFailed
    | RemoveFailed
    | RenameFailed
    | SpawnFailed

  /** One result of reading a downloaded mod's folder. */
  datatype StagedEntry = Unreadable | Staged(name: string, node: Node)

  /** For every mod id whose folder `steamapps/workshop/content/211820/<id>`
      exists in the staging folder, that folder's entries in listing order. */
  type Staging = map<string, seq<StagedEntry>>

  /** What a sync reads and changes: the node at `<instance>/mods`, the
      staging folder (`None` when it does not exist), and the parsed
      `manifest.json` of the mods folder (`None` when missing or invalid). */
  datatype Disk = Disk(mods: Option<Node>, staging: Option<Staging>, manifest: Option<ModManifestJson>)

  function PakFileName(id: string): string {
    id + ".pak"
  }

  // ---------------------------------------------------------------------------
  // Removal (lines 256-265)
  // ---------------------------------------------------------------------------

  /** Removes the folder `<id>` if there is one, else the file `<id>.pak` if
      there is one, else nothing. */
  function RemoveMod(mods: Option<Node>, id: string): (r: Option<Node>)
    ensures r.Some? <==> mods.Some?
    ensures mods.Some? && mods.value.Dir? ==>
      (&& r.value.Dir?
       && r.value.entries.Keys <= mods.value.entries.Keys
       && mods.value.entries.Keys - r.value.entries.Keys <= {id, PakFileName(id)}
       && (forall k :: k in r.value.entries ==> r.value.entries[k] == mods.value.entries[k])
       && (id in mods.value.entries && mods.value.entries[id].Dir? ==> id !in r.value.entries)
       && (id !in mods.value.entries || !mods.value.entries[id].Dir? ==>
             PakFileName(id) !in r.value.entries || !r.value.entries[PakFileName(id)].File?))
    ensures !(mods.Some? && mods.value.Dir?) ==> r == mods
  {
    match mods
    case Some(Dir(e)) =>
      if id in e && e[id].Dir? then Some(Dir(e - {id}))
      else if PakFileName(id) in e && e[PakFileName(id)].File? then Some(Dir(e - {PakFileName(id)}))
      else mods
    case _ => mods
  }

  // ---------------------------------------------------------------------------
  // Moving a download into the mods folder (lines 276-285)
  // ---------------------------------------------------------------------------

  /** `rename` of a regular file onto `<target>` in the mods folder: replaces
      any non-directory there; fails onto a directory or when the mods folder
      is not a directory. */
  function RenameFile(mods: Option<Node>, target: string): (r: Result<Option<Node>, SyncError>)
    ensures r.Ok? <==> mods.Some? && mods.value.Dir? && !(target in mods.value.entries && mods.value.entries[target].Dir?)
    ensures r.Ok? ==>
      (&& r.value.Some? && r.value.value.Dir?
       && r.value.value.entries.Keys == mods.value.entries.Keys + {target}
       && r.value.value.entries[target] == File
       && forall k :: k in mods.value.entries && k != target ==> r.value.value.entries[k] == mods.value.entries[k])
  {
    match mods
    case Some(Dir(e)) =>
      if target in e && e[target].Dir? then Err(RenameFailed) else Ok(Some(Dir(e[target := File])))
    case _ => Err(RenameFailed)
  }

  /** `rename` of a directory onto `<target>`, as the source calls it: POSIX
      allows it only onto nothing or onto an empty directory. */
  function RenameDirAsWritten(mods: Option<Node>, target: string, node: Node): (r: Result<Option<Node>, SyncError>)
    ensures r.Ok? <==>
      mods.Some? && mods.value.Dir? && (target !in mods.value.entries || mods.value.entries[target] == Dir(map[]))
    ensures r.Ok? ==>
      (&& r.value.Some? && r.value.value.Dir?
       && r.value.value.entries.Keys == mods.value.entries.Keys + {target}
       && r.value.value.entries[target] == node
       && forall k :: k in mods.value.entries && k != target ==> r.value.value.entries[k] == mods.value.entries[k])
  {
    match mods
    case Some(Dir(e)) =>
      if target !in e then Ok(Some(Dir(e[target := node])))
      else if e[target] == Dir(map[]) then Ok(Some(Dir(e[target := node])))
      else Err(RenameFailed)
    case _ => Err(RenameFailed)
  }

  /** Updating a mod installed as a folder: the old folder `<id>` is still
      there (only mods outside the collection are removed), so the rename
      fails and the sync stops. */
  lemma UpdatingFolderModFails()
    ensures RenameDirAsWritten(Some(Dir(map["12345" := Dir(map["old.txt" := File])])), "12345",
                               Dir(map["new.txt" := File])).Err?
  {
    var e := map["12345" := Dir(map["old.txt" := File])];
    assert e["12345"] != Dir(map[]) by {
      assert "old.txt" in e["12345"].entries;
    }
  }

  /** The corrected move: whatever is at `<target>` is removed first, then the
      directory is renamed there. */
  function ReplaceWithDir(mods: Option<Node>, target: string, node: Node): (r: Result<Option<Node>, SyncError>)
    ensures r.Ok? <==> mods.Some? && mods.value.Dir?
    ensures r.Ok? ==>
      (&& r.value.Some? && r.value.value.Dir?
       && r.value.value.entries.Keys == mods.value.entries.Keys + {target}
       && r.value.value.entries[target] == node
       && forall k :: k in mods.value.entries && k != target ==> r.value.value.entries[k] == mods.value.entries[k])
  {
    match mods
    case Some(Dir(e)) => Ok(Some(Dir(e[target := node])))
    case _ => Err(RenameFailed)
  }

  /** The correction only turns failures into successes: where the rename as
      written succeeds, both give the same folder. */
  lemma ReplaceWithDirExtendsRename(mods: Option<Node>, target: string, node: Node)
    ensures RenameDirAsWritten(mods, target, node).Ok? ==>
      RenameDirAsWritten(mods, target, node) == ReplaceWithDir(mods, target, node)
    ensures RenameDirAsWritten(mods, target, node).Err? && mods.Some? && mods.value.Dir? ==>
      ReplaceWithDir(mods, target, node).Ok?
  {
  }

  /** What is left of one downloaded mod's folder after moving its contents. */
  datatype Moved = Moved(result: Result<(), SyncError>, mods: Option<Node>, left: seq<StagedEntry>)

  /** Moves the entries of `<staging>/.../<id>` in listing order: a `.pak`
      file becomes `<id>.pak`, a directory becomes `<id>`, anything else stays
      behind. An unreadable entry or a failed rename stops the move. */
  function MoveStaged(id: string, entries: seq<StagedEntry>, mods: Option<Node>, kept: seq<StagedEntry>): (r: Moved)
    ensures r.result.Ok? ==> r.left == kept + Kept(entries)
    ensures mods.Some? && mods.value.Dir? ==> r.mods.Some? && r.mods.value.Dir?
    decreases |entries|
  {
    if entries == [] then Moved(Ok(()), mods, kept)
    else match entries[0]
      case Unreadable => Moved(Err(ReadDirFailed), mods, kept + entries)
      case Staged(name, node) =>
        if node.File? && Extension(name) == Some("pak") then
          match RenameFile(mods, PakFileName(id))
          case Err(e) => Moved(Err(e), mods, kept + entries)
          case Ok(m) => MoveStaged(id, entries[1..], m, kept)
        else if node.Dir? then
          match ReplaceWithDir(mods, id, node)
          case Err(e) => Moved(Err(e), mods, kept + entries)
          case Ok(m) => MoveStaged(id, entries[1..], m, kept)
        else
          assert kept + [entries[0]] + Kept(entries[1..]) == kept + Kept(entries);
          MoveStaged(id, entries[1..], mods, kept + [entries[0]])
  }

  /** `MoveStaged` with the folder rename as written. Where it succeeds, the
      corrected move does the same. */
  function MoveStagedAsWritten(id: string, entries: seq<StagedEntry>, mods: Option<Node>, kept: seq<StagedEntry>): (r: Moved)
    ensures r.result.Ok? ==> r == MoveStaged(id, entries, mods, kept)
    decreases |entries|
  {
    if entries == [] then Moved(Ok(()), mods, kept)
    else match entries[0]
      case Unreadable => Moved(Err(ReadDirFailed), mods, kept + entries)
      case Staged(name, node) =>
        if node.File? && Extension(name) == Some("pak") then
          match RenameFile(mods, PakFileName(id))
          case Err(e) => Moved(Err(e), mods, kept + entries)
          case Ok(m) => MoveStagedAsWritten(id, entries[1..], m, kept)
        else if node.Dir? then
          ReplaceWithDirExtendsRename(mods, id, node);
          match RenameDirAsWritten(mods, id, node)
          case Err(e) => Moved(Err(e), mods, kept + entries)
          case Ok(m) => MoveStagedAsWritten(id, entries[1..], m, kept)
        else
          MoveStagedAsWritten(id, entries[1..], mods, kept + [entries[0]])
  }

  /** The entries a successful move leaves behind: neither `.pak` files nor
      directories. */
  function Kept(entries: seq<StagedEntry>): seq<StagedEntry> {
    if entries == [] then []
    else if entries[0].Staged? && !(entries[0].node.File? && Extension(entries[0].name) == Some("pak"))
            && !entries[0].node.Dir?
    then [entries[0]] + Kept(entries[1..])
    else Kept(entries[1..])
  }

  /** Installs one downloaded mod: nothing when its staging folder does not
      exist, otherwise move its contents and delete the staging folder. */
  function InstallStaged(d: Disk, id: string): (r: (Result<(), SyncError>, Disk))
    ensures r.1.manifest == d.manifest
    ensures d.mods.Some? && d.mods.value.Dir? ==> r.1.mods.Some? && r.1.mods.value.Dir?
    ensures r.0.Ok? ==> r.1.staging == (if d.staging.Some? then Some(d.staging.value - {id}) else None)
  {
    if d.staging.None? then (Ok(()), d)
    else if id !in d.staging.value then
      assert d.staging.value - {id} == d.staging.value;
      (Ok(()), d)
    else
      var moved := MoveStaged(id, d.staging.value[id], d.mods, []);
      if moved.result.Err? then (moved.result, d.(mods := moved.mods, staging := Some(d.staging.value[id := moved.left])))
      else (Ok(()), d.(mods := moved.mods, staging := Some(d.staging.value - {id})))
  }

  /** `InstallStaged` with the folder rename as written. Where it succeeds,
      the corrected install does the same. */
  function InstallStagedAsWritten(d: Disk, id: string): (r: (Result<(), SyncError>, Disk))
    ensures r.0.Ok? ==> r == InstallStaged(d, id)
  {
    if d.staging.None? || id !in d.staging.value then (Ok(()), d)
    else
      var moved := MoveStagedAsWritten(id, d.staging.value[id], d.mods, []);
      if moved.result.Err? then (moved.result, d.(mods := moved.mods, staging := Some(d.staging.value[id := moved.left])))
      else (Ok(()), d.(mods := moved.mods, staging := Some(d.staging.value - {id})))
  }

  // ---------------------------------------------------------------------------
  // What the effects may touch
  // ---------------------------------------------------------------------------

  /** From `a` to `b`, only names in `names` may appear, disappear or change,
      and a folder may appear or change only at a name in `dirNames`. */
  ghost predicate Frame(a: Option<Node>, b: Option<Node>, names: set<string>, dirNames: set<string>) {
    a.Some? && a.value.Dir? ==>
      && b.Some? && b.value.Dir?
      && (forall k :: k !in names ==> (k in a.value.entries <==> k in b.value.entries))
      && (forall k :: k !in names && k in a.value.entries ==> b.value.entries[k] == a.value.entries[k])
      && (forall k :: k in b.value.entries && b.value.entries[k].Dir? && k !in dirNames ==>
            k in a.value.entries && a.value.entries[k] == b.value.entries[k])
  }

  lemma FrameCompose(a: Option<Node>, b: Option<Node>, c: Option<Node>,
                     names1: set<string>, dirs1: set<string>, names2: set<string>, dirs2: set<string>)
    requires Frame(a, b, names1, dirs1) && Frame(b, c, names2, dirs2)
    ensures Frame(a, c, names1 + names2, dirs1 + dirs2)
  {
  }

  lemma FrameWiden(a: Option<Node>, b: Option<Node>, names: set<string>, dirs: set<string>,
                   names': set<string>, dirs': set<string>)
    requires Frame(a, b, names, dirs) && names <= names' && dirs <= dirs'
    ensures Frame(a, b, names', dirs')
  {
  }

  predicate IsPakEntry(e: StagedEntry) {
    e.Staged? && e.node.File? && Extension(e.name) == Some("pak")
  }

  predicate IsDirEntry(e: StagedEntry) {
    e.Staged? && e.node.Dir?
  }

  /** The download holds a `.pak` file. */
  predicate HasPakEntry(entries: seq<StagedEntry>) {
    exists i :: 0 <= i < |entries| && IsPakEntry(entries[i])
  }

  /** The download holds a directory. */
  predicate HasDirEntry(entries: seq<StagedEntry>) {
    exists i :: 0 <= i < |entries| && IsDirEntry(entries[i])
  }

  lemma EntriesCons(entries: seq<StagedEntry>)
    requires entries != []
    ensures HasPakEntry(entries) <==> IsPakEntry(entries[0]) || HasPakEntry(entries[1..])
    ensures HasDirEntry(entries) <==> IsDirEntry(entries[0]) || HasDirEntry(entries[1..])
  {
    if HasPakEntry(entries) && !IsPakEntry(entries[0]) {
      var i :| 0 <= i < |entries| && IsPakEntry(entries[i]);
      assert entries[1..][i - 1] == entries[i];
    }
    if HasDirEntry(entries) && !IsDirEntry(entries[0]) {
      var i :| 0 <= i < |entries| && IsDirEntry(entries[i]);
      assert entries[1..][i - 1] == entries[i];
    }
    if HasPakEntry(entries[1..]) {
      var i :| 0 <= i < |entries[1..]| && IsPakEntry(entries[1..][i]);
      assert entries[i + 1] == entries[1..][i];
    }
    if HasDirEntry(entries[1..]) {
      var i :| 0 <= i < |entries[1..]| && IsDirEntry(entries[1..][i]);
      assert entries[i + 1] == entries[1..][i];
    }
  }

  /** Moving one mod's download writes a file only at `<id>.pak` and a folder
      only at `<id>`; every other name of the mods folder is left alone,
      whether the move succeeds or stops early. */
  lemma {:induction false} MoveStagedFrame(id: string, entries: seq<StagedEntry>, mods: Option<Node>, kept: seq<StagedEntry>)
    ensures Frame(mods, MoveStaged(id, entries, mods, kept).mods, {id, PakFileName(id)}, {id})
    decreases |entries|
  {
    if entries != [] && entries[0].Staged? {
      var node := entries[0].node;
      if node.File? && Extension(entries[0].name) == Some("pak") {
        var m := RenameFile(mods, PakFileName(id));
        if m.Ok? {
          MoveStagedFrame(id, entries[1..], m.value, kept);
          FrameCompose(mods, m.value, MoveStaged(id, entries[1..], m.value, kept).mods,
                       {PakFileName(id)}, {}, {id, PakFileName(id)}, {id});
        }
      } else if node.Dir? {
        var m := ReplaceWithDir(mods, id, node);
        if m.Ok? {
          MoveStagedFrame(id, entries[1..], m.value, kept);
          FrameCompose(mods, m.value, MoveStaged(id, entries[1..], m.value, kept).mods,
                       {id}, {id}, {id, PakFileName(id)}, {id});
        }
      } else {
        MoveStagedFrame(id, entries[1..], mods, kept + [entries[0]]);
      }
    }
  }

  predicate HasFileAt(mods: Option<Node>, name: string) {
    mods.Some? && mods.value.Dir? && name in mods.value.entries && mods.value.entries[name] == File
  }

  predicate HasDirAt(mods: Option<Node>, name: string) {
    mods.Some? && mods.value.Dir? && name in mods.value.entries && mods.value.entries[name].Dir?
  }

  /** One step of a move places its own entry and keeps what earlier steps
      placed. */
  lemma MoveOnePlaces(id: string, e: StagedEntry, mods: Option<Node>, next: Option<Node>)
    requires e.Staged?
    requires IsPakEntry(e) ==> RenameFile(mods, PakFileName(id)) == Ok(next)
    requires !IsPakEntry(e) && e.node.Dir? ==> ReplaceWithDir(mods, id, e.node) == Ok(next)
    requires !IsPakEntry(e) && !e.node.Dir? ==> next == mods
    ensures IsPakEntry(e) || HasFileAt(mods, PakFileName(id)) ==> HasFileAt(next, PakFileName(id))
    ensures IsDirEntry(e) || HasDirAt(mods, id) ==> HasDirAt(next, id)
  {
    assert |id| < |PakFileName(id)|;
  }

  /** A successful move leaves a regular file at `<id>.pak` when the download
      held a `.pak` file, and a folder at `<id>` when it held a folder; what
      is already there stays. */
  lemma {:induction false} MoveStagedPlaces(id: string, entries: seq<StagedEntry>, mods: Option<Node>, kept: seq<StagedEntry>)
    ensures var r := MoveStaged(id, entries, mods, kept);
      r.result.Ok? ==>
        && (HasPakEntry(entries) || HasFileAt(mods, PakFileName(id)) ==>
              HasFileAt(r.mods, PakFileName(id)))
        && (HasDirEntry(entries) || HasDirAt(mods, id) ==>
              HasDirAt(r.mods, id))
    decreases |entries|
  {
    var r := MoveStaged(id, entries, mods, kept);
    if entries != [] && r.result.Ok? {
      var e := entries[0];
      assert e.Staged?;
      var next: Option<Node>;
      var kept' := kept;
      if IsPakEntry(e) {
        next := RenameFile(mods, PakFileName(id)).value;
      } else if e.node.Dir? {
        next := ReplaceWithDir(mods, id, e.node).value;
      } else {
        next := mods;
        kept' := kept + [e];
      }
      assert r == MoveStaged(id, entries[1..], next, kept');
      MoveOnePlaces(id, e, mods, next);
      MoveStagedPlaces(id, entries[1..], next, kept');
      EntriesCons(entries);
    }
  }

  /** Installing one downloaded mod touches only `<id>` and `<id>.pak`. */
  lemma InstallStagedFrame(d: Disk, id: string)
    ensures Frame(d.mods, InstallStaged(d, id).1.mods, {id, PakFileName(id)}, {id})
  {
    if d.staging.Some? && id in d.staging.value {
      MoveStagedFrame(id, d.staging.value[id], d.mods, []);
    }
  }

  /** A successful install of a downloaded mod puts its `.pak` file at
      `<id>.pak` and its folder at `<id>`, and deletes its staging folder. */
  lemma InstallStagedPlaces(d: Disk, id: string)
    requires d.staging.Some? && id in d.staging.value
    ensures var (r, d') := InstallStaged(d, id);
      var entries := d.staging.value[id];
      r.Ok? ==>
        && id !in d'.staging.value
        && (HasPakEntry(entries) ==> HasFileAt(d'.mods, PakFileName(id)))
        && (HasDirEntry(entries) ==> HasDirAt(d'.mods, id))
  {
    MoveStagedPlaces(id, d.staging.value[id], d.mods, []);
  }

  // ---------------------------------------------------------------------------
  // The staging folder (lines 153-155)
  // ---------------------------------------------------------------------------

  /** As written: `remove_dir_all` then `create_dir`. Removing a folder that
      does not exist is an error. */
  function ResetStagingAsWritten(staging: Option<Staging>): (r: (Result<(), SyncError>, Option<Staging>))
    ensures r.0.Ok? <==> staging.Some?
    ensures r.0.Ok? ==> r.1 == Some(map[])
    ensures r.0.Err? ==> r.1 == staging
  {
    if staging.None? then (Err(RemoveFailed), staging) else (Ok(()), Some(map[]))
  }

  /** Nothing in the program creates the staging folder, so on the first sync
      that has something to download the reset fails, the sync stops, and no
      later sync gets further. */
  lemma FirstDownloadFails()
    ensures ResetStagingAsWritten(None).0.Err?
    ensures ResetStagingAsWritten(ResetStagingAsWritten(None).1).0.Err?
  {
  }

  /** The corrected reset: remove the folder if it exists, then create it. */
  function ResetStaging(staging: Option<Staging>): (r: Option<Staging>)
  {
    Some(map[])
  }

  /** Whatever was there before, the staging folder afterwards exists and is
      empty; where the reset as written succeeds, it agrees. */
  lemma ResetStagingEmpties(staging: Option<Staging>)
    ensures ResetStaging(staging) == Some(map[])
    ensures ResetStagingAsWritten(staging).0.Ok? ==> ResetStagingAsWritten(staging).1 == ResetStaging(staging)
  {
  }
}
