/** `collect_installed_mods` (src/workshop_downloader.rs:68-96): the ids of
    the mods found in an instance's mods folder.

    The directory listing is the sequence of results `next_entry` yields
    until it reports the end: an entry whose file type may be unreadable,
    or an error for an entry that could not be read at all. */
module DiskInventory {
  import opened Wrappers
  import opened Text
  import opened Paths

  /** The file type of an entry, without following symbolic links. */
  datatype FileType = RegularFile | Directory | OtherType

  datatype DirEntryResult =
    | EntryError
    | Entry(name: string, fileType: Option<FileType>)

  /** A directory, or a regular file whose extension is `pak`, is a mod. */
  predicate IsModEntry(name: string, ft: FileType) {
    ft == Directory || (ft == RegularFile && Extension(name) == Some("pak"))
  }

  /** The id recorded for a mod entry: its name with every `.pak` removed. */
  function ModId(name: string): string {
    ReplaceAll(name, ".pak", "")
  }

  /** What one listing result contributes. */
  function IdsOf(e: DirEntryResult): (ids: seq<string>)
    ensures |ids| <= 1
  {
    if e.Entry? && e.fileType.Some? && IsModEntry(e.name, e.fileType.value) then [ModId(e.name)] else []
  }

  function InstalledIds(listing: seq<DirEntryResult>): (ids: seq<string>)
    ensures |ids| <= |listing|
  {
    if listing == [] then [] else InstalledIds(listing[..|listing| - 1]) + IdsOf(listing[|listing| - 1])
  }

  /** Reads the listing to its end, recording the id of every mod entry in
      listing order and skipping entries that cannot be read or typed. */
  method CollectInstalledMods(listing: seq<DirEntryResult>) returns (installed: seq<string>)
    ensures installed == InstalledIds(listing)
  {
    installed := [];
    var next := 0;
    while next < |listing|
      invariant 0 <= next <= |listing|
      invariant installed == InstalledIds(listing[..next])
    {
      var entry := listing[next];
      assert listing[..next + 1][..next] == listing[..next];
      next := next + 1;
      match entry {
        case EntryError =>
          continue;
        case Entry(fileName, ft) =>
          if ft.None? {
            continue;
          }
          if IsModEntry(fileName, ft.value) {
            installed := installed + [ModId(fileName)];
          }
      }
    }
    assert listing[..next] == listing;
  }

  /** A readable, typed listing entry that is a mod whose name gives `id`. */
  predicate RecordsId(e: DirEntryResult, id: string) {
    e.Entry? && e.fileType.Some? && IsModEntry(e.name, e.fileType.value) && ModId(e.name) == id
  }

  /** An id is recorded iff some readable, typed entry of the listing is a
      mod whose name gives that id. */
  lemma {:induction false} InstalledIdsSpec(listing: seq<DirEntryResult>, id: string)
    ensures id in InstalledIds(listing) <==> exists i :: 0 <= i < |listing| && RecordsId(listing[i], id)
  {
    if listing != [] {
      var n := |listing| - 1;
      var init := listing[..n];
      InstalledIdsSpec(init, id);
      assert InstalledIds(listing) == InstalledIds(init) + IdsOf(listing[n]);
      assert id in IdsOf(listing[n]) <==> RecordsId(listing[n], id);
      if id in InstalledIds(init) {
        var i :| 0 <= i < |init| && RecordsId(init[i], id);
        assert listing[i] == init[i];
      }
      if exists i :: 0 <= i < |listing| && RecordsId(listing[i], id) {
        var i :| 0 <= i < |listing| && RecordsId(listing[i], id);
        if i < n {
          assert init[i] == listing[i];
        }
      }
    }
  }

  /** The canonical names of a mod map back to its id: the folder `<id>` and
      the file `<id>.pak`, for an id without a dot. */
  lemma ModIdOfCanonicalNames(id: string)
    requires '.' !in id
    ensures ModId(id) == id
    ensures ModId(id + ".pak") == id
  {
    ReplaceAllPrefixKept(id, [], ".pak", "");
    ReplaceAllPrefixKept(id, ".pak", ".pak", "");
    assert id + [] == id;
    assert ReplaceAll(".pak", ".pak", "") == "" + ReplaceAll([], ".pak", "");
  }

  /** Every occurrence is removed, not only a trailing extension: a folder
      named `1.pakdir` is recorded as `1dir`. */
  lemma ModIdRemovesInnerOccurrences()
    ensures ModId("1.pakdir") == "1dir"
  {
    var s := "1.pakdir";
    assert s[1..][..4] == ".pak";
    assert s[1..][4..] == "dir";
    assert s[1..] == ".pak" + "dir";
    ReplaceAllPrefixKept("dir", [], ".pak", "");
    assert "dir" + [] == "dir";
    assert ReplaceAll(s[1..], ".pak", "") == "" + ReplaceAll("dir", ".pak", "");
    assert s[..4] != ".pak";
  }
}
