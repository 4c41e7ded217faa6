# sbi — a Dafny model of the Starbound instance manager

sbi manages several "instances" of the game Starbound. An instance is a
folder holding `instance.json` (its name, executable, extra asset folders and
Steam workshop collection) and the game's boot configuration
`sbinit.config`. This project models the parts of sbi that decide what
happens, and proves properties of them:

- **Collection sync** (`src/workshop_downloader.rs`). The collection tree is
  resolved through the Steam Web API and each mod is versioned. Mods on
  disk are reconciled against the manifest. steamcmd downloads into a
  staging folder, stale mods are removed, downloads are moved into the
  instance's `mods` folder, and the manifest is rewritten.
  Modules: `SteamApi`, `CollectionResolver`, `DiskInventory`, `Reconcile`,
  `SteamCmd`, `ModsFolder`, `WorkshopSync`, `ModManifest`.
- **Instances on disk** (`src/instance.rs`, `src/core.rs`). Covers instance
  records and their modifications, choosing the first free folder, writing
  the record and the boot configuration, and modifying and deleting
  instances. Modules: `Instances`, `Core`, `Paths`, `Text`.
- **The terminal application** (`src/app.rs`, `src/deprecated/app.rs`).
  Covers the instance cursor, message handling, creating, deleting and
  modifying instances, and starting a collection download. It also covers
  the earlier application with its wrapping cursor, its list sorted by
  name, and its input guard while a download runs. Modules: `App`,
  `DeprecatedApp`, `Messages`.
- **Widgets and popups** (`src/tui/ui/widgets/spinner.rs`,
  `src/tui/ui/popups/*.rs`, `src/ui/popups/confirmation.rs`). Covers the
  option spinner, the list menu, the Ok/Cancel dialog, and the
  new-instance and modify-instance forms. Modules: `Ui`, `Spinners`,
  `ListSelect`, `Confirmation`, `TextAreas`, `ModifyInstancePopups`,
  `NewInstancePopups`.
- **GUI submenus** (`src/menus/duplicate_profile.rs`,
  `src/menus/new_profile.rs`). Modules: `DuplicateProfile`, `NewProfile`,
  `Application`.

Some behaviour lies outside the program and becomes a parameter:

- the network, as a map from ids to what the Steam API returns;
- steamcmd, as a function from its command line to the downloads it leaves;
- the directory scan that rereads the instance list;
- the text editor of a text field;
- the instance-name validity check;
- the home screen's key map;
- the outcome of launching the game.

Objects whose fields the source updates in place are classes: the
application, the widgets, the popups, the submenus, and the sync's view of
the disk. Their methods are proved against functions of the old state.
Values the source clones are datatypes: instances, records and the
filesystem maps.

## Model

| member | source | states |
|---|---|---|
| Instances.FromJsonInFolder | src/instance.rs:20-26 | an instance read from `<folder>/instance.json` lives in `<folder>` and every accessor returns the stored record's field |
| Instances.FromJsonWithoutFolder | src/instance.rs:21 | a json path with no parent (the empty path, the root) is rejected |
| Instances.Modify | src/instance.rs:28-34 | each modification sets exactly its own field; folder and additional assets never change |
| Instances.ModifyIdempotent | src/instance.rs:28-34 | applying a modification twice equals applying it once |
| Instances.ModifyCommutes | src/instance.rs:28-34 | modifications of different fields commute |
| Paths.Join | src/core.rs:84 | `Path::join`: an absolute argument replaces the base; a relative one ends the result and the base starts it |
| Paths.JoinInjective | src/core.rs:84-88 | two relative names joined to one base give different paths unless they are equal |
| Paths.Parent | src/instance.rs:21 | `Path::parent` yields a canonical path (no trailing separator) or nothing for the root and the empty path |
| Paths.ParentOfJoin | src/instance.rs:21 | the parent of `folder/file` is `folder` for a canonical folder and a plain file name |
| Paths.Extension | src/workshop_downloader.rs:82 | `Path::extension`: the text after the last dot, with `name = stem + "." + ext`; none for dot-less names, leading-dot names and `..` |
| Paths.PakExtension | src/workshop_downloader.rs:82 | every `<stem>.pak` with a non-empty stem has extension `pak` |
| Text.Trim | src/menus/duplicate_profile.rs:47 | `str::trim` returns a slice of the input whose removed prefix and suffix are all whitespace and whose ends are not whitespace |
| Text.Concat | src/tui/ui/popups/new_instance.rs:40-47 | `lines().join("")` of one line is that line, of none is empty |
| Text.ConcatEmpty | src/tui/ui/popups/new_instance.rs:177-178 | the joined text is empty exactly when every line is empty |
| Text.NonEmpty | src/tui/ui/popups/new_instance.rs:178 | `then_some`: `None` exactly for the empty string, otherwise the string itself |
| Text.NonEmptyRoundTrip | src/tui/ui/popups/modify_instance_executable.rs:31 | a field initialised with `unwrap_or_default()` reads back as the original option unless that was `Some("")` |
| Text.NatToStringInjective | src/core.rs:88 | different counters print as different decimal strings |
| Text.StrLeTotal | src/deprecated/app.rs:136 | `str::cmp` compares any two names one way or the other |
| Text.StrLeTransitive | src/deprecated/app.rs:136 | the name order is transitive |
| SteamApi.ToManifestModLossless | src/workshop_downloader.rs:53-57 | converting a published file to a manifest entry keeps the id and takes the upload time as the version, losing nothing |
| SteamApi.IndexKeyInjective | src/workshop_downloader.rs:111-113 | distinct positions get distinct `publishedfileids[i]` keys, so no id overwrites another |
| SteamApi.IndexKeyNotCountKey | src/workshop_downloader.rs:110-113 | no position key collides with `collectioncount` or `itemcount` |
| SteamApi.FormParams | src/workshop_downloader.rs:129-134 | the request form holds the count under its key and the i-th id under `publishedfileids[i]`, and nothing else |
| SteamApi.ParseNatToString | src/workshop_downloader.rs:130 | the decimal count the form sends parses back to the count |
| SteamApi.DecodeFormParams | src/workshop_downloader.rs:109-114 | a server decoding the form reads back exactly the ids, in order |
| SteamApi.DecodeForm | src/workshop_downloader.rs:109-114 | how a server reads a request form back into ids: the count key, then `publishedfileids[0..count)`; `DecodeFormParams` proves it inverts `FormParams` |
| SteamApi.VersionedMods | src/workshop_downloader.rs:127-139 | succeeds iff every requested id is known; one versioned record per requested mod, in request order |
| SteamApi.GetVersionedMods | src/workshop_downloader.rs:127-139 | the request and conversion loop yields the versioned records |
| CollectionResolver.Batch | src/workshop_downloader.rs:115-119 | one round fails iff a requested collection is unknown; every child returned belongs to a requested collection |
| CollectionResolver.Mods | src/workshop_downloader.rs:119 | the left part of the partition is exactly the children with `filetype == 0`, each as often as listed, in the collection's order |
| CollectionResolver.LinkedIds | src/workshop_downloader.rs:119-120 | the right part holds the id of every non-mod child and nothing else |
| CollectionResolver.BatchLinkedBelow | src/workshop_downloader.rs:108-123 | on acyclic links each round's linked collections rank strictly lower, so the worklist loop terminates |
| CollectionResolver.Resolve | src/workshop_downloader.rs:104-125 | the loop's result contains only mods |
| CollectionResolver.CollectModsFromCollections | src/workshop_downloader.rs:104-125 | the worklist loop computes the round-by-round resolution |
| CollectionResolver.ResolveIsFlattening | src/workshop_downloader.rs:98-125 | the round-by-round loop fails iff a depth-first walk of the collection tree fails, and otherwise finds the same mods with the same multiplicities |
| DiskInventory.IdsOf | src/workshop_downloader.rs:73-92 | one directory entry contributes at most one id |
| DiskInventory.InstalledIds | src/workshop_downloader.rs:68-96 | no more ids than listing entries |
| DiskInventory.CollectInstalledMods | src/workshop_downloader.rs:68-96 | the read loop records the ids of the listing, skipping unreadable entries |
| DiskInventory.InstalledIdsSpec | src/workshop_downloader.rs:78-84 | an id is recorded iff some readable, typed entry is a directory or a `.pak` file whose name maps to it |
| DiskInventory.ModIdOfCanonicalNames | src/workshop_downloader.rs:83 | the folder `<id>` and the file `<id>.pak` both map back to `<id>` |
| DiskInventory.ModIdRemovesInnerOccurrences | src/workshop_downloader.rs:83 | `.replace(".pak", "")` also removes inner occurrences (`1.pakdir` becomes `1dir`) |
| Reconcile.Filter | src/workshop_downloader.rs:234 | `filter(...).collect()` keeps exactly the satisfying elements, in order, each as often as in the input, and nothing else |
| Reconcile.VersionMapKeys | src/workshop_downloader.rs:210-211 | the collected map has exactly the listed ids as keys |
| Reconcile.VersionMapLast | src/workshop_downloader.rs:210-211 | a repeated id maps to the version of its last occurrence |
| Reconcile.InstallList | src/workshop_downloader.rs:222-234 | `filter(should_be_installed)` over the collection; `InstallListSpec` states which mods it keeps |
| Reconcile.RemoveList | src/workshop_downloader.rs:217-241 | `filter(should_be_removed)` over the ids on disk; `RemoveListSpec` states which ids it keeps |
| Reconcile.InstallListSpec | src/workshop_downloader.rs:222-234 | a collection mod is installed iff it is not on disk, not in the manifest, or newer than the manifest says; each is installed as often as the collection lists it, in collection order |
| Reconcile.RemoveListSpec | src/workshop_downloader.rs:217-241 | an id on disk is removed iff no collection mod has it, as often as it is listed on disk, in disk order |
| Reconcile.InstallAndRemoveDisjoint | src/workshop_downloader.rs:217-241 | no id is both installed and removed |
| Reconcile.SyncedCollectionIsStable | src/workshop_downloader.rs:209-291 | after a successful sync of a collection with distinct ids the next sync installs nothing, and removes nothing when nothing else is on disk |
| SteamCmd.DownloadItems | src/workshop_downloader.rs:146 | three arguments per mod |
| SteamCmd.SteamCmdArgs | src/workshop_downloader.rs:144-149 | the command line sets the install folder, logs in anonymously and ends with `+quit` |
| SteamCmd.SteamCmdArgsRoundTrip | src/workshop_downloader.rs:144-149 | steamcmd reading the command line gets back the install folder and exactly the ids to install, in order |
| SteamCmd.ItemsRoundTrip | src/workshop_downloader.rs:146-147 | the `+workshop_download_item 211820 <id>` triples parse back to the ids |
| ModsFolder.RemoveMod | src/workshop_downloader.rs:256-265 | removal deletes the folder `<id>` if there is one, else the file `<id>.pak` if there is one; no other entry changes |
| ModsFolder.RenameFile | src/workshop_downloader.rs:280 | renaming a `.pak` file succeeds iff the mods folder is a folder and `<id>.pak` is not a folder; it then holds a file at `<id>.pak` and every other entry is unchanged |
| ModsFolder.RenameDirAsWritten | src/workshop_downloader.rs:282 | renaming a downloaded folder succeeds iff the mods folder is a folder and `<id>` is absent or an empty folder; it then holds the download at `<id>` and every other entry is unchanged |
| ModsFolder.UpdatingFolderModFails | src/workshop_downloader.rs:281-282 | as written, renaming a downloaded folder onto an existing non-empty `<id>` folder fails |
| ModsFolder.ReplaceWithDir | src/workshop_downloader.rs:281-282 | the corrected move succeeds whenever the mods folder exists and places the download at `<id>`, keeping every other entry |
| ModsFolder.ReplaceWithDirExtendsRename | src/workshop_downloader.rs:281-282 | the correction agrees with the rename wherever the rename succeeds |
| ModsFolder.MoveStaged | src/workshop_downloader.rs:276-284 | after a successful move only non-mod entries are left in the staging folder; the mods folder stays a folder |
| ModsFolder.InstallStaged | src/workshop_downloader.rs:269-286 | installing a mod never touches the manifest, and on success deletes its staging folder |
| ModsFolder.MoveStagedAsWritten | src/workshop_downloader.rs:276-284 | the move with the folder rename as written; wherever it succeeds the corrected move gives the same result |
| ModsFolder.InstallStagedAsWritten | src/workshop_downloader.rs:269-286 | installing one mod with the rename as written; wherever it succeeds the corrected install gives the same result |
| ModsFolder.MoveStagedFrame | src/workshop_downloader.rs:276-284 | moving one mod writes a file only at `<id>.pak` and a folder only at `<id>`, whether it succeeds or stops early |
| ModsFolder.MoveStagedPlaces | src/workshop_downloader.rs:276-284 | a successful move leaves a file at `<id>.pak` when the download held a `.pak` file and a folder at `<id>` when it held a folder |
| ModsFolder.InstallStagedFrame | src/workshop_downloader.rs:269-286 | installing one mod touches only `<id>` and `<id>.pak` |
| ModsFolder.InstallStagedPlaces | src/workshop_downloader.rs:269-286 | a successful install removes the staging entry and places the mod's file or folder |
| ModsFolder.FirstDownloadFails | src/workshop_downloader.rs:153-155 | as written, resetting a staging folder that does not exist fails, and keeps failing on every later sync |
| ModsFolder.ResetStagingAsWritten | src/workshop_downloader.rs:154-155 | the reset as written succeeds iff the staging folder exists, leaving it empty; on failure nothing changes |
| ModsFolder.ResetStaging | src/workshop_downloader.rs:154-155 | the corrected reset; `ResetStagingEmpties` states that it always leaves an empty staging folder |
| ModsFolder.ResetStagingEmpties | src/workshop_downloader.rs:153-155 | the corrected reset always leaves an empty staging folder and agrees with the original wherever that succeeds |
| WorkshopSync.InstallAll | src/workshop_downloader.rs:269-286 | the install loop never touches the manifest |
| WorkshopSync.InstallAllStopsAtFailure | src/workshop_downloader.rs:269-286 | the first failing mod stops the loop; later mods are not processed |
| WorkshopSync.RemoveAll | src/workshop_downloader.rs:256-265 | the removal loop keeps the mods folder present and a folder |
| WorkshopSync.Download | src/workshop_downloader.rs:142-175 | the staging folder is reset and then holds exactly what steamcmd left; it fails iff steamcmd cannot be spawned, leaving the staging folder empty; the mods folder and the manifest are untouched |
| WorkshopSync.ManifestMods | src/workshop_downloader.rs:199-205 | the manifest's mods, or none when there is no manifest; `Reconcile.InstallListSpec` uses it as the manifest list |
| WorkshopSync.Apply | src/workshop_downloader.rs:209-294 | once the collection is known: on success the manifest is the collection, on failure it is left alone |
| WorkshopSync.RemoteCollection | src/workshop_downloader.rs:196-197 | the resolved collection with its versions; `CollectionResolver` and `SteamApi.VersionedMods` state its properties |
| WorkshopSync.Sync | src/workshop_downloader.rs:181-295 | without a collection id nothing changes and the sync fails; a mods path that is not a folder fails the listing with nothing changed; a failed Steam query fails it; success needs a resolved collection |
| WorkshopSync.InstallAllAsWritten | src/workshop_downloader.rs:269-286 | the install loop with the rename as written; wherever it succeeds the corrected loop gives the same result |
| WorkshopSync.DownloadAsWritten | src/workshop_downloader.rs:142-175 | the download with the reset as written: without a staging folder it fails before steamcmd runs and nothing changes; wherever it succeeds it agrees with `Download` |
| WorkshopSync.ApplyAsWritten | src/workshop_downloader.rs:209-294 | the source's steps once the collection is known; wherever they succeed the corrected `Apply` gives the same result |
| WorkshopSync.MissingStagingStopsApplyAsWritten | src/workshop_downloader.rs:246-250 | with something to install and no staging folder the sync as written fails and changes nothing, whatever steamcmd does; the corrected one runs steamcmd |
| WorkshopSync.SyncAsWritten | src/workshop_downloader.rs:181-295 | the whole sync as written; wherever it succeeds the corrected `Sync` gives the same disk, so the corrections only turn failures into successes |
| WorkshopSync.RemoveAllSpec | src/workshop_downloader.rs:256-265 | the removal loop only deletes, and only names of removed ids; no removed id is left as a folder, nor as a `.pak` file when it was not a folder |
| WorkshopSync.InstallAllFrame | src/workshop_downloader.rs:269-286 | the install loop writes only the names of the installed ids |
| WorkshopSync.InstallAllClearsStaging | src/workshop_downloader.rs:269-286 | a successful install loop deletes the staging folder of every installed mod and nothing else |
| WorkshopSync.SyncManifest | src/workshop_downloader.rs:181-295 | without a collection id the sync fails and changes nothing; on success the manifest is exactly the resolved collection; on failure it is unchanged |
| WorkshopSync.StaleNotInCollection | src/workshop_downloader.rs:217-220 | a removed id belongs to no collection mod |
| WorkshopSync.RemoveThenInstallFrame | src/workshop_downloader.rs:256-286 | removing stale ids and then installing collection mods changes only their names, and leaves no stale id as a folder |
| WorkshopSync.ApplyFrame | src/workshop_downloader.rs:209-291 | once the collection is known, the mods folder changes only at names of collection and stale ids |
| WorkshopSync.SyncFrame | src/workshop_downloader.rs:181-295 | a whole sync, successful or not, changes the mods folder only at names of collection and stale ids, and a successful one leaves no stale id as a folder |
| WorkshopSync.NothingToInstallSkipsDownload | src/workshop_downloader.rs:246-250 | with nothing to install steamcmd is never run: the result does not depend on it and the staging folder is untouched |
| WorkshopSync.ModsSync.RemoveInstalledMod | src/workshop_downloader.rs:257-264 | one removal step updates the mods folder as `RemoveMod` |
| WorkshopSync.ModsSync.DownloadMods | src/workshop_downloader.rs:142-175 | reset the staging folder, then run steamcmd |
| WorkshopSync.ModsSync.InstallStagedMod | src/workshop_downloader.rs:270-285 | one install step updates the disk as `InstallStaged` |
| WorkshopSync.ModsSync.RemoveMods | src/workshop_downloader.rs:256-265 | the removal loop updates the disk as `RemoveAll` |
| WorkshopSync.ModsSync.InstallMods | src/workshop_downloader.rs:269-286 | the install loop updates the disk as `InstallAll`, stopping at the first failure |
| WorkshopSync.ModsSync.ApplyCollection | src/workshop_downloader.rs:209-291 | decide, download if needed, remove, install and write the manifest, as `Apply` |
| WorkshopSync.ModsSync.DownloadCollection | src/workshop_downloader.rs:177-195 | the whole sync updates the disk as `Sync` |
| Core.ChooseExecutable | src/core.rs:28-33 | the instance's executable when it is configured, else the default executable, else none |
| Core.AssetPath | src/core.rs:56-62 | a relative additional asset lies in the instance folder; an absolute one is kept verbatim |
| Core.AdditionalAssetPaths | src/core.rs:53-64 | one asset path per additional asset |
| Core.ExecutableAssets | src/core.rs:44-52 | the executable's own asset folder when it has one |
| Core.BootConfigSpec | src/core.rs:25-73 | the boot configuration fails only when no executable resolves or the binary has no folder (a panic in the source, see `ExecutableAssets` under Left out); assets are vanilla, `mods`, the executable's assets, then the additional ones; storage is `<folder>/storage` |
| Core.BootConfigFor | src/core.rs:25-73 | the configuration `write_sbinit_config` writes; `BootConfigSpec` states its contents and when it fails |
| Core.WriteSbinitConfig | src/core.rs:25-73 | the write succeeds iff the configuration resolves and the folder exists; it then sets only that folder's boot configuration; on failure nothing changes |
| Core.WriteInstance | src/core.rs:8-14 | the folder is created if needed and holds the record; no other folder changes |
| Core.WriteBoth | src/core.rs:91-93 | the record is always written; the write succeeds iff the boot configuration resolves, and then the folder holds it |
| Core.Sanitize | src/core.rs:83 | every space becomes `_`; nothing else changes |
| Core.FolderName | src/core.rs:84-88 | every retry `name_k` extends the name |
| Core.FolderNameHasNoSpaces | src/core.rs:83-88 | no folder name tried contains a space |
| Core.FolderNameAbsolute | src/core.rs:84-88 | every retry is absolute exactly when the name is |
| Core.FolderNameInjective | src/core.rs:84-88 | different retries give different folder names |
| Core.CandidateInjective | src/core.rs:84-90 | different retries name different folders |
| Core.CandidatesCount | src/core.rs:87-90 | only as many retries as there are existing entries can fail, so the loop ends |
| Core.FirstFreeUnique | src/core.rs:84-90 | the first free folder is unique |
| Core.FirstFreeFolder | src/core.rs:84-90 | the retry loop returns the first candidate that does not exist |
| Core.CreateInstance | src/core.rs:82-94 | the instance goes into the first free folder of the sanitized name |
| Core.CreateIn | src/core.rs:91-93 | writing the new record and its boot configuration into the chosen folder; `CreateInstanceSpec` states the effect |
| Core.CreateInstanceSpec | src/core.rs:82-94 | creation adds exactly one new folder, never an existing one, with no spaces in its name, holding the record and, when an executable resolves, its boot configuration |
| Core.ModifyInstance | src/core.rs:113-117 | apply the modification, then write record and boot configuration; `ModifyInstanceSpec` states the effect |
| Core.ModifyInstanceSpec | src/core.rs:113-117 | the folder holds the modified record and the boot configuration computed from it; no other folder changes |
| Core.DeleteInstance | src/core.rs:102-105 | the folder is gone afterwards; a missing folder is an error |
| Ui.Dec | src/app.rs:276-278 | `saturating_sub(1)`: zero stays zero, otherwise one less |
| Ui.IncUpTo | src/tui/ui/popups/new_instance.rs:151 | `saturating_add(1).min(bound)`: one step towards the bound, never past it |
| Ui.MoveFocus | src/tui/ui/popups/new_instance.rs:146-153 | Up and Down move the form focus and keep it within its rows; other events leave it |
| Spinners.Spinner.constructor | src/tui/ui/widgets/spinner.rs:20-31 | the first option is selected; arrows `<` and `>` |
| Spinners.Spinner.SpinLeft | src/tui/ui/widgets/spinner.rs:32-34 | one option left, stopping at the first |
| Spinners.Spinner.SpinRight | src/tui/ui/widgets/spinner.rs:36-38 | one option right, stopping at the last; the selection stays valid |
| Spinners.Spinner.SetHideUnavailableMove | src/tui/ui/widgets/spinner.rs:48-50 | only the flag changes |
| Spinners.Spinner.SetOptionIndex | src/tui/ui/widgets/spinner.rs:57-59 | sets the index without a bounds check |
| Spinners.Spinner.OptionValue | src/tui/ui/widgets/spinner.rs:51-53 | the selected value is one of the options |
| Spinners.Spinner.Input | src/tui/ui/widgets/spinner.rs:64-76 | Left and Right spin and are reported as handled; every other key is ignored and not reported |
| Spinners.Spinner.LeftArrow | src/tui/ui/widgets/spinner.rs:84-110 | the left arrow is blank exactly when moving left is impossible and unavailable moves are hidden |
| Spinners.Spinner.RightArrow | src/tui/ui/widgets/spinner.rs:84-110 | the same for the right arrow |
| Spinners.ArrowsMatchMoves | src/tui/ui/widgets/spinner.rs:32-38 | an arrow is unavailable exactly when its move would not change the selection |
| TextAreas.OptionalText | src/tui/ui/popups/modify_instance_executable.rs:142-143 | a text field reads as `None` exactly when all its lines are empty, otherwise as their join |
| TextAreas.TextArea.constructor | src/tui/ui/popups/modify_instance_executable.rs:31 | the text area starts with the given lines |
| TextAreas.TextArea.Input | src/tui/ui/popups/new_instance.rs:161 | the editor's edit is applied; the text area reports a change exactly when the lines differ |
| TextAreas.TextArea.Text | src/tui/ui/popups/new_instance.rs:40-42 | a one-line text area reads as that line |
| ListSelect.StepSpec | src/tui/ui/popups/list_select.rs:45-62 | Enter closes the list exactly when the selection names an item; no event cancels; only Up and Down move a valid selection, which stays valid |
| ListSelect.ListSelectPopup.constructor | src/tui/ui/popups/list_select.rs:18-28 | the first item is selected; highlighted lines are light yellow; the border is drawn |
| ListSelect.ListSelectPopup.SetTextStyle | src/tui/ui/popups/list_select.rs:29-32 | only the text style changes |
| ListSelect.ListSelectPopup.SetHighlightedTextStyle | src/tui/ui/popups/list_select.rs:33-36 | only the highlighted style changes |
| ListSelect.ListSelectPopup.SetBlock | src/tui/ui/popups/list_select.rs:37-40 | only the border changes |
| ListSelect.ListSelectPopup.HandleEvent | src/tui/ui/popups/list_select.rs:45-62 | the selection and the returned signal follow `Step` |
| ListSelect.ListSelectPopup.LineStyle | src/tui/ui/popups/list_select.rs:74-77 | a line is highlighted exactly when it is selected |
| ListSelect.ListSelectPopup.Consume | src/tui/ui/popups/list_select.rs:84-90 | the selected item's message comes out and that item is removed; with no item selected nothing happens |
| Confirmation.StepSpec | src/ui/popups/confirmation.rs:23-42 | the index stays on a button; Left highlights Ok and Right Cancel; Enter confirms exactly on Ok and cancels exactly on Cancel |
| Confirmation.ConfirmationPopup.constructor | src/ui/popups/confirmation.rs:15-19 | Cancel is highlighted first and the message is held |
| Confirmation.ConfirmationPopup.HandleEvent | src/ui/popups/confirmation.rs:23-42 | the index and the returned signal follow `Step` |
| Confirmation.ConfirmationPopup.Consume | src/ui/popups/confirmation.rs:82-84 | the held message comes out once |
| ModifyInstancePopups.ExecutableOptions | src/tui/ui/popups/modify_instance_executable.rs:18-20 | "Default" comes first, then the executables in order |
| ModifyInstancePopups.Position | src/tui/ui/popups/modify_instance_executable.rs:22 | `position` finds the first occurrence, or reports absence |
| ModifyInstancePopups.InitialIndexSpec | src/tui/ui/popups/modify_instance_executable.rs:21-29 | the spinner starts on the instance's executable, on "Default" when it has none, and on "Default" when it is no longer configured |
| ModifyInstancePopups.Edits | src/tui/ui/popups/modify_instance_executable.rs:138-146 | consuming yields an executable edit (none on "Default") and a collection edit (none when the field is empty) |
| ModifyInstancePopups.UneditedConfirmKeepsInstance | src/tui/ui/popups/modify_instance_executable.rs:17-41 | confirming without edits leaves a configured instance unchanged |
| ModifyInstancePopups.UnconfiguredExecutableIsDropped | src/tui/ui/popups/modify_instance_executable.rs:21-22 | confirming without edits clears an executable that is no longer configured |
| ModifyInstancePopups.ModifyInstancePopup.constructor | src/tui/ui/popups/modify_instance_executable.rs:17-41 | the spinner lists the options at the initial index and hides unavailable moves; the collection field holds the instance's collection id |
| ModifyInstancePopups.ModifyInstancePopup.HandleEvent | src/tui/ui/popups/modify_instance_executable.rs:79-107 | Up and Down move the focus; Enter on `[Ok]` closes; other key presses reach the focused field only |
| ModifyInstancePopups.ModifyInstancePopup.Consume | src/tui/ui/popups/modify_instance_executable.rs:138-146 | the edits for the spinner and the collection field |
| NewInstancePopups.ChosenExecutable | src/tui/ui/popups/new_instance.rs:50-55 | "Default" means no executable; otherwise the selected one |
| NewInstancePopups.Record | src/tui/ui/popups/new_instance.rs:174-181 | the record holds the typed name, the chosen executable, no extra assets, and the collection id when one was typed |
| NewInstancePopups.UntouchedRecord | src/tui/ui/popups/new_instance.rs:18-37 | an untouched form asks for an unnamed instance with the default executable and no collection |
| NewInstancePopups.NewInstancePopup.constructor | src/tui/ui/popups/new_instance.rs:18-37 | empty fields, "Default" selected, focus on the name |
| NewInstancePopups.NewInstancePopup.Executable | src/tui/ui/popups/new_instance.rs:50-55 | none exactly at "Default" |
| NewInstancePopups.NewInstancePopup.HandleEvent | src/tui/ui/popups/new_instance.rs:134-170 | Enter on `[Ok]` closes only for a valid name; Up and Down move the focus; other key presses reach the focused field only |
| NewInstancePopups.NewInstancePopup.Consume | src/tui/ui/popups/new_instance.rs:174-181 | the record of the instance to create |
| Messages.FromSignal | src/ui/popups/mod.rs:11-20 | a popup's close and cancel signals become the matching application messages |
| Messages.Consume | src/ui/popups/mod.rs:11-20 | consuming a popup yields what `Popup.Consumed` says of it beforehand: the menu's chosen message (none past the end), the dialog's message, the form's edits or the new record |
| Messages.Signalled | src/ui/popups/mod.rs:11-20 | no signal gives no message; close and cancel become `ClosePopup` and `ClosePopupNoOp`, and back |
| Messages.Handled | src/ui/popups/mod.rs:11-20 | one event through the boxed popup's own `handle_event` (the menu's, the dialog's, either form's): only key events act; the menu keeps its items, the dialog its message, a form its options with the selection on one of them; only a dialog cancels |
| Messages.HandleEvent | src/ui/popups/mod.rs:11-20 | the popup's new state and the returned message are exactly `Handled` of its state before: the concrete popup's handler decides both |
| App.AppConfig | src/app.rs:173-187 | the default executable is "vanilla" |
| App.GetInstance | src/app.rs:247-254 | succeeds iff the index is in range; otherwise reports the index and the count |
| App.ScrollUp | src/app.rs:276-278 | `saturating_sub(1)`; `ScrollSpec` states its properties |
| App.ScrollDown | src/app.rs:280-285 | `saturating_add(1).min(len.saturating_sub(1))`; `ScrollSpec` states its properties |
| App.ScrollSpec | src/app.rs:276-285 | scrolling stays within a non-empty list and clamps at both ends |
| App.Refresh | src/app.rs:235-240 | rereading replaces only the instance list |
| App.CreateInFolderAsWritten | src/app.rs:293-308 | creation as written, configuring the instance under the cursor; `FirstCreateAsWrittenFails` and `CreateAsWrittenSkipsNewBootConfig` state what goes wrong |
| App.FirstCreateAsWrittenFails | src/app.rs:293-308 | as written, creating the first instance fails after the record is written: no boot configuration, list not reread |
| App.CreateAsWrittenSkipsNewBootConfig | src/app.rs:302-305 | as written, the new folder never gets its boot configuration |
| App.CreateInFolder | src/app.rs:293-308 | the corrected creation never changes the quit flag or the pending downloads |
| App.CreateInFolderSpec | src/app.rs:293-308 | the corrected creation adds one folder holding the record and its boot configuration, rereads the list on success, and keeps the cursor and the other folders |
| App.DeleteCurrent | src/app.rs:309-315 | fails with nothing changed iff there is no current instance or its folder is missing; otherwise removes the folder, rereads the list and scrolls up |
| App.ModifyCurrent | src/app.rs:464-471 | never moves the cursor or changes the quit flag |
| App.ModifyCurrentSpec | src/app.rs:464-471 | the modified instance reaches disk, record and boot configuration; no other folder changes; the list is reread on success |
| App.ModifyAll | src/app.rs:525-529 | the modification loop keeps the cursor and the quit flag |
| App.ModifyAllWithoutCurrent | src/app.rs:464-471 | with no current instance every modification only rereads the list and no folder changes |
| App.InstallCollectionStep | src/app.rs:473-489 | a download of the current instance is started if there is one; nothing else changes |
| App.Lift | src/app.rs:491-535 | an operation's failure is the handler's failure; success returns no message |
| App.AppSbi.constructor | src/app.rs:173-187 | no popup, no instances, cursor at 0, not quitting |
| App.AppSbi.Quit | src/app.rs:214-216 | only the quit flag is set |
| App.AppSbi.SetInstances | src/app.rs:242-245 | only the list changes; the cursor stays |
| App.AppSbi.Instance | src/app.rs:247-254 | the lookup follows `GetInstance` |
| App.AppSbi.ScrollInstancesUp | src/app.rs:276-278 | only the cursor moves, as `ScrollUp` |
| App.AppSbi.ScrollInstancesDown | src/app.rs:280-285 | only the cursor moves, as `ScrollDown` |
| App.AppSbi.OpenPopup | src/app.rs:287-289 | the popup is open and the state is unchanged |
| App.AppSbi.ClosePopup | src/app.rs:290-292 | the popup is taken out and the state is unchanged |
| App.AppSbi.UpdateInstances | src/app.rs:235-240 | the list is reread from disk |
| App.AppSbi.CreateInstance | src/app.rs:293-308 | the instance goes into the first free folder of its name, then the corrected creation follows |
| App.AppSbi.DeleteCurrentInstance | src/app.rs:309-315 | the state follows `DeleteCurrent` |
| App.AppSbi.ModifyInstance | src/app.rs:464-471 | the state follows `ModifyCurrent` |
| App.AppSbi.ModifyInstances | src/app.rs:525-529 | the loop follows `ModifyAll`, stopping at the first failure |
| App.AppSbi.InstallCollection | src/app.rs:473-489 | the state follows `InstallCollectionStep` |
| App.AppSbi.HandleMessage | src/app.rs:491-535 | each message acts as its operation; closing an open popup returns what consuming it yields (`Popup.Consumed` of the popup before the call), closing none returns nothing, and no other message returns one; quitting is never undone |
| App.AppSbi.HandlePopupMessage | src/app.rs:508-518 | opening installs the popup; closing removes it and returns what consuming it yields; the instances, cursor and quit flag are untouched |
| App.AppSbi.HandleSessionMessage | src/app.rs:493-507 | every other message acts as its operation, never touches the popup and never returns a message |
| App.AppSbi.Launch | src/app.rs:316-317 | launching needs a current instance |
| DeprecatedApp.WrapUp | src/deprecated/app.rs:180-187 | up by one, wrapping from the first to the last; `WrapSpec` states its properties |
| DeprecatedApp.WrapDown | src/deprecated/app.rs:188-196 | `(index + 1) % len` on a non-empty list; `WrapSpec` states its properties |
| DeprecatedApp.WrapSpec | src/deprecated/app.rs:180-196 | up from the first wraps to the last and down from the last to the first; on a non-empty list the cursor stays in range; up and down undo each other; on an empty list down does nothing |
| DeprecatedApp.Insert | src/deprecated/app.rs:136 | inserting adds exactly one element |
| DeprecatedApp.InsertSorted | src/deprecated/app.rs:136 | insertion keeps the list sorted by name |
| DeprecatedApp.SortByName | src/deprecated/app.rs:136 | sorting is a permutation |
| DeprecatedApp.InsertNamed | src/deprecated/app.rs:136 | an inserted instance lands before every instance of the same name and leaves the others' order |
| DeprecatedApp.SortByNameStable | src/deprecated/app.rs:136 | `sort_by` is stable: the instances of any one name come out in their order before the sort |
| DeprecatedApp.SortByNameSpec | src/deprecated/app.rs:136 | the result is sorted by name and holds exactly the given instances |
| DeprecatedApp.PositionOfName | src/deprecated/app.rs:139-141 | finds the first instance with the name, or reports that none has it |
| DeprecatedApp.Reselect | src/deprecated/app.rs:128-145 | sort the scanned list and move the cursor to the selected name; `ReselectSpec` states the result |
| DeprecatedApp.ReselectSpec | src/deprecated/app.rs:128-145 | the new list is sorted and a permutation of what was read; the cursor stays on the previously selected name when it is still listed, and does not move otherwise |
| DeprecatedApp.DeprecatedAppSbi.constructor | src/deprecated/app.rs:92-105 | no popup, no instances, no task |
| DeprecatedApp.DeprecatedAppSbi.Quit | src/deprecated/app.rs:107-110 | only the quit flag is set |
| DeprecatedApp.DeprecatedAppSbi.Instance | src/deprecated/app.rs:152-159 | succeeds iff the index is in range |
| DeprecatedApp.DeprecatedAppSbi.ScrollInstancesUp | src/deprecated/app.rs:180-187 | the cursor wraps up |
| DeprecatedApp.DeprecatedAppSbi.ScrollInstancesDown | src/deprecated/app.rs:188-196 | the cursor wraps down |
| DeprecatedApp.DeprecatedAppSbi.SetInstances | src/deprecated/app.rs:147-150 | only the list changes |
| DeprecatedApp.DeprecatedAppSbi.UpdateInstances | src/deprecated/app.rs:128-145 | the list and cursor follow `Reselect` |
| DeprecatedApp.DeprecatedAppSbi.IsTaskRunning | src/deprecated/app.rs:198-202 | a task is running when one was spawned and has not finished; `InstallCollection` and `HandleEvents` state how it gates input |
| DeprecatedApp.DeprecatedAppSbi.InstallCollection | src/deprecated/app.rs:294-307 | with a current instance a running task is recorded; otherwise nothing changes |
| DeprecatedApp.DeprecatedAppSbi.HandleEvents | src/deprecated/app.rs:441-463 | while a task runs nothing is polled and nothing is returned; an open popup is cancelled by Esc, keeping its state, and any other event goes through the popup's own handler exactly as `Messages.Handled` says; without a popup the home key map decides |
| DuplicateProfile.SuffixedNameDiffers | src/menus/duplicate_profile.rs:31-38 | the prefilled `<original> (Copy)` never trims back to the original |
| DuplicateProfile.DuplicateSubmenuData.constructor | src/menus/duplicate_profile.rs:31-38 | keeps the original and prefills `<original> (Copy)`, so Done starts enabled |
| DuplicateProfile.DuplicateSubmenuData.DoneMessage | src/menus/duplicate_profile.rs:56-57 | Done is enabled exactly when the trimmed name differs from the original |
| DuplicateProfile.DuplicateSubmenuData.Update | src/menus/duplicate_profile.rs:40-53 | EditName replaces only the name; Done sends the trimmed name and then exits the submenu |
| DuplicateProfile.TrimIdempotent | src/menus/duplicate_profile.rs:47 | the name sent is already trimmed |
| NewProfile.NewProfileRecord | src/menus/new_profile.rs:54-68 | the profile copies the name, has a collection id exactly when one was typed, and has every other setting at its default, `link_mods` included |
| NewProfile.NewProfileRecordRoundTrip | src/menus/new_profile.rs:54-68 | a default profile is recreated exactly from its name and collection id field |
| NewProfile.NewProfileSubmenuData.constructor | src/menus/new_profile.rs:29-36 | empty fields, box unticked, Create disabled |
| NewProfile.NewProfileSubmenuData.CreateButtonMessage | src/menus/new_profile.rs:74 | Create is enabled exactly when the name is not empty |
| NewProfile.NewProfileSubmenuData.Update | src/menus/new_profile.rs:38-70 | each edit or toggle changes only its own field; Exit leaves the submenu; CreateProfile sends the record |

## Left out

- HTTP, JSON (de)serialisation and the async runtime: the Steam API is a map from ids to responses. A malformed response and a failed request are one `None`.
- Spawning steamcmd and the game: steamcmd is a function from its command line to the downloads it leaves. Launching is an outcome parameter. The launch code (`src/app.rs:316-413`, library paths, Steam) is not modelled beyond needing a current instance.
- Operating-system write failures (permissions, a full disk) and the log files: writes succeed when their folder exists. The steamcmd log `<mods>/steamcmd.log` is not part of the modelled disk (see `WorkshopSync.Download` and `WorkshopSync.SyncFrame` below).
- Creation of the data and instances directories (`instances_dir`): the instances directory is a fixed path under the data directory.
- Reading the instances directory (`get_instance_json_paths`, `parse_instance_paths_to_json`): the rescan is a parameter of the operations that reread the list.
- App.AppSbi.InstallCollection: the spawned download runs concurrently in the source. The model records the request in `syncRequests` and does not interleave it with the application. The sync itself is `WorkshopSync.ModsSync.DownloadCollection`.
- DeprecatedApp.DeprecatedAppSbi.HandleEvents: the home screen's key map (`handle_event_home`) is a parameter. Polling the terminal is the parameter `polled`. A task's `finished` flag is set by the runtime and is not modelled as changing.
- The home key map and `handle_events` of `src/app.rs`, and all rendering (`ui`, `draw_home`, `draw_keys`, the popups' `ui`): layout and drawing only.
- The text editor behind `tui_textarea::TextArea` (cursor, shortcuts): an edit function.
- `is_instance_name_valid`: it is not part of this model and is a parameter.
- The rename popup, the launch popup, the GUI settings, configure and rename submenus, and the GUI's `Application`: they only assign fields or open dialogs. The submenus' `view` is kept only for the rule that enables their button.
- Spinners.Spinner: the option, arrow and unavailable-arrow styles and the `update` methods that restyle the forms are left out. Only the arrows' blanking is kept.
- `ProfileJson`: its definition is not part of this model. The record has the fields the new-profile submenu fills in.
- The configuration file (`src/config.rs`): `Core` reads the executables, the default executable and the vanilla assets as `src/core.rs` uses them. `App` uses "vanilla" and `<data>/assets` as `src/app.rs` does.
- Collection links that form a cycle: the source would loop forever. The model requires a rank that decreases along links.
- `usize` overflow of `saturating_add(1)` in the cursors: indices are unbounded naturals.
- get_instance_mut: mutation through the returned reference is modelled by updating the list in place in `App.ModifyCurrent`.
- Core.ExecutableAssets: `parent().unwrap()` on a binary path without a parent (`src/core.rs:45-47`) panics in the source. The model returns `Err(BinaryWithoutFolder)` instead, so `Core.BootConfigFor`, `Core.BootConfigSpec`, `Core.WriteSbinitConfig` and `Core.WriteBoth` report that case as an error rather than aborting the program.
- The deprecated `AppSBI`'s `handle_message` (`src/deprecated/app.rs:309-353`) and the operations it calls, `open_popup`, `close_popup`, `create_instance`, `delete_current_instance`, `modify_instance` and the launches (`:204-292`), are not modelled: the `App` model covers the same message handling over a modelled file system, and the deprecated state has no instance folders. They differ from `App`'s: deletion without a current instance does nothing and succeeds (`:216-223`), creation calls `core::create_instance` and then rereads and re-sorts the list (`:210-215`), and modification rereads the list even without a current instance (`:287-292`). The deprecated module keeps its cursor, sorting, task gate and event routing.
- The mods folder's listing: `WorkshopSync.Sync`, `WorkshopSync.ModsSync.DownloadCollection` and `WorkshopSync.ModsSync.ApplyCollection` take the `read_dir` listing as the parameter `listing`, and it is not tied to the disk's `mods` entries. The frame and manifest lemmas (`SyncFrame`, `ApplyFrame`, `SyncManifest`) hold for every listing. `Reconcile.SyncedCollectionIsStable` assumes a listing that records every collection mod.
- ModsFolder.MoveStaged: moves a downloaded folder with the corrected `ReplaceWithDir` (second Findings row), not with `RenameDirAsWritten`. Where the source's rename fails onto a non-empty `<id>` folder the model succeeds. `ReplaceWithDirExtendsRename` shows that the two agree wherever the rename succeeds. `MoveStagedAsWritten` is the move as written.
- ModsFolder.MoveStagedFrame: proved of the corrected `MoveStaged`.
- ModsFolder.MoveStagedPlaces: proved of the corrected `MoveStaged`.
- ModsFolder.InstallStaged: composes the corrected `MoveStaged`, so it models the corrected move. The version with the rename as written is `InstallStagedAsWritten`, which agrees with it wherever it succeeds.
- ModsFolder.InstallStagedFrame: proved of the corrected `InstallStaged`.
- ModsFolder.InstallStagedPlaces: proved of the corrected `InstallStaged`.
- WorkshopSync.InstallAll: composes the corrected `InstallStaged`. The version as written is `InstallAllAsWritten`, which agrees with it wherever it succeeds.
- WorkshopSync.InstallAllStopsAtFailure: proved of the corrected `InstallAll`.
- WorkshopSync.InstallAllFrame: proved of the corrected `InstallAll`.
- WorkshopSync.InstallAllClearsStaging: proved of the corrected `InstallAll`.
- WorkshopSync.Download: resets the staging folder with the corrected `ResetStaging` (first Findings row), not with `ResetStagingAsWritten`. Where the source fails because `<data>/downloads` does not exist, the model goes on to run steamcmd. `ResetStagingEmpties` shows that the two agree wherever the reset as written succeeds. `DownloadAsWritten` is the download as written. It also does not create the steamcmd log file `<mods>/steamcmd.log` (src/workshop_downloader.rs:157-159, with the path from :246), so "the mods folder is untouched" leaves out that one file; a failure to create it is not modelled either.
- WorkshopSync.Apply: composes the corrected `Download` and `InstallAll`. Where the source stops at one of the two Findings, the model carries on. `ApplyAsWritten` composes the as-written halves and agrees with it wherever it succeeds.
- WorkshopSync.Sync: composes the corrected `Apply`, so it models the corrected sync. The sync as written is `SyncAsWritten`; its contract states that wherever it succeeds, `Sync` gives the same disk.
- WorkshopSync.SyncManifest: proved of the corrected sync.
- WorkshopSync.RemoveThenInstallFrame: proved of the corrected sync.
- WorkshopSync.ApplyFrame: proved of the corrected sync. It leaves out `<mods>/steamcmd.log` as `SyncFrame` does.
- WorkshopSync.SyncFrame: proved of the corrected sync. A sync that installs something also creates or truncates `<mods>/steamcmd.log` (src/workshop_downloader.rs:157-159, 246), a name that is neither a collection id nor a stale id; the model does not write that file, so the frame is stated for the modelled entries only.
- WorkshopSync.ModsSync.DownloadMods: the steps on a disk object follow the corrected functions above.
- WorkshopSync.ModsSync.InstallStagedMod: the steps on a disk object follow the corrected functions above.
- WorkshopSync.ModsSync.InstallMods: the steps on a disk object follow the corrected functions above.
- WorkshopSync.ModsSync.ApplyCollection: the steps on a disk object follow the corrected functions above.
- WorkshopSync.ModsSync.DownloadCollection: the steps on a disk object follow the corrected functions above.
- App.AppSbi.CreateInstance: follows the corrected `CreateInFolder` (third Findings row), which writes the new instance's boot configuration. As written, the source configures the instance under the cursor (`CreateInFolderAsWritten`).
- App.AppSbi.HandleMessage: a `CreateInstance` message follows the corrected `CreateInFolder`. Every other message follows the source.

## Findings

| source | as written | input that shows it | evidently intended | confidence | as-written member | corrected member |
|---|---|---|---|---|---|---|
| src/workshop_downloader.rs:153-155 | `remove_dir_all` on the staging folder before `create_dir`, with nothing in the program creating it first | first sync of a collection with anything to install, `<data>/downloads` absent | remove the folder only if it exists, then create it | medium, not executed | ModsFolder.FirstDownloadFails | ModsFolder.ResetStagingEmpties |
| src/workshop_downloader.rs:281-282 | `rename` of a downloaded folder onto `<mods>/<id>` | updating a mod installed as a folder: `<mods>/12345/old.txt` exists when `12345/` is downloaded again | replace the old folder with the new download | high, not executed | ModsFolder.UpdatingFolderModFails | ModsFolder.ReplaceWithDir |
| src/app.rs:305 | `create_instance` calls `generate_sbinit_config`, which configures the instance under the cursor, not the new one | creating the first instance: the list is empty, so the call fails after the record is written | write the new instance's boot configuration, as `core::create_instance` does | high, not executed | App.FirstCreateAsWrittenFails | App.CreateInFolderSpec |
