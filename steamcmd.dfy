/** The steamcmd command line of `download_mods_from_workshop`
    (src/workshop_downloader.rs:144-149). */
module SteamCmd {
  import opened Wrappers
  import opened ModManifest

  /** Starbound's Steam application id. */
  const STARBOUND_APP_ID: string := "211820"

  function DownloadItems(mods: seq<ModManifestMod>): (items: seq<string>)
    ensures |items| == 3 * |mods|
  {
    if mods == [] then []
    else ["+workshop_download_item", STARBOUND_APP_ID, mods[0].publishedfileid] + DownloadItems(mods[1..])
  }

  /** Install into the staging folder, log in anonymously, one download per
      mod in install order, quit. */
  function SteamCmdArgs(forceInstallDir: string, mods: seq<ModManifestMod>): (argv: seq<string>)
    ensures |argv| == 5 + 3 * |mods|
    ensures argv[..4] == ["+force_install_dir", forceInstallDir, "+login", "anonymous"]
    ensures argv[|argv| - 1] == "+quit"
  {
    ["+force_install_dir", forceInstallDir, "+login", "anonymous"] + DownloadItems(mods) + ["+quit"]
  }

  /** How steamcmd reads such a command line: the install folder and the ids
      to download, or `None` for any other shape. */
  function ParseArgs(argv: seq<string>): (r: Option<(string, seq<string>)>)
  {
    if |argv| >= 4 && argv[0] == "+force_install_dir" && argv[2] == "+login" && argv[3] == "anonymous" then
      match ParseItems(argv[4..])
      case None => None
      case Some(ids) => Some((argv[1], ids))
    else None
  }

  function ParseItems(rest: seq<string>): (r: Option<seq<string>>)
    decreases |rest|
  {
    if rest == ["+quit"] then Some([])
    else if |rest| >= 3 && rest[0] == "+workshop_download_item" && rest[1] == STARBOUND_APP_ID then
      match ParseItems(rest[3..])
      case None => None
      case Some(ids) => Some([rest[2]] + ids)
    else None
  }

  /** The command line asks steamcmd for exactly the mods to install, in
      order, into the staging folder. */
  lemma {:induction false} SteamCmdArgsRoundTrip(forceInstallDir: string, mods: seq<ModManifestMod>)
    ensures ParseArgs(SteamCmdArgs(forceInstallDir, mods)) == Some((forceInstallDir, Ids(mods)))
  {
    var argv := SteamCmdArgs(forceInstallDir, mods);
    assert argv[4..] == DownloadItems(mods) + ["+quit"];
    ItemsRoundTrip(mods);
  }

  lemma {:induction false} ItemsRoundTrip(mods: seq<ModManifestMod>)
    ensures ParseItems(DownloadItems(mods) + ["+quit"]) == Some(Ids(mods))
  {
    if mods == [] {
      assert DownloadItems(mods) + ["+quit"] == ["+quit"];
    } else {
      var s := DownloadItems(mods) + ["+quit"];
      assert s[3..] == DownloadItems(mods[1..]) + ["+quit"];
      assert s != ["+quit"];
      ItemsRoundTrip(mods[1..]);
    }
  }
}
