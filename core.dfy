/** Instance folders on disk (src/core.rs): creating an instance in the
    first free folder, writing its `instance.json` and the game's boot
    configuration `sbinit.config`, and modifying or deleting it.

    The instances directory is a map from each existing entry's path to
    what the model tracks in it. Write failures of the operating system
    (permissions, a full disk) are not modelled. */
module Core {
  import opened Wrappers
  import opened Text
  import opened Paths
  import opened Instances

  const STARBOUND_BOOT_CONFIG_NAME: string := "sbinit.config"

  /** One configured game executable: its binary and an optional asset
      folder relative to the binary's folder. */
  datatype ExecutableConfig = ExecutableConfig(bin: Path, customAssets: Option<Path>)

  /** The part of the launcher's configuration these operations read. */
  datatype Config = Config(executables: map<string, ExecutableConfig>, defaultExecutable: string, vanillaAssets: Path)

  /** The content of `sbinit.config`. */
  datatype BootConfig = BootConfig(assetDirectories: seq<Path>, storageDirectory: Path)

  /** What an instance folder holds, as far as the model tracks it. */
  datatype InstanceFolder = InstanceFolder(instanceJson: Option<InstanceDataJson>, bootConfig: Option<BootConfig>)

  type Folders = map<Path, InstanceFolder>

  datatype CoreError =
    | InvalidExecutable(executable: Option<string>)
      /** `Path::parent().unwrap()` on the binary's path: a panic in the source. */
    | BinaryWithoutFolder
    | InstanceNotInFolder
    | NoSuchFolder

  // ---------------------------------------------------------------------------
  // write_sbinit_config
  // ---------------------------------------------------------------------------

  /** The instance's own executable when it is configured, otherwise the
      default one, otherwise none. */
  function ChooseExecutable(executable: Option<string>, config: Config): (r: Option<ExecutableConfig>)
    ensures executable.Some? && executable.value in config.executables ==>
      r == Some(config.executables[executable.value])
    ensures (executable.None? || executable.value !in config.executables) ==>
      (r.Some? <==> config.defaultExecutable in config.executables)
      && (r.Some? ==> r.value == config.executables[config.defaultExecutable])
  {
    if executable.Some? && executable.value in config.executables then Some(config.executables[executable.value])
    else if config.defaultExecutable in config.executables then Some(config.executables[config.defaultExecutable])
    else None
  }

  /** An additional asset folder: a relative one is taken inside the
      instance folder, an absolute one is kept verbatim. */
  function AssetPath(folder: Path, asset: string): (r: Path)
    ensures IsAbsolute(asset) ==> r == asset
    ensures !IsAbsolute(asset) ==> r == Join(folder, asset)
  {
    if !IsAbsolute(asset) then Join(folder, asset) else asset
  }

  function AdditionalAssetPaths(folder: Path, assets: seq<string>): (r: seq<Path>)
    ensures |r| == |assets|
  {
    seq(|assets|, k requires 0 <= k < |assets| => AssetPath(folder, assets[k]))
  }

  /** The executable's own asset folder, next to its binary. */
  function ExecutableAssets(exe: ExecutableConfig): (r: Result<seq<Path>, CoreError>)
    ensures r.Ok? ==> |r.value| == (if exe.customAssets.Some? then 1 else 0)
  {
    match exe.customAssets
    case None => Ok([])
    case Some(assets) =>
      match Parent(exe.bin)
      case None => Err(BinaryWithoutFolder)
      case Some(dir) => Ok([Join(dir, assets)])
  }

  function BootConfigFor(inst: Instance, config: Config): (r: Result<BootConfig, CoreError>)
  {
    match ChooseExecutable(inst.Executable(), config)
    case None => Err(InvalidExecutable(inst.Executable()))
    case Some(exe) =>
      var folder := inst.FolderPath();
      match ExecutableAssets(exe)
      case Err(e) => Err(e)
      case Ok(custom) =>
        Ok(BootConfig(
          [config.vanillaAssets, Join(folder, "mods")] + custom
            + AdditionalAssetPaths(folder, inst.AdditionalAssets().GetOr([])),
          Join(folder, "storage")))
  }

  /** The boot configuration fails only when no executable resolves or the
      chosen binary has no folder. Its assets are, in order: the vanilla
      assets, the instance's `mods` folder, the executable's own assets when
      it has some, then each additional asset, where a relative one lies
      inside the instance folder and an absolute one is kept. Storage is the
      instance's `storage` folder. */
  lemma BootConfigSpec(inst: Instance, config: Config)
    ensures BootConfigFor(inst, config).Err? <==>
      || ChooseExecutable(inst.Executable(), config).None?
      || (var exe := ChooseExecutable(inst.Executable(), config).value;
          exe.customAssets.Some? && Parent(exe.bin).None?)
    ensures BootConfigFor(inst, config).Ok? ==>
      var boot := BootConfigFor(inst, config).value;
      var folder := inst.FolderPath();
      var exe := ChooseExecutable(inst.Executable(), config).value;
      var c := if exe.customAssets.Some? then 1 else 0;
      var extra := inst.AdditionalAssets().GetOr([]);
      && |boot.assetDirectories| == 2 + c + |extra|
      && boot.assetDirectories[0] == config.vanillaAssets
      && boot.assetDirectories[1] == Join(folder, "mods")
      && (exe.customAssets.Some? ==> boot.assetDirectories[2] == Join(Parent(exe.bin).value, exe.customAssets.value))
      && (forall k :: 0 <= k < |extra| && IsAbsolute(extra[k]) ==> boot.assetDirectories[2 + c + k] == extra[k])
      && (forall k :: 0 <= k < |extra| && !IsAbsolute(extra[k]) ==>
            && boot.assetDirectories[2 + c + k] == Join(folder, extra[k])
            && boot.assetDirectories[2 + c + k][..|folder|] == folder)
      && boot.storageDirectory == Join(folder, "storage")
      && boot.storageDirectory[..|folder|] == folder
  {
    var folder := inst.FolderPath();
    var extra := inst.AdditionalAssets().GetOr([]);
    match ChooseExecutable(inst.Executable(), config)
    case None =>
    case Some(exe) =>
      match ExecutableAssets(exe)
      case Err(_) =>
      case Ok(custom) =>
        var boot := BootConfig(
          [config.vanillaAssets, Join(folder, "mods")] + custom + AdditionalAssetPaths(folder, extra),
          Join(folder, "storage"));
        assert BootConfigFor(inst, config) == Ok(boot);
        AssetLayout(config.vanillaAssets, folder, custom, extra);
        var c := if exe.customAssets.Some? then 1 else 0;
        assert c == |custom|;
        forall k | 0 <= k < |extra|
          ensures IsAbsolute(extra[k]) ==> boot.assetDirectories[2 + c + k] == extra[k]
          ensures !IsAbsolute(extra[k]) ==>
            && boot.assetDirectories[2 + c + k] == Join(folder, extra[k])
            && boot.assetDirectories[2 + c + k][..|folder|] == folder
        {
          assert boot.assetDirectories[2 + c + k] == AssetPath(folder, extra[k]);
        }
  }

  /** Where each part lands in the asset list of a boot configuration. */
  lemma AssetLayout(vanilla: Path, folder: Path, custom: seq<Path>, extra: seq<string>)
    ensures var a := [vanilla, Join(folder, "mods")] + custom + AdditionalAssetPaths(folder, extra);
      && |a| == 2 + |custom| + |extra|
      && a[0] == vanilla && a[1] == Join(folder, "mods")
      && (forall k :: 0 <= k < |custom| ==> a[2 + k] == custom[k])
      && (forall k :: 0 <= k < |extra| ==> a[2 + |custom| + k] == AssetPath(folder, extra[k]))
  {
    var tail := AdditionalAssetPaths(folder, extra);
    var a := [vanilla, Join(folder, "mods")] + custom + tail;
    forall k | 0 <= k < |extra|
      ensures a[2 + |custom| + k] == AssetPath(folder, extra[k])
    {
      assert a[2 + |custom| + k] == tail[k];
    }
  }

  /** `std::fs::write` of `sbinit.config`: the folder must exist. */
  function WriteSbinitConfig(fs: Folders, inst: Instance, config: Config): (r: (Result<(), CoreError>, Folders))
    ensures r.0.Ok? <==> BootConfigFor(inst, config).Ok? && inst.FolderPath() in fs
    ensures r.0.Err? ==> r.1 == fs
    ensures r.0.Ok? ==>
      && r.1.Keys == fs.Keys
      && r.1[inst.FolderPath()] == fs[inst.FolderPath()].(bootConfig := Some(BootConfigFor(inst, config).value))
      && forall p :: p in fs && p != inst.FolderPath() ==> r.1[p] == fs[p]
  {
    match BootConfigFor(inst, config)
    case Err(e) => (Err(e), fs)
    case Ok(boot) =>
      var folder := inst.FolderPath();
      if folder !in fs then (Err(NoSuchFolder), fs)
      else (Ok(()), fs[folder := fs[folder].(bootConfig := Some(boot))])
  }

  /** `write_instance`: creates the folder if needed and writes the record. */
  function WriteInstance(fs: Folders, inst: Instance): (r: Folders)
    ensures r.Keys == fs.Keys + {inst.FolderPath()}
    ensures r[inst.FolderPath()].instanceJson == Some(inst.ToJson())
    ensures forall p :: p in fs && p != inst.FolderPath() ==> r[p] == fs[p]
  {
    var folder := inst.FolderPath();
    var boot := if folder in fs then fs[folder].bootConfig else None;
    fs[folder := InstanceFolder(Some(inst.ToJson()), boot)]
  }

  /** `write_instance` then `write_sbinit_config`: on success the folder
      holds exactly the record and its boot configuration; when the boot
      configuration fails the record is still written. No other folder
      changes. */
  function WriteBoth(fs: Folders, inst: Instance, config: Config): (r: (Result<(), CoreError>, Folders))
    ensures r.1.Keys == fs.Keys + {inst.FolderPath()}
    ensures forall p :: p in fs && p != inst.FolderPath() ==> r.1[p] == fs[p]
    ensures r.0.Ok? <==> BootConfigFor(inst, config).Ok?
    ensures r.1[inst.FolderPath()].instanceJson == Some(inst.ToJson())
    ensures r.0.Ok? ==> r.1[inst.FolderPath()].bootConfig == Some(BootConfigFor(inst, config).value)
    ensures r.0.Err? ==> r.1 == WriteInstance(fs, inst)
  {
    WriteSbinitConfig(WriteInstance(fs, inst), inst, config)
  }

  // ---------------------------------------------------------------------------
  // create_instance
  // ---------------------------------------------------------------------------

  /** Spaces in the instance name become underscores in its folder name. */
  function Sanitize(name: string): (r: string)
    ensures |r| == |name| && ' ' !in r
    ensures forall i :: 0 <= i < |name| ==> r[i] == (if name[i] == ' ' then '_' else name[i])
  {
    // replacing a one-character pattern works position by position
    ReplaceCharAt(name, ' ', '_');
    ReplaceAll(name, " ", "_")
  }

  /** The k-th folder name tried: `name`, then `name_1`, `name_2`, ... */
  function FolderName(name: string, k: nat): (r: string)
    ensures k > 0 ==> |r| > |name| && r[..|name|] == name
  {
    if k == 0 then name else name + "_" + NatToString(k)
  }

  function Candidate(dir: Path, name: string, k: nat): Path {
    Join(dir, FolderName(name, k))
  }

  lemma {:induction false} NatToStringDigits(n: nat)
    ensures forall i :: 0 <= i < |NatToString(n)| ==> '0' <= NatToString(n)[i] <= '9'
    decreases n
  {
    if n >= 10 {
      NatToStringDigits(n / 10);
    }
  }

  /** A sanitized name gives folder names without spaces. */
  lemma FolderNameHasNoSpaces(name: string, k: nat)
    ensures ' ' !in FolderName(Sanitize(name), k)
  {
    if k > 0 {
      NatToStringDigits(k);
      assert FolderName(Sanitize(name), k) == Sanitize(name) + "_" + NatToString(k);
    }
  }

  /** Every attempt is absolute exactly when the name is. */
  lemma FolderNameAbsolute(name: string, k: nat)
    ensures IsAbsolute(FolderName(name, k)) == IsAbsolute(name)
  {
    if k > 0 {
      var r := FolderName(name, k);
      assert r == name + "_" + NatToString(k);
      assert r[0] == (if name == [] then '_' else name[0]);
    }
  }

  lemma FolderNameInjective(name: string, j: nat, k: nat)
    requires FolderName(name, j) == FolderName(name, k)
    ensures j == k
  {
    if j > 0 && k > 0 {
      var sj, sk := NatToString(j), NatToString(k);
      var a, b := FolderName(name, j), FolderName(name, k);
      assert a == (name + "_") + sj && b == (name + "_") + sk;
      assert a[|name| + 1..] == sj && b[|name| + 1..] == sk;
      NatToStringInjective(j, k);
    }
  }

  /** Distinct attempts name distinct folders. */
  lemma CandidateInjective(dir: Path, name: string, j: nat, k: nat)
    requires Candidate(dir, name, j) == Candidate(dir, name, k)
    ensures j == k
  {
    FolderNameAbsolute(name, j);
    FolderNameAbsolute(name, k);
    JoinInjective(dir, FolderName(name, j), FolderName(name, k));
    FolderNameInjective(name, j, k);
  }

  /** Only as many attempts as there are existing entries can fail. */
  lemma {:induction false} CandidatesCount(dir: Path, name: string, i: nat, existing: set<Path>)
    requires forall j :: 0 <= j < i ==> Candidate(dir, name, j) in existing
    ensures i <= |existing|
    decreases i
  {
    if i > 0 {
      var rest := existing - {Candidate(dir, name, i - 1)};
      forall j | 0 <= j < i - 1
        ensures Candidate(dir, name, j) in rest
      {
        if Candidate(dir, name, j) == Candidate(dir, name, i - 1) {
          CandidateInjective(dir, name, j, i - 1);
        }
      }
      CandidatesCount(dir, name, i - 1, rest);
    }
  }

  /** Attempt `k` is the first whose folder does not exist. */
  predicate FirstFree(dir: Path, name: string, existing: set<Path>, k: nat) {
    Candidate(dir, name, k) !in existing && forall j :: 0 <= j < k ==> Candidate(dir, name, j) in existing
  }

  lemma FirstFreeUnique(dir: Path, name: string, existing: set<Path>, k1: nat, k2: nat)
    requires FirstFree(dir, name, existing, k1) && FirstFree(dir, name, existing, k2)
    ensures k1 == k2
  {
  }

  /** The `while instance_dir.exists()` loop. */
  method FirstFreeFolder(dir: Path, name: string, existing: set<Path>) returns (folder: Path, ghost k: nat)
    ensures folder == Candidate(dir, name, k) && FirstFree(dir, name, existing, k)
    ensures folder !in existing
  {
    folder := Candidate(dir, name, 0);
    k := 0;
    var i: nat := 1;
    while folder in existing
      invariant i == k + 1 && folder == Candidate(dir, name, k)
      invariant forall j :: 0 <= j < k ==> Candidate(dir, name, j) in existing
      decreases |existing| - k
    {
      TriedOneMore(dir, name, k, existing);
      folder := Candidate(dir, name, i);
      k := i;
      i := i + 1;
    }
  }

  lemma TriedOneMore(dir: Path, name: string, k: nat, existing: set<Path>)
    requires forall j :: 0 <= j < k ==> Candidate(dir, name, j) in existing
    requires Candidate(dir, name, k) in existing
    ensures forall j :: 0 <= j < k + 1 ==> Candidate(dir, name, j) in existing
    ensures k + 1 <= |existing|
  {
    CandidatesCount(dir, name, k + 1, existing);
  }

  /** What `create_instance` does once the folder is chosen. */
  function CreateIn(fs: Folders, folder: Path, data: InstanceDataJson, config: Config): (r: (Result<(), CoreError>, Folders))
  {
    match FromJson(data, Join(folder, INSTANCE_JSON_NAME))
    case Err(_) => (Err(InstanceNotInFolder), fs)
    case Ok(inst) => WriteBoth(fs, inst, config)
  }

  method CreateInstance(instancesDir: Path, data: InstanceDataJson, config: Config, fs: Folders)
    returns (r: Result<(), CoreError>, fs': Folders, ghost k: nat)
    ensures FirstFree(instancesDir, Sanitize(data.name), fs.Keys, k)
    ensures (r, fs') == CreateIn(fs, Candidate(instancesDir, Sanitize(data.name), k), data, config)
  {
    var name := ReplaceAll(data.name, " ", "_");
    var folder;
    folder, k := FirstFreeFolder(instancesDir, name, fs.Keys);
    match FromJson(data, Join(folder, INSTANCE_JSON_NAME)) {
      case Err(_) =>
        r, fs' := Err(InstanceNotInFolder), fs;
      case Ok(inst) =>
        fs' := WriteInstance(fs, inst);
        var boot := BootConfigFor(inst, config);
        if boot.Err? {
          r := Err(boot.error);
        } else if inst.FolderPath() !in fs' {
          r := Err(NoSuchFolder);
        } else {
          fs' := fs'[inst.FolderPath() := fs'[inst.FolderPath()].(bootConfig := Some(boot.value))];
          r := Ok(());
        }
    }
  }

  /** In a canonical instances directory and for a name that is one plain
      path component, creation adds exactly one new folder, never one that
      existed, whose name has no spaces; it holds the record as given and,
      when an executable resolves, its boot configuration. */
  lemma CreateInstanceSpec(instancesDir: Path, data: InstanceDataJson, config: Config, fs: Folders, k: nat)
    requires Canonical(instancesDir) && IsFileName(Sanitize(data.name))
    requires FirstFree(instancesDir, Sanitize(data.name), fs.Keys, k)
    ensures
      var folder := Candidate(instancesDir, Sanitize(data.name), k);
      var inst := Instance(folder, data);
      var r := CreateIn(fs, folder, data, config);
      && folder !in fs
      && ' ' !in FolderName(Sanitize(data.name), k)
      && r.1.Keys == fs.Keys + {folder}
      && (forall p :: p in fs ==> r.1[p] == fs[p])
      && r.1[folder].instanceJson == Some(data)
      && (r.0.Ok? <==> BootConfigFor(inst, config).Ok?)
      && (r.0.Ok? ==> r.1[folder].bootConfig == Some(BootConfigFor(inst, config).value))
  {
    var name := Sanitize(data.name);
    var folder := Candidate(instancesDir, name, k);
    FolderNameHasNoSpaces(data.name, k);
    var file := FolderName(name, k);
    if k > 0 {
      NatToStringDigits(k);
      assert file == name + "_" + NatToString(k);
      assert file[0] == name[0];
      assert file[|file| - 1] in NatToString(k);
    }
    assert IsFileName(file);
    assert file[|file| - 1] != '/';
    assert Canonical(folder);
    FromJsonInFolder(data, folder);
  }

  // ---------------------------------------------------------------------------
  // modify_instance and delete_instance
  // ---------------------------------------------------------------------------

  /** Applies the modification and rewrites both files of the instance. */
  function ModifyInstance(fs: Folders, inst: Instance, modification: ModifyInstance, config: Config): (r: (Result<(), CoreError>, Folders))
  {
    var modified := Modify(inst, modification);
    WriteBoth(fs, modified, config)
  }

  /** The folder ends up holding the modified record and the boot
      configuration computed from it; nothing else changes. */
  lemma ModifyInstanceSpec(fs: Folders, inst: Instance, modification: ModifyInstance, config: Config)
    ensures
      var r := ModifyInstance(fs, inst, modification, config);
      var modified := Modify(inst, modification);
      && r.1.Keys == fs.Keys + {inst.FolderPath()}
      && (forall p :: p in fs && p != inst.FolderPath() ==> r.1[p] == fs[p])
      && r.1[inst.FolderPath()].instanceJson == Some(modified.ToJson())
      && (r.0.Ok? <==> BootConfigFor(modified, config).Ok?)
      && (r.0.Ok? ==> r.1[inst.FolderPath()].bootConfig == Some(BootConfigFor(modified, config).value))
  {
  }

  /** `remove_dir_all` of the instance folder; a missing folder is an error. */
  function DeleteInstance(fs: Folders, inst: Instance): (r: (Result<(), CoreError>, Folders))
    ensures r.0.Ok? <==> inst.FolderPath() in fs
    ensures r.1 == fs - {inst.FolderPath()}
  {
    if inst.FolderPath() in fs then (Ok(()), fs - {inst.FolderPath()})
    else (Err(NoSuchFolder), fs)
  }
}
