/** `AppSBI` (src/app.rs): the terminal launcher's state (the instance
    list and its cursor, the open popup, the quit flag) and how it handles
    the application's messages. The instances directory is modelled as in
    `Core`; reading it back (`update_instances`) is a parameter `scan`,
    since which folders parse and the directory order are the operating
    system's business. */
module App {
  import opened Wrappers
  import Ui
  import opened Paths
  import I = Instances
  import opened Core
  import opened Messages

  datatype AppError =
    | NoInstanceAt(index: nat, total: nat)
    | CoreFailure(error: CoreError)
    | LaunchFailed

  /** Reading every instance back from the instances directory. */
  type Scan = Folders -> seq<I.Instance>

  /** Everything the application holds except the popup; `syncRequests`
      lists the instances whose collection download was started. */
  datatype Session = Session(
    instances: seq<I.Instance>,
    index: nat,
    folders: Folders,
    shouldQuit: bool,
    syncRequests: seq<I.Instance>)

  /** The configuration as `AppSBI` uses it: "vanilla" is the default
      executable and the vanilla assets live in `<data>/assets`. */
  function AppConfig(executables: map<string, ExecutableConfig>, dataDir: Path): (c: Config)
    ensures c.defaultExecutable == "vanilla" && c.executables == executables
  {
    Config(executables, "vanilla", Join(dataDir, "assets"))
  }

  // ---------------------------------------------------------------------------
  // The cursor
  // ---------------------------------------------------------------------------

  function GetInstance(instances: seq<I.Instance>, index: nat): (r: Result<I.Instance, AppError>)
    ensures r.Ok? <==> index < |instances|
    ensures r.Ok? ==> r.value == instances[index]
    ensures r.Err? ==> r.error == NoInstanceAt(index, |instances|)
  {
    if index < |instances| then Ok(instances[index]) else Err(NoInstanceAt(index, |instances|))
  }

  function ScrollUp(index: nat): nat {
    Ui.Dec(index)
  }

  /** `min(index + 1, len.saturating_sub(1))`. */
  function ScrollDown(index: nat, len: nat): nat {
    Ui.IncUpTo(index, Ui.Dec(len))
  }

  /** Scrolling never wraps: up stops at the first instance, down at the
      last (at 0 for an empty list). A cursor on an instance stays on one,
      and scrolling down from anywhere lands on one when there is any. */
  lemma ScrollSpec(index: nat, len: nat)
    ensures ScrollUp(index) <= index && (ScrollUp(index) == index <==> index == 0)
    ensures len == 0 ==> ScrollDown(index, len) == 0
    ensures len > 0 ==> ScrollDown(index, len) < len
    ensures index < len ==> ScrollUp(index) < len
    ensures index + 1 < len ==> ScrollDown(index, len) == index + 1
    ensures len > 0 && index == len - 1 ==> ScrollDown(index, len) == index
  {
  }

  // ---------------------------------------------------------------------------
  // The operations on instances
  // ---------------------------------------------------------------------------

  /** `update_instances`: the list is replaced by what the directory holds. */
  function Refresh(s: Session, scan: Scan): (t: Session)
    ensures t.instances == scan(s.folders)
    ensures t.(instances := s.instances) == s
  {
    s.(instances := scan(s.folders))
  }

  /** `create_instance` once its folder is chosen, as the source writes it:
      the new record is written, but the boot configuration is generated
      for the instance under the cursor. */
  function CreateInFolderAsWritten(s: Session, folder: Path, data: I.InstanceDataJson, config: Config, scan: Scan)
    : (r: (Result<(), AppError>, Session))
  {
    match I.FromJson(data, Join(folder, I.INSTANCE_JSON_NAME))
    case Err(_) => (Err(CoreFailure(InstanceNotInFolder)), s)
    case Ok(inst) =>
      var s1 := s.(folders := WriteInstance(s.folders, inst));
      match GetInstance(s1.instances, s1.index)
      case Err(e) => (Err(e), s1)
      case Ok(current) =>
        var w := WriteSbinitConfig(s1.folders, current, config);
        if w.0.Err? then (Err(CoreFailure(w.0.error)), s1.(folders := w.1))
        else (Ok(()), Refresh(s1.(folders := w.1), scan))
  }

  /** As written, creating the first instance fails after its record is
      written: there is no instance under the cursor to configure, so the
      new folder has no boot configuration and the list is not reread. */
  lemma FirstCreateAsWrittenFails(s: Session, folder: Path, data: I.InstanceDataJson, config: Config, scan: Scan)
    requires s.instances == [] && Canonical(folder) && folder !in s.folders
    ensures CreateInFolderAsWritten(s, folder, data, config, scan).0 == Err(NoInstanceAt(s.index, 0))
    ensures folder in CreateInFolderAsWritten(s, folder, data, config, scan).1.folders
    ensures CreateInFolderAsWritten(s, folder, data, config, scan).1.folders[folder] == InstanceFolder(Some(data), None)
    ensures CreateInFolderAsWritten(s, folder, data, config, scan).1.instances == []
  {
    I.FromJsonInFolder(data, folder);
    var inst := I.Instance(folder, data);
    assert I.FromJson(data, Join(folder, I.INSTANCE_JSON_NAME)) == Ok(inst);
    var s1 := s.(folders := WriteInstance(s.folders, inst));
    assert s1.folders[folder] == InstanceFolder(Some(data), None);
    assert GetInstance(s1.instances, s1.index).Err?;
    assert CreateInFolderAsWritten(s, folder, data, config, scan) == (Err(NoInstanceAt(s.index, 0)), s1);
  }

  /** As written, with an instance under the cursor the new folder still
      gets no boot configuration, even when the call succeeds. */
  lemma CreateAsWrittenSkipsNewBootConfig(s: Session, folder: Path, data: I.InstanceDataJson, config: Config, scan: Scan)
    requires Canonical(folder) && folder !in s.folders
    requires s.index < |s.instances| && s.instances[s.index].FolderPath() in s.folders
    ensures folder in CreateInFolderAsWritten(s, folder, data, config, scan).1.folders
    ensures CreateInFolderAsWritten(s, folder, data, config, scan).1.folders[folder] == InstanceFolder(Some(data), None)
  {
    I.FromJsonInFolder(data, folder);
    var inst := I.Instance(folder, data);
    var s1 := s.(folders := WriteInstance(s.folders, inst));
    var current := s.instances[s.index];
    assert current.FolderPath() != folder;
    assert s1.folders[folder] == InstanceFolder(Some(data), None);
  }

  /** `create_instance` once its folder is chosen, configuring the new
      instance as `core::create_instance` does. */
  function CreateInFolder(s: Session, folder: Path, data: I.InstanceDataJson, config: Config, scan: Scan)
    : (r: (Result<(), AppError>, Session))
    ensures r.1.shouldQuit == s.shouldQuit && r.1.syncRequests == s.syncRequests
  {
    var w := Core.CreateIn(s.folders, folder, data, config);
    if w.0.Err? then (Err(CoreFailure(w.0.error)), s.(folders := w.1))
    else (Ok(()), Refresh(s.(folders := w.1), scan))
  }

  /** A new folder gets the record and, whenever an executable resolves,
      the boot configuration of the new instance; after success the list is
      reread; the cursor and the other folders do not change. */
  lemma CreateInFolderSpec(s: Session, folder: Path, data: I.InstanceDataJson, config: Config, scan: Scan)
    requires Canonical(folder) && folder !in s.folders
    ensures
      var r := CreateInFolder(s, folder, data, config, scan);
      var inst := I.Instance(folder, data);
      && (r.0.Ok? <==> BootConfigFor(inst, config).Ok?)
      && r.1.folders.Keys == s.folders.Keys + {folder}
      && (forall p :: p in s.folders ==> r.1.folders[p] == s.folders[p])
      && r.1.folders[folder].instanceJson == Some(data)
      && (r.0.Ok? ==> r.1.folders[folder].bootConfig == Some(BootConfigFor(inst, config).value))
      && (r.0.Ok? ==> r.1.instances == scan(r.1.folders))
      && (r.0.Err? ==> r.1.instances == s.instances)
      && r.1.index == s.index
  {
    I.FromJsonInFolder(data, folder);
  }

  /** `delete_current_instance`: remove the folder, reread, scroll up. */
  function DeleteCurrent(s: Session, scan: Scan): (r: (Result<(), AppError>, Session))
    ensures r.0.Err? ==> r.1 == s
    ensures r.0.Ok? <==> s.index < |s.instances| && s.instances[s.index].FolderPath() in s.folders
    ensures r.0.Ok? ==>
      var gone := s.instances[s.index].FolderPath();
      r.1 == Session(scan(s.folders - {gone}), ScrollUp(s.index), s.folders - {gone}, s.shouldQuit, s.syncRequests)
  {
    match GetInstance(s.instances, s.index)
    case Err(e) => (Err(e), s)
    case Ok(inst) =>
      var d := Core.DeleteInstance(s.folders, inst);
      if d.0.Err? then (Err(CoreFailure(d.0.error)), s)
      else
        var s1 := Refresh(s.(folders := d.1), scan);
        (Ok(()), s1.(index := ScrollUp(s1.index)))
  }

  /** `modify_instance`: the instance under the cursor is changed in place,
      written back with its boot configuration, and the list is reread; with
      no instance under the cursor only the rereading happens. */
  function ModifyCurrent(s: Session, m: I.ModifyInstance, config: Config, scan: Scan): (r: (Result<(), AppError>, Session))
    ensures r.1.shouldQuit == s.shouldQuit && r.1.syncRequests == s.syncRequests && r.1.index == s.index
  {
    if s.index < |s.instances| then
      var modified := I.Modify(s.instances[s.index], m);
      var w := WriteBoth(s.folders, modified, config);
      var s1 := s.(instances := s.instances[s.index := modified], folders := w.1);
      if w.0.Err? then (Err(CoreFailure(w.0.error)), s1)
      else (Ok(()), Refresh(s1, scan))
    else (Ok(()), Refresh(s, scan))
  }

  /** The modified instance reaches disk, record and boot configuration
      alike, and no other folder changes. */
  lemma ModifyCurrentSpec(s: Session, m: I.ModifyInstance, config: Config, scan: Scan)
    requires s.index < |s.instances|
    ensures
      var r := ModifyCurrent(s, m, config, scan);
      var modified := I.Modify(s.instances[s.index], m);
      var folder := modified.FolderPath();
      && folder == s.instances[s.index].FolderPath()
      && r.1.folders[folder].instanceJson == Some(modified.ToJson())
      && (r.0.Ok? <==> BootConfigFor(modified, config).Ok?)
      && (r.0.Ok? ==> r.1.folders[folder].bootConfig == Some(BootConfigFor(modified, config).value))
      && (r.0.Ok? ==> r.1.instances == scan(r.1.folders))
      && (r.0.Err? ==> r.1.instances[s.index] == modified)
      && (forall p :: p in s.folders && p != folder ==> r.1.folders[p] == s.folders[p])
  {
  }

  /** The `for modification in modifications { ...? }` loop: modifications
      apply in order and the first failure stops the rest. */
  function ModifyAll(s: Session, ms: seq<I.ModifyInstance>, config: Config, scan: Scan): (r: (Result<(), AppError>, Session))
    ensures r.1.shouldQuit == s.shouldQuit && r.1.syncRequests == s.syncRequests && r.1.index == s.index
    decreases |ms|
  {
    if ms == [] then (Ok(()), s)
    else
      var step := ModifyCurrent(s, ms[0], config, scan);
      if step.0.Err? then step else ModifyAll(step.1, ms[1..], config, scan)
  }

  /** With no instance under the cursor every modification only rereads the
      list: no folder is touched. */
  lemma {:induction false} ModifyAllWithoutCurrent(s: Session, ms: seq<I.ModifyInstance>, config: Config, scan: Scan)
    requires forall f :: |scan(f)| <= s.index
    requires s.index >= |s.instances|
    ensures ModifyAll(s, ms, config, scan).0.Ok?
    ensures ModifyAll(s, ms, config, scan).1.folders == s.folders
    decreases |ms|
  {
    if ms != [] {
      var step := ModifyCurrent(s, ms[0], config, scan);
      assert step.1 == Refresh(s, scan);
      ModifyAllWithoutCurrent(step.1, ms[1..], config, scan);
    }
  }

  /** `install_collection`: start the collection download of the instance
      under the cursor, if any. */
  function InstallCollectionStep(s: Session): (t: Session)
    ensures s.index < |s.instances| ==> t.syncRequests == s.syncRequests + [s.instances[s.index]]
    ensures s.index >= |s.instances| ==> t == s
    ensures t.(syncRequests := s.syncRequests) == s
  {
    match GetInstance(s.instances, s.index)
    case Ok(inst) => s.(syncRequests := s.syncRequests + [inst])
    case Err(_) => s
  }

  function Lift(r: Result<(), AppError>): (l: Result<Option<AppMessage>, AppError>)
    ensures l.Ok? <==> r.Ok?
    ensures l.Ok? ==> l.value == None
    ensures l.Err? ==> l.error == r.error
  {
    if r.Ok? then Ok(None) else Err(r.error)
  }

  // ---------------------------------------------------------------------------
  // The application object
  // ---------------------------------------------------------------------------

  class AppSbi {
    var popup: Option<Popup>
    var instances: seq<I.Instance>
    var instanceIndex: nat
    var shouldQuit: bool
    var folders: Folders
    var syncRequests: seq<I.Instance>
    const dataDir: Path
    const config: Config

    function State(): Session
      reads this
    {
      Session(instances, instanceIndex, folders, shouldQuit, syncRequests)
    }

    function InstancesDir(): Path {
      Join(dataDir, "instances")
    }

    ghost predicate PopupValid()
      reads this, if popup.Some? then popup.value.Objects() else {}
    {
      popup.Some? ==> popup.value.Valid()
    }

    constructor (dataDir: Path, executables: map<string, ExecutableConfig>, folders: Folders)
      ensures popup == None && instances == [] && instanceIndex == 0
      ensures !shouldQuit && syncRequests == [] && this.folders == folders
      ensures this.dataDir == dataDir && config == AppConfig(executables, dataDir)
    {
      popup := None;
      instances := [];
      instanceIndex := 0;
      shouldQuit := false;
      this.folders := folders;
      syncRequests := [];
      this.dataDir := dataDir;
      config := AppConfig(executables, dataDir);
    }

    /** There is no way back: `should_quit` is never cleared. */
    method Quit()
      modifies this
      ensures State() == old(State()).(shouldQuit := true) && popup == old(popup)
    {
      shouldQuit := true;
    }

    method SetInstances(list: seq<I.Instance>)
      modifies this
      ensures State() == old(State()).(instances := list) && popup == old(popup)
    {
      instances := list;
    }

    function Instance(index: nat): (r: Result<I.Instance, AppError>)
      reads this
      ensures r == GetInstance(instances, index)
    {
      if index < |instances| then Ok(instances[index]) else Err(NoInstanceAt(index, |instances|))
    }

    method ScrollInstancesUp()
      modifies this
      ensures State() == old(State()).(index := ScrollUp(old(instanceIndex))) && popup == old(popup)
    {
      instanceIndex := Ui.Dec(instanceIndex);
    }

    method ScrollInstancesDown()
      modifies this
      ensures State() == old(State()).(index := ScrollDown(old(instanceIndex), |instances|)) && popup == old(popup)
    {
      instanceIndex := Ui.IncUpTo(instanceIndex, Ui.Dec(|instances|));
    }

    method OpenPopup(p: Popup)
      modifies this
      ensures popup == Some(p) && State() == old(State())
    {
      popup := Some(p);
    }

    method ClosePopup() returns (p: Option<Popup>)
      modifies this
      ensures p == old(popup) && popup == None && State() == old(State())
    {
      p := popup;
      popup := None;
    }

    method UpdateInstances(scan: Scan)
      modifies this
      ensures State() == Refresh(old(State()), scan) && popup == old(popup)
    {
      instances := scan(folders);
    }

    /** The folder loop of `create_instance` (the name is used as typed),
        then the record, the boot configuration and the rereading. */
    method CreateInstance(data: I.InstanceDataJson, scan: Scan) returns (r: Result<(), AppError>, ghost k: nat)
      modifies this
      ensures FirstFree(InstancesDir(), data.name, old(folders).Keys, k)
      ensures (r, State()) == CreateInFolder(old(State()), Candidate(InstancesDir(), data.name, k), data, config, scan)
      ensures popup == old(popup)
    {
      var folder;
      folder, k := FirstFreeFolder(InstancesDir(), data.name, folders.Keys);
      var w := Core.CreateIn(folders, folder, data, config);
      folders := w.1;
      if w.0.Err? {
        r := Err(CoreFailure(w.0.error));
      } else {
        UpdateInstances(scan);
        r := Ok(());
      }
    }

    method DeleteCurrentInstance(scan: Scan) returns (r: Result<(), AppError>)
      modifies this
      ensures (r, State()) == DeleteCurrent(old(State()), scan) && popup == old(popup)
    {
      var current := Instance(instanceIndex);
      if current.Err? {
        return Err(current.error);
      }
      var d := Core.DeleteInstance(folders, current.value);
      if d.0.Err? {
        return Err(CoreFailure(d.0.error));
      }
      folders := d.1;
      UpdateInstances(scan);
      ScrollInstancesUp();
      r := Ok(());
    }

    method ModifyInstance(m: I.ModifyInstance, scan: Scan) returns (r: Result<(), AppError>)
      modifies this
      ensures (r, State()) == ModifyCurrent(old(State()), m, config, scan) && popup == old(popup)
    {
      if instanceIndex < |instances| {
        var modified := I.Modify(instances[instanceIndex], m);
        instances := instances[instanceIndex := modified];
        var w := WriteBoth(folders, modified, config);
        folders := w.1;
        if w.0.Err? {
          return Err(CoreFailure(w.0.error));
        }
      }
      UpdateInstances(scan);
      r := Ok(());
    }

    method ModifyInstances(ms: seq<I.ModifyInstance>, scan: Scan) returns (r: Result<(), AppError>)
      modifies this
      ensures (r, State()) == ModifyAll(old(State()), ms, config, scan) && popup == old(popup)
    {
      var i := 0;
      while i < |ms|
        invariant 0 <= i <= |ms|
        invariant ModifyAll(old(State()), ms, config, scan) == ModifyAll(State(), ms[i..], config, scan)
        invariant popup == old(popup)
      {
        assert ms[i..][1..] == ms[i + 1..];
        r := ModifyInstance(ms[i], scan);
        if r.Err? {
          return;
        }
        i := i + 1;
      }
      r := Ok(());
    }

    method InstallCollection()
      modifies this
      ensures State() == InstallCollectionStep(old(State())) && popup == old(popup)
    {
      var current := Instance(instanceIndex);
      if current.Ok? {
        syncRequests := syncRequests + [current.value];
      }
    }

    /** `handle_message`. Only `ClosePopup` with a popup open returns a
        message: what consuming that popup yields. Launching a game is a
        separate process; its outcome is the parameter `launched`. */
    method HandleMessage(msg: AppMessage, scan: Scan, launched: Result<(), AppError>)
      returns (r: Result<Option<AppMessage>, AppError>)
      requires PopupValid()
      modifies this, if popup.Some? then popup.value.Objects() else {}
      ensures r.Ok? && r.value.Some? ==> msg.ClosePopup? && old(popup).Some?
      ensures msg.ClosePopup? ==> r.Ok? && popup == None && State() == old(State())
      ensures msg.ClosePopup? ==> r == Ok(if old(popup).Some? then old(popup.value.Consumed()) else None)
      ensures msg.ClosePopupNoOp? ==> r == Ok(None) && popup == None && State() == old(State())
      ensures msg.OpenPopup? ==> r == Ok(None) && popup == Some(msg.popup) && State() == old(State())
      ensures !msg.ClosePopup? && !msg.ClosePopupNoOp? && !msg.OpenPopup? ==> popup == old(popup)
      ensures msg.Quit? ==> r == Ok(None) && State() == old(State()).(shouldQuit := true)
      ensures msg.ScrollInstancesUp? ==> r == Ok(None) && State() == old(State()).(index := ScrollUp(old(instanceIndex)))
      ensures msg.ScrollInstancesDown? ==>
        r == Ok(None) && State() == old(State()).(index := ScrollDown(old(instanceIndex), |old(instances)|))
      ensures msg.CreateInstance? ==>
        exists k :: (FirstFree(InstancesDir(), msg.data.name, old(folders).Keys, k)
          && var c := CreateInFolder(old(State()), Candidate(InstancesDir(), msg.data.name, k), msg.data, config, scan);
             r == Lift(c.0) && State() == c.1)
      ensures msg.DeleteInstance? ==>
        r == Lift(DeleteCurrent(old(State()), scan).0) && State() == DeleteCurrent(old(State()), scan).1
      ensures msg.ModifyInstance? ==>
        var c := ModifyAll(old(State()), msg.modifications, config, scan);
        r == Lift(c.0) && State() == c.1
      ensures msg.InstallCollection? ==> r == Ok(None) && State() == InstallCollectionStep(old(State()))
      ensures msg.LaunchInstanceCli? || msg.LaunchInstanceSteam? ==>
        State() == old(State())
        && r == (if old(instanceIndex) < |old(instances)| then Lift(launched)
                 else Err(NoInstanceAt(old(instanceIndex), |old(instances)|)))
      ensures old(shouldQuit) ==> shouldQuit
    {
      if msg.ClosePopup? || msg.ClosePopupNoOp? || msg.OpenPopup? {
        r := HandlePopupMessage(msg);
      } else {
        r := HandleSessionMessage(msg, scan, launched);
      }
    }

    /** The messages that open or close the popup. */
    method HandlePopupMessage(msg: AppMessage) returns (r: Result<Option<AppMessage>, AppError>)
      requires msg.ClosePopup? || msg.ClosePopupNoOp? || msg.OpenPopup?
      requires PopupValid()
      modifies this, if popup.Some? then popup.value.Objects() else {}
      ensures r.Ok? && State() == old(State())
      ensures r.value.Some? ==> msg.ClosePopup? && old(popup).Some?
      ensures msg.OpenPopup? ==> r == Ok(None) && popup == Some(msg.popup)
      ensures !msg.OpenPopup? ==> popup == None
      ensures msg.ClosePopupNoOp? ==> r == Ok(None)
      ensures msg.ClosePopup? ==> r == Ok(if old(popup).Some? then old(popup.value.Consumed()) else None)
    {
      match msg {
        case OpenPopup(p) =>
          OpenPopup(p);
          r := Ok(None);
        case ClosePopup =>
          var p := ClosePopup();
          if p.Some? {
            var consumed := Consume(p.value);
            r := Ok(consumed);
          } else {
            r := Ok(None);
          }
        case ClosePopupNoOp =>
          var _ := ClosePopup();
          r := Ok(None);
      }
    }

    /** The messages that act on the instances, the cursor or the quit
        flag; none of them touches the popup. */
    method HandleSessionMessage(msg: AppMessage, scan: Scan, launched: Result<(), AppError>)
      returns (r: Result<Option<AppMessage>, AppError>)
      requires !msg.ClosePopup? && !msg.ClosePopupNoOp? && !msg.OpenPopup?
      modifies this
      ensures popup == old(popup)
      ensures r.Ok? ==> r.value.None?
      ensures msg.Quit? ==> r == Ok(None) && State() == old(State()).(shouldQuit := true)
      ensures msg.ScrollInstancesUp? ==> r == Ok(None) && State() == old(State()).(index := ScrollUp(old(instanceIndex)))
      ensures msg.ScrollInstancesDown? ==>
        r == Ok(None) && State() == old(State()).(index := ScrollDown(old(instanceIndex), |old(instances)|))
      ensures msg.CreateInstance? ==>
        exists k :: (FirstFree(InstancesDir(), msg.data.name, old(folders).Keys, k)
          && var c := CreateInFolder(old(State()), Candidate(InstancesDir(), msg.data.name, k), msg.data, config, scan);
             r == Lift(c.0) && State() == c.1)
      ensures msg.DeleteInstance? ==>
        r == Lift(DeleteCurrent(old(State()), scan).0) && State() == DeleteCurrent(old(State()), scan).1
      ensures msg.ModifyInstance? ==>
        var c := ModifyAll(old(State()), msg.modifications, config, scan);
        r == Lift(c.0) && State() == c.1
      ensures msg.InstallCollection? ==> r == Ok(None) && State() == InstallCollectionStep(old(State()))
      ensures msg.LaunchInstanceCli? || msg.LaunchInstanceSteam? ==>
        State() == old(State())
        && r == (if old(instanceIndex) < |old(instances)| then Lift(launched)
                 else Err(NoInstanceAt(old(instanceIndex), |old(instances)|)))
      ensures old(shouldQuit) ==> shouldQuit
    {
      match msg {
        case Quit =>
          Quit();
          r := Ok(None);
        case LaunchInstanceCli =>
          r := Launch(launched);
        case LaunchInstanceSteam =>
          r := Launch(launched);
        case ScrollInstancesUp =>
          ScrollInstancesUp();
          r := Ok(None);
        case ScrollInstancesDown =>
          ScrollInstancesDown();
          r := Ok(None);
        case CreateInstance(data) =>
          var c;
          ghost var k;
          c, k := CreateInstance(data, scan);
          r := Lift(c);
        case DeleteInstance =>
          var c := DeleteCurrentInstance(scan);
          r := Lift(c);
        case ModifyInstance(ms) =>
          var c := ModifyInstances(ms, scan);
          r := Lift(c);
        case InstallCollection =>
          InstallCollection();
          r := Ok(None);
      }
    }

    /** The part of launching the model keeps: it needs an instance under
        the cursor. */
    method Launch(launched: Result<(), AppError>) returns (r: Result<Option<AppMessage>, AppError>)
      ensures r == (if instanceIndex < |instances| then Lift(launched) else Err(NoInstanceAt(instanceIndex, |instances|)))
    {
      var current := Instance(instanceIndex);
      if current.Err? {
        return Err(current.error);
      }
      r := Lift(launched);
    }
  }
}
