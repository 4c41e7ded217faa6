/** An instance of the game: a folder holding `instance.json`
    (src/instance.rs, with the record of src/json.rs). An `Instance` is an
    owned, cloned value in the source, so it is a datatype here and
    `modify(&mut self)` returns the updated value. */
module Instances {
  import opened Wrappers
  import opened Paths

  datatype InstanceDataJson = InstanceDataJson(
    name: string,
    executable: Option<string>,
    additionalAssets: Option<seq<string>>,
    collectionId: Option<string>)

  datatype ModifyInstance =
    | Name(name: string)
    | Executable(executable: Option<string>)
    | Collection(collectionId: Option<string>)

  datatype InstanceError = NotInAFolder

  const INSTANCE_JSON_NAME: string := "instance.json"

  datatype Instance = Instance(folderPath: Path, json: InstanceDataJson) {
    function Executable(): Option<string> { json.executable }
    function Name(): string { json.name }
    function AdditionalAssets(): Option<seq<string>> { json.additionalAssets }
    function CollectionId(): Option<string> { json.collectionId }
    function FolderPath(): Path { folderPath }
    function ToJson(): InstanceDataJson { json }
  }

  /** `Instance::from_json`: the instance lives in the folder holding the
      given json file; a path without a parent is an error. */
  function FromJson(json: InstanceDataJson, path: Path): (r: Result<Instance, InstanceError>)
  {
    match Parent(path)
    case None => Err(NotInAFolder)
    case Some(folder) => Ok(Instance(folder, json))
  }

  /** Reading an instance back from the json file of a folder gives that
      folder and the stored record through every accessor. */
  lemma FromJsonInFolder(json: InstanceDataJson, folder: Path)
    requires Canonical(folder)
    ensures FromJson(json, Join(folder, INSTANCE_JSON_NAME)).Ok?
    ensures var inst := FromJson(json, Join(folder, INSTANCE_JSON_NAME)).value;
      && inst.FolderPath() == folder && inst.ToJson() == json
      && inst.Name() == json.name && inst.Executable() == json.executable
      && inst.AdditionalAssets() == json.additionalAssets && inst.CollectionId() == json.collectionId
  {
    ParentOfJoin(folder, INSTANCE_JSON_NAME);
  }

  /** The root and the empty path have no parent: no instance there. */
  lemma FromJsonWithoutFolder(json: InstanceDataJson)
    ensures FromJson(json, "").Err? && FromJson(json, "/").Err?
  {
  }

  /** `Instance::modify`: each modification sets its own field. */
  function Modify(inst: Instance, modification: ModifyInstance): (r: Instance)
    ensures r.FolderPath() == inst.FolderPath() && r.AdditionalAssets() == inst.AdditionalAssets()
    ensures r.Name() == (if modification.Name? then modification.name else inst.Name())
    ensures r.Executable() == (if modification.Executable? then modification.executable else inst.Executable())
    ensures r.CollectionId() == (if modification.Collection? then modification.collectionId else inst.CollectionId())
  {
    match modification
    case Name(name) => inst.(json := inst.json.(name := name))
    case Executable(exec) => inst.(json := inst.json.(executable := exec))
    case Collection(c) => inst.(json := inst.json.(collectionId := c))
  }

  /** Applying the same modification twice is applying it once. */
  lemma ModifyIdempotent(inst: Instance, m: ModifyInstance)
    ensures Modify(Modify(inst, m), m) == Modify(inst, m)
  {
  }

  /** Modifications of different fields commute. */
  lemma ModifyCommutes(inst: Instance, m1: ModifyInstance, m2: ModifyInstance)
    requires (m1.Name? && !m2.Name?) || (m1.Executable? && !m2.Executable?) || (m1.Collection? && !m2.Collection?)
    ensures Modify(Modify(inst, m1), m2) == Modify(Modify(inst, m2), m1)
  {
  }
}
