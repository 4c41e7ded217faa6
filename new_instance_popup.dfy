/** `NewInstancePopup` (src/tui/ui/popups/new_instance.rs): a form with
    four rows (name text, executable spinner, collection id text, `[Ok]`)
    whose confirmation yields the record of the instance to create. The
    name check `is_instance_name_valid` lives outside this file, so it is a
    parameter. */
module NewInstancePopups {
  import opened Wrappers
  import opened Ui
  import opened Text
  import opened Spinners
  import opened TextAreas
  import opened Instances
  import ModifyInstancePopups

  /** The last row, `[Ok]`. */
  const LAST_ROW: nat := 3

  /** The executable chosen at a spinner index: "Default" means none. */
  function ChosenExecutable(options: seq<string>, index: nat): (r: Option<string>)
    requires index < |options|
    ensures r.None? <==> index == 0
    ensures r.Some? ==> r.value == options[index] && r.value in options[1..]
  {
    if index == 0 then None else Some(options[index])
  }

  /** The record `consume` builds. */
  function Record(nameLines: seq<string>, options: seq<string>, index: nat, collectionLines: seq<string>): (json: InstanceDataJson)
    requires index < |options|
    ensures json.name == Concat(nameLines)
    ensures json.executable == ChosenExecutable(options, index)
    ensures json.additionalAssets == None
    ensures json.collectionId.None? <==> forall i :: 0 <= i < |collectionLines| ==> collectionLines[i] == []
    ensures json.collectionId.Some? ==> json.collectionId.value == Concat(collectionLines)
  {
    InstanceDataJson(Concat(nameLines), ChosenExecutable(options, index), None, OptionalText(collectionLines))
  }

  /** Confirming an untouched form asks for an unnamed instance with the
      default executable, no collection and no extra assets. */
  lemma UntouchedRecord(executables: seq<string>)
    ensures Record([[]], ModifyInstancePopups.ExecutableOptions(executables), 0, [[]])
      == InstanceDataJson([], None, None, None)
  {
  }

  class NewInstancePopup {
    const instanceName: TextArea
    const execSpinner: Spinner
    const collectionText: TextArea
    var optionInteractable: nat

    ghost predicate Valid()
      reads this, execSpinner
    {
      execSpinner.Valid() && optionInteractable <= LAST_ROW && instanceName != collectionText
    }

    constructor (executables: seq<string>)
      ensures instanceName.lines == [[]] && collectionText.lines == [[]]
      ensures execSpinner.options == ModifyInstancePopups.ExecutableOptions(executables)
      ensures execSpinner.selected == 0 && execSpinner.hideUnavailableMove
      ensures optionInteractable == 0
      ensures fresh(instanceName) && fresh(execSpinner) && fresh(collectionText)
      ensures Valid()
    {
      instanceName := new TextArea([[]]);
      var spinner := new Spinner(ModifyInstancePopups.ExecutableOptions(executables));
      spinner.SetHideUnavailableMove(true);
      execSpinner := spinner;
      collectionText := new TextArea([[]]);
      optionInteractable := 0;
    }

    function InstanceName(): string
      reads this, instanceName
    {
      instanceName.Text()
    }

    function Executable(): (r: Option<string>)
      reads this, execSpinner
      requires Valid()
      ensures r.None? <==> execSpinner.selected == 0
      ensures r.Some? ==> r.value == execSpinner.OptionValue()
    {
      ChosenExecutable(execSpinner.options, execSpinner.selected)
    }

    /** Up/Down move the focus; Enter confirms only on `[Ok]` and only with
        a valid name; other keys go to the focused field (the name field
        without the editor's shortcuts). */
    method HandleEvent(e: Event, nameIsValid: string -> bool, editName: TextEdit, edit: TextEdit)
      returns (r: Option<Signal>)
      requires Valid()
      modifies this, instanceName, execSpinner, collectionText
      ensures Valid()
      ensures optionInteractable == MoveFocus(old(optionInteractable), LAST_ROW, e)
      ensures r == (if IsPress(e, Enter) && old(optionInteractable) == LAST_ROW && nameIsValid(Concat(old(instanceName.lines)))
                    then Some(ClosePopup) else None)
      ensures execSpinner.options == old(execSpinner.options)
      ensures execSpinner.selected ==
        if IsFieldKey(e) && old(optionInteractable) == 1
        then InputIndex(old(execSpinner.selected), |execSpinner.options|, e.key.code)
        else old(execSpinner.selected)
      ensures instanceName.lines ==
        if IsFieldKey(e) && old(optionInteractable) == 0 then editName(old(instanceName.lines), e.key)
        else old(instanceName.lines)
      ensures collectionText.lines ==
        if IsFieldKey(e) && old(optionInteractable) == 2 then edit(old(collectionText.lines), e.key)
        else old(collectionText.lines)
    {
      r := None;
      if e.Key? && e.key.kind == Press {
        match e.key.code {
          case Enter =>
            if optionInteractable == LAST_ROW && nameIsValid(InstanceName()) {
              r := Some(ClosePopup);
            }
          case Up =>
            optionInteractable := Dec(optionInteractable);
          case Down =>
            optionInteractable := IncUpTo(optionInteractable, LAST_ROW);
          case _ =>
            if optionInteractable == 0 {
              var _ := instanceName.Input(e.key, editName);
            } else if optionInteractable == 1 {
              var _ := execSpinner.Input(e.key);
            } else if optionInteractable == 2 {
              var _ := collectionText.Input(e.key, edit);
            }
        }
      }
    }

    /** The record of the instance to create. */
    method Consume() returns (json: InstanceDataJson)
      requires Valid()
      ensures json == Record(instanceName.lines, execSpinner.options, execSpinner.selected, collectionText.lines)
    {
      var name := InstanceName();
      var executable := Executable();
      var collection := OptionalText(collectionText.lines);
      json := InstanceDataJson(name, executable, None, collection);
    }
  }
}
