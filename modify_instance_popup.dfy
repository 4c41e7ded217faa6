/** `ModifyInstancePopup` (src/tui/ui/popups/modify_instance_executable.rs):
    a form with three rows (executable spinner, collection id text, `[Ok]`)
    whose confirmation yields the edits for the current instance. */
module ModifyInstancePopups {
  import opened Wrappers
  import opened Ui
  import opened Text
  import opened Spinners
  import opened TextAreas
  import opened Instances

  const DEFAULT_OPTION: string := "Default"

  /** The last row, `[Ok]`. */
  const LAST_ROW: nat := 2

  /** The spinner's options: "Default" first, then the executables in order. */
  function ExecutableOptions(executables: seq<string>): (options: seq<string>)
    ensures |options| == |executables| + 1 && options[0] == DEFAULT_OPTION
    ensures options[1..] == executables
  {
    [DEFAULT_OPTION] + executables
  }

  /** `iter().position(|t| x == t)`. */
  function Position(options: seq<string>, x: string): (r: Option<nat>)
    ensures r.Some? ==> r.value < |options| && options[r.value] == x && x !in options[..r.value]
    ensures r.None? ==> x !in options
  {
    if options == [] then None
    else if options[0] == x then Some(0)
    else match Position(options[1..], x)
      case None => None
      case Some(i) =>
        assert options[..i + 1] == [options[0]] + options[1..][..i];
        Some(i + 1)
  }

  /** The initial spinner index for an instance's executable. */
  function InitialIndex(options: seq<string>, executable: Option<string>): nat {
    Position(options, executable.GetOr(DEFAULT_OPTION)).GetOr(0)
  }

  /** The spinner starts on the first option naming the instance's
      executable, on "Default" when it has none, and on "Default" too when
      the executable is not configured. */
  lemma InitialIndexSpec(executables: seq<string>, executable: Option<string>)
    ensures InitialIndex(ExecutableOptions(executables), executable) < |executables| + 1
    ensures executable.None? ==> InitialIndex(ExecutableOptions(executables), executable) == 0
    ensures executable.Some? && executable.value in executables ==>
      var i := InitialIndex(ExecutableOptions(executables), executable);
      ExecutableOptions(executables)[i] == executable.value
      && executable.value !in ExecutableOptions(executables)[..i]
    ensures executable.Some? && executable.value !in executables && executable.value != DEFAULT_OPTION ==>
      InitialIndex(ExecutableOptions(executables), executable) == 0
  {
    var options := ExecutableOptions(executables);
    if executable.Some? && executable.value in executables {
      var k :| 0 <= k < |executables| && executables[k] == executable.value;
      assert options[k + 1] == executable.value;
    }
  }

  /** What `consume` yields for a spinner index and collection text: the
      executable edit first, then the collection edit. */
  function Edits(options: seq<string>, index: nat, collectionLines: seq<string>): (mods: seq<ModifyInstance>)
    requires index < |options|
    ensures |mods| == 2 && mods[0].Executable? && mods[1].Collection?
    ensures mods[0].executable.None? <==> index == 0
    ensures mods[0].executable.Some? ==> mods[0].executable.value == options[index]
    ensures mods[1].collectionId == OptionalText(collectionLines)
  {
    [Executable(if index > 0 then Some(options[index]) else None), Collection(OptionalText(collectionLines))]
  }

  /** Confirming the popup without touching it leaves the instance as it
      was, provided its executable is one of the configured ones (and not
      literally named "Default") and its collection id is not `Some("")`. */
  lemma UneditedConfirmKeepsInstance(inst: Instance, executables: seq<string>)
    requires inst.Executable().Some? ==> inst.Executable().value in executables && inst.Executable().value != DEFAULT_OPTION
    requires inst.CollectionId() != Some([])
    ensures
      var options := ExecutableOptions(executables);
      var mods := Edits(options, InitialIndex(options, inst.Executable()), [inst.CollectionId().GetOr([])]);
      Modify(Modify(inst, mods[0]), mods[1]) == inst
  {
    var options := ExecutableOptions(executables);
    InitialIndexSpec(executables, inst.Executable());
    var i := InitialIndex(options, inst.Executable());
    if inst.Executable().Some? {
      assert options[i] == inst.Executable().value != DEFAULT_OPTION;
      assert i != 0;
    }
    NonEmptyRoundTrip(inst.CollectionId());
  }

  /** An instance whose executable is no longer configured loses it on
      confirmation, even when the user changed nothing. */
  lemma UnconfiguredExecutableIsDropped(inst: Instance, executables: seq<string>)
    requires inst.Executable().Some? && inst.Executable().value !in executables
    requires inst.Executable().value != DEFAULT_OPTION
    ensures
      var options := ExecutableOptions(executables);
      var mods := Edits(options, InitialIndex(options, inst.Executable()), [inst.CollectionId().GetOr([])]);
      Modify(inst, mods[0]).Executable() == None
  {
    InitialIndexSpec(executables, inst.Executable());
  }

  class ModifyInstancePopup {
    var instance: Instance
    const execSpinner: Spinner
    const collectionText: TextArea
    var optionInteractable: nat

    ghost predicate Valid()
      reads this, execSpinner
    {
      execSpinner.Valid() && optionInteractable <= LAST_ROW
    }

    constructor (instance: Instance, executables: seq<string>)
      ensures this.instance == instance && optionInteractable == 0
      ensures execSpinner.options == ExecutableOptions(executables)
      ensures execSpinner.selected == InitialIndex(ExecutableOptions(executables), instance.Executable())
      ensures execSpinner.hideUnavailableMove
      ensures collectionText.lines == [instance.CollectionId().GetOr([])]
      ensures fresh(execSpinner) && fresh(collectionText)
      ensures Valid()
    {
      var options := ExecutableOptions(executables);
      var index := InitialIndex(options, instance.Executable());
      InitialIndexSpec(executables, instance.Executable());
      var spinner := new Spinner(options);
      spinner.SetHideUnavailableMove(true);
      spinner.SetOptionIndex(index);
      this.instance := instance;
      execSpinner := spinner;
      collectionText := new TextArea([instance.CollectionId().GetOr([])]);
      optionInteractable := 0;
    }

    /** Up/Down move the focus; Enter confirms only on `[Ok]` (the form is
        always valid); other keys go to the focused field. */
    method HandleEvent(e: Event, edit: TextEdit) returns (r: Option<Signal>)
      requires Valid()
      modifies this, execSpinner, collectionText
      ensures Valid()
      ensures optionInteractable == MoveFocus(old(optionInteractable), LAST_ROW, e)
      ensures r == (if IsPress(e, Enter) && old(optionInteractable) == LAST_ROW then Some(ClosePopup) else None)
      ensures execSpinner.options == old(execSpinner.options)
      ensures execSpinner.selected ==
        if IsFieldKey(e) && old(optionInteractable) == 0
        then InputIndex(old(execSpinner.selected), |execSpinner.options|, e.key.code)
        else old(execSpinner.selected)
      ensures collectionText.lines ==
        if IsFieldKey(e) && old(optionInteractable) == 1 then edit(old(collectionText.lines), e.key)
        else old(collectionText.lines)
      ensures instance == old(instance)
    {
      r := None;
      if e.Key? && e.key.kind == Press {
        match e.key.code {
          case Enter =>
            if optionInteractable == LAST_ROW {
              r := Some(ClosePopup);
            }
          case Up =>
            optionInteractable := Dec(optionInteractable);
          case Down =>
            optionInteractable := IncUpTo(optionInteractable, LAST_ROW);
          case _ =>
            if optionInteractable == 0 {
              var _ := execSpinner.Input(e.key);
            } else if optionInteractable == 1 {
              var _ := collectionText.Input(e.key, edit);
            }
        }
      }
    }

    /** The edits to apply to the instance. */
    method Consume() returns (mods: seq<ModifyInstance>)
      requires Valid()
      ensures mods == Edits(execSpinner.options, execSpinner.selected, collectionText.lines)
    {
      var executable := if execSpinner.selected > 0 then Some(execSpinner.OptionValue()) else None;
      var collection := OptionalText(collectionText.lines);
      mods := [Executable(executable), Collection(collection)];
    }
  }
}
