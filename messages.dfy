/** The application's messages (`AppMessage`, declared identically in
    src/app.rs and src/deprecated/app.rs) and the boxed popup they can carry
    (`Box<dyn ConsumablePopup<AppMessage>>`), here a union over the popup
    classes of the model. */
module Messages {
  import opened Wrappers
  import Ui
  import I = Instances
  import opened ListSelect
  import opened Confirmation
  import opened ModifyInstancePopups
  import opened NewInstancePopups
  import opened TextAreas
  import Spinners
  import Text

  datatype AppMessage =
    | Quit
    | LaunchInstanceCli
    | LaunchInstanceSteam
    | ScrollInstancesUp
    | ScrollInstancesDown
    | OpenPopup(popup: Popup)
    | ClosePopup
    | ClosePopupNoOp
    | CreateInstance(data: I.InstanceDataJson)
    | DeleteInstance
    | ModifyInstance(modifications: seq<I.ModifyInstance>)
    | InstallCollection

  datatype Popup =
    | ListSelectMenu(list: ListSelectPopup<AppMessage>)
    | ConfirmationDialog(confirmation: ConfirmationPopup<AppMessage>)
    | ModifyInstanceForm(editForm: ModifyInstancePopup)
    | NewInstanceForm(newForm: NewInstancePopup)
  {
    /** The objects the popup owns. */
    function Objects(): set<object> {
      match this
      case ListSelectMenu(l) => {l}
      case ConfirmationDialog(c) => {c}
      case ModifyInstanceForm(m) => {m, m.execSpinner, m.collectionText}
      case NewInstanceForm(n) => {n, n.instanceName, n.execSpinner, n.collectionText}
    }

    ghost predicate Valid()
      reads Objects()
    {
      match this
      case ListSelectMenu(_) => true
      case ConfirmationDialog(_) => true
      case ModifyInstanceForm(m) => m.Valid()
      case NewInstanceForm(n) => n.Valid()
    }

    /** The popup's fields that an event can change or that its handler
        reads, as a value. */
    function State(): PopupState
      reads Objects()
    {
      match this
      case ListSelectMenu(l) => MenuState(l.selected, l.items)
      case ConfirmationDialog(c) => DialogState(c.buttonIndex, c.message)
      case ModifyInstanceForm(m) =>
        EditFormState(m.optionInteractable, m.execSpinner.options, m.execSpinner.selected, m.collectionText.lines)
      case NewInstanceForm(n) =>
        NewFormState(n.optionInteractable, n.instanceName.lines, n.execSpinner.options, n.execSpinner.selected,
                     n.collectionText.lines)
    }

    /** What consuming the popup yields in the current state: the selected
        menu item's message (none past the end), the dialog's guarded
        message, or the message that applies the form. */
    function Consumed(): Option<AppMessage>
      requires Valid()
      reads Objects()
    {
      match this
      case ListSelectMenu(l) =>
        if l.selected < |l.items| then Some(l.items[l.selected].1) else None
      case ConfirmationDialog(c) => c.message
      case ModifyInstanceForm(m) =>
        Some(ModifyInstance(Edits(m.execSpinner.options, m.execSpinner.selected, m.collectionText.lines)))
      case NewInstanceForm(n) =>
        Some(CreateInstance(Record(n.instanceName.lines, n.execSpinner.options,
                                   n.execSpinner.selected, n.collectionText.lines)))
    }
  }

  /** A popup's state as its event handler sees it: the menu's selection and
      items, the dialog's highlighted button and message, a form's focused
      row and fields. */
  datatype PopupState =
    | MenuState(selected: nat, items: seq<(string, AppMessage)>)
    | DialogState(buttonIndex: nat, message: Option<AppMessage>)
    | EditFormState(focus: nat, options: seq<string>, selected: nat, collection: seq<string>)
    | NewFormState(focus: nat, name: seq<string>, options: seq<string>, selected: nat, collection: seq<string>)

  /** What the handlers need: a menu moved down has items, a form's spinner
      names an option. */
  predicate CanHandle(s: PopupState, e: Ui.Event) {
    match s
    case MenuState(_, items) => Ui.IsPress(e, Ui.Down) ==> items != []
    case DialogState(_, _) => true
    case EditFormState(_, options, selected, _) => selected < |options|
    case NewFormState(_, _, options, selected, _) => selected < |options|
  }

  /** The signal a handler returns, as the message the application gets. */
  function Signalled(s: Option<Ui.Signal>): (m: Option<AppMessage>)
    ensures m.None? <==> s.None?
    ensures m == Some(ClosePopup) <==> s == Some(Ui.ClosePopup)
    ensures m == Some(ClosePopupNoOp) <==> s == Some(Ui.ClosePopupNoOp)
  {
    if s.Some? then Some(FromSignal(s.value)) else None
  }

  /** One event through the concrete popup's `handle_event`: the menu and the
      dialog step as `ListSelect.Step` and `Confirmation.Step`; a form moves
      its focus with Up and Down, passes any other key to the focused field,
      and closes on Enter on its last row (the new-instance form only with a
      valid name). The result is the new state and the message returned.
      Only a dialog cancels, events other than keys change nothing, and the
      menu's items, the dialog's message and the spinner options stay. */
  function Handled(s: PopupState, e: Ui.Event, nameIsValid: string -> bool, editName: TextEdit, edit: TextEdit)
    : (r: (PopupState, Option<AppMessage>))
    requires CanHandle(s, e)
    ensures r.1.None? || r.1 == Some(ClosePopup) || r.1 == Some(ClosePopupNoOp)
    ensures r.1 == Some(ClosePopupNoOp) ==> s.DialogState?
    ensures !e.Key? ==> r == (s, None)
    ensures s.MenuState? ==> r.0.MenuState? && r.0.items == s.items
    ensures s.DialogState? ==> r.0.DialogState? && r.0.message == s.message
    ensures s.EditFormState? ==> r.0.EditFormState? && r.0.options == s.options && r.0.selected < |r.0.options|
    ensures s.NewFormState? ==> r.0.NewFormState? && r.0.options == s.options && r.0.selected < |r.0.options|
  {
    match s
    case MenuState(selected, items) =>
      ListSelect.StepSpec(selected, |items|, e);
      var step := ListSelect.Step(selected, |items|, e);
      (MenuState(step.0, items), Signalled(step.1))
    case DialogState(buttonIndex, message) =>
      var step := Confirmation.Step(buttonIndex, e);
      (DialogState(step.0, message), Signalled(step.1))
    case EditFormState(focus, options, selected, collection) =>
      var last := ModifyInstancePopups.LAST_ROW;
      (EditFormState(
         Ui.MoveFocus(focus, last, e), options,
         if Ui.IsFieldKey(e) && focus == 0 then Spinners.InputIndex(selected, |options|, e.key.code) else selected,
         if Ui.IsFieldKey(e) && focus == 1 then edit(collection, e.key) else collection),
       if Ui.IsPress(e, Ui.Enter) && focus == last then Some(ClosePopup) else None)
    case NewFormState(focus, name, options, selected, collection) =>
      var last := NewInstancePopups.LAST_ROW;
      (NewFormState(
         Ui.MoveFocus(focus, last, e),
         if Ui.IsFieldKey(e) && focus == 0 then editName(name, e.key) else name,
         options,
         if Ui.IsFieldKey(e) && focus == 1 then Spinners.InputIndex(selected, |options|, e.key.code) else selected,
         if Ui.IsFieldKey(e) && focus == 2 then edit(collection, e.key) else collection),
       if Ui.IsPress(e, Ui.Enter) && focus == last && nameIsValid(Text.Concat(name)) then Some(ClosePopup) else None)
  }

  function FromSignal(s: Ui.Signal): (m: AppMessage)
    ensures s.ClosePopup? <==> m.ClosePopup?
    ensures s.ClosePopupNoOp? <==> m.ClosePopupNoOp?
  {
    match s
    case ClosePopup => ClosePopup
    case ClosePopupNoOp => ClosePopupNoOp
  }

  /** `ConsumablePopup::consume` through the box: a menu yields the chosen
      message, a dialog its guarded message, the forms the message that
      applies them. */
  method Consume(p: Popup) returns (r: Option<AppMessage>)
    requires p.Valid()
    modifies p.Objects()
    ensures p.Valid()
    ensures r == old(p.Consumed())
    ensures p.ListSelectMenu? ==>
      var l := p.list;
      (old(l.selected) < |old(l.items)| ==> r == Some(old(l.items)[old(l.selected)].1))
      && (old(l.selected) >= |old(l.items)| ==> r == None)
    ensures p.ConfirmationDialog? ==> r == old(p.confirmation.message)
    ensures p.ModifyInstanceForm? ==>
      r == Some(ModifyInstance(Edits(p.editForm.execSpinner.options, p.editForm.execSpinner.selected, p.editForm.collectionText.lines)))
    ensures p.NewInstanceForm? ==>
      r == Some(CreateInstance(Record(p.newForm.instanceName.lines, p.newForm.execSpinner.options,
                                      p.newForm.execSpinner.selected, p.newForm.collectionText.lines)))
  {
    match p {
      case ListSelectMenu(l) =>
        r := l.Consume();
      case ConfirmationDialog(c) =>
        r := c.Consume();
      case ModifyInstanceForm(m) =>
        var mods := m.Consume();
        r := Some(ModifyInstance(mods));
      case NewInstanceForm(n) =>
        var json := n.Consume();
        r := Some(CreateInstance(json));
    }
  }

  /** `UIComponent::handle_event` through the box. Whatever the popup, the
      only messages it emits are `ClosePopup` and `ClosePopupNoOp`, and
      only a confirmation dialog emits the latter. The editors of the text
      fields and the name check are parameters. */
  method HandleEvent(p: Popup, e: Ui.Event, nameIsValid: string -> bool, editName: TextEdit, edit: TextEdit)
    returns (r: Option<AppMessage>)
    requires p.Valid()
    requires p.ListSelectMenu? && Ui.IsPress(e, Ui.Down) ==> p.list.items != []
    modifies p.Objects()
    ensures p.Valid()
    ensures r.None? || r == Some(ClosePopup) || r == Some(ClosePopupNoOp)
    ensures r == Some(ClosePopupNoOp) ==> p.ConfirmationDialog?
    ensures !e.Key? ==> r.None?
    ensures (p.State(), r) == Handled(old(p.State()), e, nameIsValid, editName, edit)
  {
    var s: Option<Ui.Signal>;
    match p {
      case ListSelectMenu(l) =>
        s := l.HandleEvent(e);
        ListSelect.StepSpec(old(l.selected), |l.items|, e);
      case ConfirmationDialog(c) =>
        s := c.HandleEvent(e);
      case ModifyInstanceForm(m) =>
        s := m.HandleEvent(e, edit);
      case NewInstanceForm(n) =>
        s := n.HandleEvent(e, nameIsValid, editName, edit);
    }
    r := Signalled(s);
  }
}
