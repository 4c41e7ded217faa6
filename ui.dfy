/** The terminal-UI vocabulary shared by the widgets and popups: crossterm's
    key events, ratatui's styles, and the two messages a popup's event
    handler can emit. */
module Ui {
  import opened Wrappers

  datatype KeyCode = Up | Down | Left | Right | Enter | Esc | Backspace | Char(c: char) | OtherKey
  datatype KeyEventKind = Press | Repeat | Release
  datatype KeyEvent = KeyEvent(code: KeyCode, kind: KeyEventKind, control: bool)

  /** `OtherEvent` stands for focus, mouse, paste and resize events. */
  datatype Event = Key(key: KeyEvent) | OtherEvent

  predicate IsPress(e: Event, code: KeyCode) {
    e.Key? && e.key.kind == Press && e.key.code == code
  }

  datatype Color = Reset | Red | LightYellow | Indexed(index: nat)
  datatype Style = Style(fg: Option<Color>, bg: Option<Color>)

  const DEFAULT_STYLE: Style := Style(None, None)

  /** The messages `ClosePopup` and `ClosePopupNoOp` that popups hand back
      to the application from `handle_event`. */
  datatype Signal = ClosePopup | ClosePopupNoOp

  /** `usize::saturating_sub(1)`. */
  function Dec(i: nat): (r: nat)
    ensures i == 0 ==> r == 0
    ensures i > 0 ==> r + 1 == i
  {
    if i == 0 then 0 else i - 1
  }

  /** `i.saturating_add(1).min(bound)`: one step towards `bound`, never past it. */
  function IncUpTo(i: nat, bound: nat): (r: nat)
    ensures r <= bound
    ensures i < bound ==> r == i + 1
    ensures i >= bound ==> r == bound
  {
    if i + 1 < bound then i + 1 else bound
  }

  /** A key press a form forwards to its focused field: anything but Enter,
      Up and Down. */
  predicate IsFieldKey(e: Event) {
    e.Key? && e.key.kind == Press && e.key.code != Enter && e.key.code != Up && e.key.code != Down
  }

  /** Up and Down move the focus of a form between its rows `0..=last`,
      clamping at both ends. */
  function MoveFocus(focus: nat, last: nat, e: Event): (r: nat)
    ensures focus <= last ==> r <= last
    ensures !IsPress(e, Up) && !IsPress(e, Down) ==> r == focus
    ensures IsPress(e, Up) ==> r == Dec(focus)
    ensures IsPress(e, Down) ==> r == IncUpTo(focus, last)
  {
    if IsPress(e, Up) then Dec(focus)
    else if IsPress(e, Down) then IncUpTo(focus, last)
    else focus
  }
}
