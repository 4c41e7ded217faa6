/** `Spinner` (src/tui/ui/widgets/spinner.rs): a one-line selector that
    cycles through a list of options with the Left and Right keys, without
    wrapping. */
module Spinners {
  import opened Ui

  /** The selection after `input` receives a key with the given code. */
  function InputIndex(selected: nat, len: nat, code: KeyCode): (r: nat)
    requires code == Right ==> len > 0
  {
    match code
    case Left => Dec(selected)
    case Right => IncUpTo(selected, len - 1)
    case _ => selected
  }

  class Spinner {
    var options: seq<string>
    var selected: nat
    var arrowLeft: string
    var arrowRight: string
    var hideUnavailableMove: bool

    /** The selection names an option. */
    ghost predicate Valid()
      reads this
    {
      selected < |options|
    }

    constructor (options: seq<string>)
      ensures this.options == options && selected == 0
      ensures arrowLeft == "<" && arrowRight == ">" && !hideUnavailableMove
      ensures options != [] ==> Valid()
    {
      this.options := options;
      selected := 0;
      arrowLeft := "<";
      arrowRight := ">";
      hideUnavailableMove := false;
    }

    method SpinLeft()
      modifies this
      ensures selected == Dec(old(selected))
      ensures options == old(options) && arrowLeft == old(arrowLeft) && arrowRight == old(arrowRight)
      ensures hideUnavailableMove == old(hideUnavailableMove)
      ensures old(Valid()) ==> Valid()
    {
      selected := Dec(selected);
    }

    /** `len - 1` underflows on an empty option list, so callers keep it
        non-empty. */
    method SpinRight()
      requires options != []
      modifies this
      ensures options == old(options) && arrowLeft == old(arrowLeft) && arrowRight == old(arrowRight)
      ensures selected == IncUpTo(old(selected), |options| - 1)
      ensures hideUnavailableMove == old(hideUnavailableMove)
      ensures Valid()
    {
      selected := IncUpTo(selected, |options| - 1);
    }

    method SetHideUnavailableMove(flag: bool)
      modifies this
      ensures hideUnavailableMove == flag
      ensures options == old(options) && selected == old(selected)
      ensures arrowLeft == old(arrowLeft) && arrowRight == old(arrowRight)
    {
      hideUnavailableMove := flag;
    }

    /** No bounds check: a caller that sets an index past the end makes
        `get_option_value` panic. */
    method SetOptionIndex(index: nat)
      modifies this
      ensures selected == index
      ensures options == old(options) && arrowLeft == old(arrowLeft) && arrowRight == old(arrowRight)
      ensures hideUnavailableMove == old(hideUnavailableMove)
    {
      selected := index;
    }

    function OptionValue(): (v: string)
      reads this
      requires Valid()
      ensures v in options
    {
      options[selected]
    }

    /** Left and Right spin and report the key as handled; every other key
        is ignored and changes nothing. */
    method Input(key: KeyEvent) returns (handled: bool)
      requires key.code == Right ==> options != []
      modifies this
      ensures options == old(options) && arrowLeft == old(arrowLeft) && arrowRight == old(arrowRight)
      ensures handled <==> key.code == Left || key.code == Right
      ensures selected == InputIndex(old(selected), |options|, key.code)
      ensures hideUnavailableMove == old(hideUnavailableMove)
      ensures old(Valid()) ==> Valid()
    {
      match key.code {
        case Left =>
          SpinLeft();
          handled := true;
        case Right =>
          SpinRight();
          handled := true;
        case _ =>
          handled := false;
      }
    }

    predicate LeftAvailable()
      reads this
    {
      selected != 0
    }

    predicate RightAvailable()
      reads this
      requires options != []
    {
      selected != |options| - 1
    }

    /** The arrow drawn on the left: a blank exactly when the move is
        unavailable and unavailable moves are hidden. */
    function LeftArrow(): (s: string)
      reads this
      requires arrowLeft != " "
      ensures s == " " <==> !LeftAvailable() && hideUnavailableMove
      ensures s != " " ==> s == arrowLeft
    {
      if !LeftAvailable() && hideUnavailableMove then " " else arrowLeft
    }

    function RightArrow(): (s: string)
      reads this
      requires options != [] && arrowRight != " "
      ensures s == " " <==> !RightAvailable() && hideUnavailableMove
      ensures s != " " ==> s == arrowRight
    {
      if !RightAvailable() && hideUnavailableMove then " " else arrowRight
    }
  }

  /** Left is unavailable only at the first option and Right only at the
      last; spinning towards an available arrow moves by exactly one. */
  lemma ArrowsMatchMoves(selected: nat, len: nat)
    requires selected < len
    ensures InputIndex(selected, len, Left) == Dec(selected)
    ensures InputIndex(selected, len, Right) == IncUpTo(selected, len - 1)
    ensures forall c: KeyCode :: c != Left && c != Right ==> InputIndex(selected, len, c) == selected
    ensures selected != 0 <==> Dec(selected) != selected
    ensures selected != len - 1 <==> IncUpTo(selected, len - 1) != selected
    ensures Dec(selected) < len && IncUpTo(selected, len - 1) < len
  {
  }
}
