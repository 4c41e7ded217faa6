/** `ConfirmationPopup` (src/ui/popups/confirmation.rs): an `[Ok]` /
    `[Cancel]` dialog guarding a message. `button_index` 0 is Cancel (the
    right-hand button) and 1 is Ok (the left-hand one). */
module Confirmation {
  import opened Wrappers
  import opened Ui

  datatype Button = OkButton | CancelButton

  /** The button drawn highlighted at a given index. */
  function Highlighted(buttonIndex: nat): Button {
    if buttonIndex == 0 then CancelButton else OkButton
  }

  /** What one event does to the index, and what it returns. */
  function Step(buttonIndex: nat, e: Event): (r: (nat, Option<Signal>)) {
    if !e.Key? || e.key.kind != Press then (buttonIndex, None)
    else match e.key.code
      case Enter =>
        if buttonIndex == 0 then (buttonIndex, Some(ClosePopupNoOp))
        else if buttonIndex == 1 then (buttonIndex, Some(ClosePopup))
        else (buttonIndex, None)
      case Left => (if buttonIndex == 0 then 1 else buttonIndex, None)
      case Right => (if buttonIndex == 1 then 0 else buttonIndex, None)
      case _ => (buttonIndex, None)
  }

  /** The index stays in {0, 1}; Left lands on Ok and Right on Cancel; Enter
      confirms exactly when Ok is highlighted and cancels exactly when Cancel
      is; only Left and Right change the index. */
  lemma StepSpec(buttonIndex: nat, e: Event)
    requires buttonIndex <= 1
    ensures Step(buttonIndex, e).0 <= 1
    ensures IsPress(e, Left) ==> Highlighted(Step(buttonIndex, e).0) == OkButton
    ensures IsPress(e, Right) ==> Highlighted(Step(buttonIndex, e).0) == CancelButton
    ensures Step(buttonIndex, e).1 == Some(ClosePopup) <==> IsPress(e, Enter) && Highlighted(buttonIndex) == OkButton
    ensures Step(buttonIndex, e).1 == Some(ClosePopupNoOp) <==> IsPress(e, Enter) && Highlighted(buttonIndex) == CancelButton
    ensures !IsPress(e, Left) && !IsPress(e, Right) ==> Step(buttonIndex, e).0 == buttonIndex
  {
  }

  class ConfirmationPopup<M> {
    var message: Option<M>
    var text: string
    var buttonIndex: nat

    ghost predicate Valid()
      reads this
    {
      buttonIndex <= 1
    }

    constructor (message: M, text: string)
      ensures this.message == Some(message) && this.text == text && buttonIndex == 0
      ensures Valid()
    {
      this.message := Some(message);
      this.text := text;
      buttonIndex := 0;
    }

    method HandleEvent(e: Event) returns (r: Option<Signal>)
      modifies this
      ensures (buttonIndex, r) == Step(old(buttonIndex), e)
      ensures message == old(message) && text == old(text)
      ensures old(Valid()) ==> Valid()
    {
      r := None;
      if e.Key? && e.key.kind == Press {
        match e.key.code {
          case Enter =>
            if buttonIndex == 0 {
              r := Some(ClosePopupNoOp);
            } else if buttonIndex == 1 {
              r := Some(ClosePopup);
            }
          case Left =>
            if buttonIndex == 0 {
              buttonIndex := 1;
            }
          case Right =>
            if buttonIndex == 1 {
              buttonIndex := 0;
            }
          case _ =>
        }
      }
    }

    /** `Option::take`: the stored message comes out once. */
    method Consume() returns (r: Option<M>)
      modifies this
      ensures r == old(message) && message == None
      ensures text == old(text) && buttonIndex == old(buttonIndex)
    {
      r := message;
      message := None;
    }
  }
}
