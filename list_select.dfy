/** `ListSelectPopup` (src/tui/ui/popups/list_select.rs): a vertical menu
    of labelled messages; Enter closes the popup and `consume` hands the
    selected message to the application. */
module ListSelect {
  import opened Wrappers
  import opened Ui

  /** The border the popup draws around its items. */
  datatype Block = Block(bordered: bool, title: Option<string>)

  /** What one event does to the selection, and what it returns. Down on an
      empty list underflows `len - 1`, so it is excluded. */
  function Step(selected: nat, len: nat, e: Event): (r: (nat, Option<Signal>))
    requires IsPress(e, Down) ==> len > 0
  {
    if !e.Key? || e.key.kind != Press then (selected, None)
    else match e.key.code
      case Up => (Dec(selected), None)
      case Down => (IncUpTo(selected, len - 1), None)
      case Enter => (selected, if selected < len then Some(ClosePopup) else None)
      case _ => (selected, None)
  }

  /** Enter closes the popup exactly when the selection names an item; no
      event ever cancels (`ClosePopupNoOp`); only Up and Down move the
      selection, and they keep a valid selection valid. */
  lemma StepSpec(selected: nat, len: nat, e: Event)
    requires IsPress(e, Down) ==> len > 0
    ensures Step(selected, len, e).1 == Some(ClosePopup) <==> IsPress(e, Enter) && selected < len
    ensures Step(selected, len, e).1 != Some(ClosePopupNoOp)
    ensures !IsPress(e, Up) && !IsPress(e, Down) ==> Step(selected, len, e).0 == selected
    ensures selected < len ==> Step(selected, len, e).0 < len
  {
  }

  class ListSelectPopup<M> {
    var selected: nat
    var items: seq<(string, M)>
    var textStyle: Style
    var highlightedTextStyle: Style
    var block: Block

    constructor (items: seq<(string, M)>)
      ensures this.items == items && selected == 0
      ensures textStyle == DEFAULT_STYLE && highlightedTextStyle == Style(Some(LightYellow), None)
      ensures block == Block(true, None)
    {
      this.items := items;
      selected := 0;
      textStyle := DEFAULT_STYLE;
      highlightedTextStyle := Style(Some(LightYellow), None);
      block := Block(true, None);
    }

    method SetTextStyle(style: Style)
      modifies this
      ensures textStyle == style
      ensures selected == old(selected) && items == old(items)
      ensures highlightedTextStyle == old(highlightedTextStyle) && block == old(block)
    {
      textStyle := style;
    }

    method SetHighlightedTextStyle(style: Style)
      modifies this
      ensures highlightedTextStyle == style
      ensures selected == old(selected) && items == old(items)
      ensures textStyle == old(textStyle) && block == old(block)
    {
      highlightedTextStyle := style;
    }

    method SetBlock(block: Block)
      modifies this
      ensures this.block == block
      ensures selected == old(selected) && items == old(items)
      ensures textStyle == old(textStyle) && highlightedTextStyle == old(highlightedTextStyle)
    {
      this.block := block;
    }

    method HandleEvent(e: Event) returns (r: Option<Signal>)
      requires IsPress(e, Down) ==> items != []
      modifies this
      ensures (selected, r) == Step(old(selected), |old(items)|, e)
      ensures items == old(items) && textStyle == old(textStyle)
      ensures highlightedTextStyle == old(highlightedTextStyle) && block == old(block)
    {
      r := None;
      if e.Key? && e.key.kind == Press {
        match e.key.code {
          case Up =>
            selected := Dec(selected);
          case Down =>
            selected := IncUpTo(selected, |items| - 1);
          case Enter =>
            if selected < |items| {
              r := Some(ClosePopup);
            }
          case _ =>
        }
      }
    }

    /** The style each line is drawn with: highlighted exactly at the
        selection. */
    function LineStyle(index: nat): (s: Style)
      reads this
      ensures highlightedTextStyle != textStyle ==> (s == highlightedTextStyle <==> index == selected)
    {
      if index == selected then highlightedTextStyle else textStyle
    }

    /** Removes the selected item and returns its message; the other items
        keep their order. Past the end, nothing happens. */
    method Consume() returns (r: Option<M>)
      modifies this
      ensures old(selected) < |old(items)| ==>
        r == Some(old(items)[old(selected)].1) && items == old(items)[..old(selected)] + old(items)[old(selected) + 1..]
      ensures old(selected) >= |old(items)| ==> r == None && items == old(items)
      ensures |items| == if r.Some? then |old(items)| - 1 else |old(items)|
      ensures selected == old(selected) && textStyle == old(textStyle)
      ensures highlightedTextStyle == old(highlightedTextStyle) && block == old(block)
    {
      if selected < |items| {
        r := Some(items[selected].1);
        items := items[..selected] + items[selected + 1..];
      } else {
        r := None;
      }
    }
  }
}
