/** The `tui_textarea::TextArea` widget as the popups use it: a list of
    lines that key presses edit. The editor's own key bindings belong to
    that library, so the edit a key performs is a parameter. */
module TextAreas {
  import opened Wrappers
  import opened Ui
  import opened Text

  /** The lines after the editor handles one key. */
  type TextEdit = (seq<string>, KeyEvent) -> seq<string>

  /** `lines().join("")`, then `None` when empty: how the popups read an
      optional text field. */
  function OptionalText(lines: seq<string>): (r: Option<string>)
    ensures r.None? <==> forall i :: 0 <= i < |lines| ==> lines[i] == []
    ensures r.Some? ==> r.value == Concat(lines)
  {
    ConcatEmpty(lines);
    NonEmpty(Concat(lines))
  }

  class TextArea {
    var lines: seq<string>

    /** `TextArea::new(lines)`; `TextArea::default()` is `[""]`. */
    constructor (lines: seq<string>)
      ensures this.lines == lines
    {
      this.lines := lines;
    }

    /** `input`: applies the editor's edit and reports whether the text
        changed. */
    method Input(key: KeyEvent, edit: TextEdit) returns (modified: bool)
      modifies this
      ensures lines == edit(old(lines), key)
      ensures modified <==> lines != old(lines)
    {
      var before := lines;
      lines := edit(lines, key);
      modified := lines != before;
    }

    function Text(): (s: string)
      reads this
      ensures |lines| == 1 ==> s == lines[0]
    {
      Concat(lines)
    }
  }
}
