/** The duplicate-profile submenu (src/menus/duplicate_profile.rs): a name
    field prefilled from the profile being copied, and a Done button that is
    enabled only while the trimmed name differs from the original. An
    iced `Task` is modelled as the sequence of messages it delivers. */
module DuplicateProfile {
  import opened Text
  import opened Application

  datatype DuplicateSubmenuMessage = EditName(name: string) | Done

  const COPY_SUFFIX: string := " (Copy)"

  /** The prefilled name never trims back to the original, so a freshly
      opened submenu can always be confirmed. */
  lemma SuffixedNameDiffers(original: string)
    ensures Trim(original + COPY_SUFFIX) != original
  {
    var s := original + COPY_SUFFIX;
    var t := TrimStart(s);
    assert s[|s| - 1] == ')' && !IsWhitespace(')');
    assert |t| >= 1;
    assert Trim(s) == t;
    if |t| == |original| {
      // Exactly the seven suffix characters' worth was stripped from the
      // front, so the original's first character was whitespace, but the
      // trimmed text's first character is not.
      assert 0 < |s| - |t| && s[0] == original[0] && IsWhitespace(s[0]);
      assert t[0] != original[0];
    }
  }

  class DuplicateSubmenuData {
    var original: string
    var name: string

    constructor (original: string)
      ensures this.original == original && name == original + COPY_SUFFIX
      ensures DoneMessage() == [Done]
    {
      this.original := original;
      name := original + COPY_SUFFIX;
      SuffixedNameDiffers(original);
    }

    /** The message the Done button sends when pressed: none while the
        trimmed name equals the original. */
    function DoneMessage(): (r: seq<DuplicateSubmenuMessage>)
      reads this
      ensures r == [] || r == [Done]
      ensures r == [Done] <==> Trim(name) != original
    {
      if Trim(name) != original then [Done] else []
    }

    method Update(m: DuplicateSubmenuMessage) returns (task: seq<Message>)
      modifies this
      ensures original == old(original)
      ensures m.EditName? ==> name == m.name && task == []
      ensures m.Done? ==> (name == old(name)
        && task == [DuplicateCurrentProfile(DuplicateData(Trim(name))), ButtonExitSubmenuPressed])
    {
      match m
      case EditName(s) =>
        name := s;
        task := [];
      case Done =>
        var trimmed := Trim(name);
        task := [DuplicateCurrentProfile(DuplicateData(trimmed)), ButtonExitSubmenuPressed];
    }
  }

  /** The name sent with `Done` is already trimmed: trimming it again
      changes nothing, so what is stored is what was checked. */
  lemma TrimIdempotent(name: string)
    ensures Trim(Trim(name)) == Trim(name)
  {
    var r := Trim(name);
    if r != [] {
      assert TrimStart(r) == r;
      assert TrimEnd(r) == r;
    }
  }
}
