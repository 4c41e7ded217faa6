/** The new-profile submenu (src/menus/new_profile.rs): name and collection
    id fields, a link-mods checkbox, and a Create button that is enabled
    only once a name is typed. An iced `Task` is modelled as the sequence of
    messages it delivers. */
module NewProfile {
  import opened Wrappers
  import opened Text
  import opened Application

  datatype NewProfileSubmenuMessage =
    | Exit
    | TextFieldEditName(name: string)
    | TextFieldEditCollectionId(collectionId: string)
    | ToggleLinkMods(linkMods: bool)
    | CreateProfileMessage

  /** The profile `CreateProfile` sends: the typed name, the collection id
      if one was typed, and every other setting at its default. */
  function NewProfileRecord(name: string, collectionId: string): (r: ProfileJson)
    ensures r.name == name
    ensures r.collectionId.None? <==> collectionId == []
    ensures r.collectionId.Some? ==> r.collectionId.value == collectionId
    ensures r.additionalAssets.None? && r.selectedExecutable.None? && !r.linkMods
  {
    ProfileJson(name, None, NonEmpty(collectionId), false, None)
  }

  /** A profile whose settings are all defaults and whose collection id is
      not the empty string is recreated exactly from its name and its
      collection id field. */
  lemma NewProfileRecordRoundTrip(p: ProfileJson)
    requires p.additionalAssets.None? && p.selectedExecutable.None? && !p.linkMods
    requires p.collectionId != Some([])
    ensures NewProfileRecord(p.name, p.collectionId.GetOr([])) == p
  {
    NonEmptyRoundTrip(p.collectionId);
  }

  class NewProfileSubmenuData {
    var name: string
    var collectionId: string
    var linkMods: bool

    constructor ()
      ensures name == [] && collectionId == [] && !linkMods
      ensures CreateButtonMessage() == []
    {
      name := [];
      collectionId := [];
      linkMods := false;
    }

    /** The message the Create button sends when pressed: none while the
        name is empty. */
    function CreateButtonMessage(): (r: seq<NewProfileSubmenuMessage>)
      reads this
      ensures r == [] || r == [CreateProfileMessage]
      ensures r == [CreateProfileMessage] <==> name != []
    {
      if name != [] then [CreateProfileMessage] else []
    }

    method Update(m: NewProfileSubmenuMessage) returns (task: seq<Message>)
      modifies this
      ensures name == (if m.TextFieldEditName? then m.name else old(name))
      ensures collectionId == (if m.TextFieldEditCollectionId? then m.collectionId else old(collectionId))
      ensures linkMods == (if m.ToggleLinkMods? then m.linkMods else old(linkMods))
      ensures m.Exit? ==> task == [ButtonExitSubmenuPressed]
      ensures m.CreateProfileMessage? ==> task == [CreateProfile(NewProfileRecord(name, collectionId))]
      ensures !m.Exit? && !m.CreateProfileMessage? ==> task == []
    {
      match m
      case Exit =>
        task := [ButtonExitSubmenuPressed];
      case TextFieldEditName(s) =>
        name := s;
        task := [];
      case TextFieldEditCollectionId(s) =>
        collectionId := s;
        task := [];
      case ToggleLinkMods(b) =>
        linkMods := b;
        task := [];
      case CreateProfileMessage =>
        var profile := NewProfileRecord(name, collectionId);
        task := [CreateProfile(profile)];
    }
  }
}
