/** The messages of the GUI application (src/application.rs) that the
    profile submenus emit, with the records they carry: `DuplicateData`
    (src/menus/duplicate_profile.rs) and the profile record `ProfileJson`,
    whose fields are those the new-profile submenu fills in. */
module Application {
  import opened Wrappers

  datatype DuplicateData = DuplicateData(name: string)

  datatype ProfileJson = ProfileJson(
    name: string,
    additionalAssets: Option<seq<string>>,
    collectionId: Option<string>,
    linkMods: bool,
    selectedExecutable: Option<string>)

  datatype Message =
    | DuplicateCurrentProfile(data: DuplicateData)
    | CreateProfile(profile: ProfileJson)
    | ButtonExitSubmenuPressed
}
