/** The mod manifest kept as `manifest.json` in an instance's mods folder
    (src/mod_manifest.rs), and the fixed-width integers of the Steam
    records it is built from. */
module ModManifest {

  /** Rust's `u64`: versions are Steam `time_updated` timestamps. */
  type u64 = x: int | 0 <= x < 0x1_0000_0000_0000_0000

  /** Rust's `i32`: the `filetype` of a collection child. */
  type i32 = x: int | -0x8000_0000 <= x < 0x8000_0000

  /** One installed mod and the upload time of the installed artifact. */
  datatype ModManifestMod = ModManifestMod(publishedfileid: string, version: u64)

  datatype ModManifestJson = ModManifestJson(mods: seq<ModManifestMod>)

  function Ids(mods: seq<ModManifestMod>): (ids: seq<string>)
    ensures |ids| == |mods|
    ensures forall i :: 0 <= i < |mods| ==> ids[i] == mods[i].publishedfileid
  {
    if mods == [] then [] else [mods[0].publishedfileid] + Ids(mods[1..])
  }
}
