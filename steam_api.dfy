/** The two Steam Web API calls of the workshop downloader
    (src/workshop_downloader.rs), with the network replaced by a model of
    the server's data. A request is a form of key/value pairs: a count
    under `collectioncount` or `itemcount`, and the i-th id under
    `publishedfileids[i]`. */
module SteamApi {
  import opened Wrappers
  import opened Text
  import opened ModManifest

  /** A child of a collection: `filetype == 0` is a mod, anything else is
      treated as a linked collection. */
  datatype CollectionChild = CollectionChild(filetype: i32, publishedfileid: string)

  /** One entry of a GetPublishedFileDetails response. */
  datatype PublishedFileChild = PublishedFileChild(publishedfileid: string, timeUpdated: u64)

  /** `From<PublishedFileChildren> for ModManifestMod`. */
  function ToManifestMod(f: PublishedFileChild): (m: ModManifestMod)
  {
    ModManifestMod(f.publishedfileid, f.timeUpdated)
  }

  /** The conversion keeps the id and takes the upload time as the version,
      losing nothing: the response entry can be rebuilt from the record. */
  lemma ToManifestModLossless(f: PublishedFileChild)
    ensures PublishedFileChild(ToManifestMod(f).publishedfileid, ToManifestMod(f).version) == f
  {
  }

  // ---------------------------------------------------------------------------
  // Form encoding of a request
  // ---------------------------------------------------------------------------

  type Form = map<string, string>

  datatype CountKey = CollectionCount | ItemCount

  function CountKeyName(k: CountKey): string {
    match k
    case CollectionCount => "collectioncount"
    case ItemCount => "itemcount"
  }

  const INDEX_PREFIX: string := "publishedfileids["

  function IndexKey(i: nat): string {
    INDEX_PREFIX + NatToString(i) + "]"
  }

  /** Different positions get different keys, and no position key is a count
      key, so no pair of the form overwrites another. */
  lemma IndexKeyInjective(i: nat, j: nat)
    requires IndexKey(i) == IndexKey(j)
    ensures i == j
  {
    var a, b := IndexKey(i), IndexKey(j);
    assert NatToString(i) == a[|INDEX_PREFIX|..|a| - 1];
    assert NatToString(j) == b[|INDEX_PREFIX|..|b| - 1];
    NatToStringInjective(i, j);
  }

  lemma IndexKeyNotCountKey(i: nat, k: CountKey)
    ensures IndexKey(i) != CountKeyName(k)
  {
    assert IndexKey(i)[0] == 'p';
  }

  /** The form of a request for `ids`: the count and every id at its index. */
  ghost predicate IsForm(params: Form, k: CountKey, ids: seq<string>) {
    FormUpTo(params, k, ids, |ids|)
  }

  /** The count and the ids below position `n`, and nothing else. */
  ghost predicate FormUpTo(params: Form, k: CountKey, ids: seq<string>, n: nat) {
    && params.Keys == {CountKeyName(k)} + (set i | 0 <= i < n :: IndexKey(i))
    && params[CountKeyName(k)] == NatToString(|ids|)
    && (forall i :: 0 <= i < n && i < |ids| ==> params[IndexKey(i)] == ids[i])
  }

  /** Builds the form of lines 109-114 and 129-134: the count under its key,
      then `publishedfileids[i]` = the i-th id. */
  method FormParams(k: CountKey, ids: seq<string>) returns (params: Form)
    ensures IsForm(params, k, ids)
  {
    params := map[CountKeyName(k) := NatToString(|ids|)];
    for i := 0 to |ids|
      invariant FormUpTo(params, k, ids, i)
    {
      FormStep(params, k, ids, i);
      params := params[IndexKey(i) := ids[i]];
    }
  }

  /** Adding the next id keeps the form well built. */
  lemma FormStep(params: Form, k: CountKey, ids: seq<string>, i: nat)
    requires i < |ids| && FormUpTo(params, k, ids, i)
    ensures FormUpTo(params[IndexKey(i) := ids[i]], k, ids, i + 1)
  {
    var key := IndexKey(i);
    var next := params[key := ids[i]];
    var before := set j | 0 <= j < i :: IndexKey(j);
    IndexKeysStep(i);
    IndexKeyNotCountKey(i, k);
    IndexKeyFresh(i);
    assert key !in before;
    assert next.Keys == {CountKeyName(k)} + before + {key};
    forall j | 0 <= j < i + 1 && j < |ids|
      ensures next[IndexKey(j)] == ids[j]
    {
      if j < i {
        assert IndexKey(j) in params;
      }
    }
  }

  /** The key of position `i` is not the key of an earlier position. */
  lemma IndexKeyFresh(i: nat)
    ensures forall j :: 0 <= j < i ==> IndexKey(j) != IndexKey(i)
  {
    forall j | 0 <= j < i
      ensures IndexKey(j) != IndexKey(i)
    {
      if IndexKey(j) == IndexKey(i) {
        IndexKeyInjective(j, i);
      }
    }
  }

  /** The position keys below `i + 1` are those below `i` and `i`'s own. */
  lemma IndexKeysStep(i: nat)
    ensures (set j | 0 <= j < i + 1 :: IndexKey(j)) == (set j | 0 <= j < i :: IndexKey(j)) + {IndexKey(i)}
  {
    var a := set j | 0 <= j < i + 1 :: IndexKey(j);
    var b := set j | 0 <= j < i :: IndexKey(j);
    forall key | key in a
      ensures key in b + {IndexKey(i)}
    {
      var j :| 0 <= j < i + 1 && key == IndexKey(j);
      if j < i {
        assert key in b;
      }
    }
  }

  // ---------------------------------------------------------------------------
  // Decoding a form, as the server does
  // ---------------------------------------------------------------------------

  predicate IsDigit(c: char) {
    '0' <= c <= '9'
  }

  function DigitsValue(s: string): (n: nat)
    requires forall i :: 0 <= i < |s| ==> IsDigit(s[i])
  {
    if s == [] then 0
    else
      assert IsDigit(s[|s| - 1]);
      DigitsValue(s[..|s| - 1]) * 10 + (s[|s| - 1] as int - '0' as int)
  }

  function ParseNat(s: string): (r: Option<nat>)
  {
    if s != [] && forall i :: 0 <= i < |s| ==> IsDigit(s[i]) then Some(DigitsValue(s)) else None
  }

  lemma {:induction false} ParseNatToString(n: nat)
    ensures ParseNat(NatToString(n)) == Some(n)
    decreases n
  {
    var s := NatToString(n);
    if n < 10 {
      assert s == [Digit(n)];
      assert DigitsValue(s) == DigitsValue([]) * 10 + n;
    } else {
      ParseNatToString(n / 10);
      var p := NatToString(n / 10);
      assert s == p + [Digit(n % 10)];
      assert s[..|s| - 1] == p;
    }
  }

  /** The ids a server reads from a form: `None` when the count is missing or
      not a number, or an announced index is missing. */
  function DecodeForm(params: Form, k: CountKey): (r: Option<seq<string>>)
  {
    if CountKeyName(k) !in params then None
    else match ParseNat(params[CountKeyName(k)])
      case None => None
      case Some(n) =>
        if forall i :: 0 <= i < n ==> IndexKey(i) in params
        then Some(seq(n, i requires 0 <= i < n => params[IndexKey(i)]))
        else None
  }

  /** Round trip: the server reads back exactly the ids the form was built
      from, in order. */
  lemma DecodeFormParams(params: Form, k: CountKey, ids: seq<string>)
    requires IsForm(params, k, ids)
    ensures DecodeForm(params, k) == Some(ids)
  {
    ParseNatToString(|ids|);
    forall i | 0 <= i < |ids|
      ensures IndexKey(i) in params
    {
      assert IndexKey(i) in (set j | 0 <= j < |ids| :: IndexKey(j));
    }
    assert params[CountKeyName(k)] == NatToString(|ids|);
    assert seq(|ids|, i requires 0 <= i < |ids| => params[IndexKey(i)]) == ids;
  }

  // ---------------------------------------------------------------------------
  // GetPublishedFileDetails
  // ---------------------------------------------------------------------------

  /** The server's answer to a GetPublishedFileDetails form, given the upload
      time of every published file it knows: one entry per requested id in
      order, or a failed request when the form is malformed or an id is
      unknown (the response then lacks `time_updated` and does not parse). */
  function PublishedFileDetails(versions: map<string, u64>, params: Form): (r: Option<seq<PublishedFileChild>>)
  {
    match DecodeForm(params, ItemCount)
    case None => None
    case Some(ids) =>
      if forall i :: 0 <= i < |ids| ==> ids[i] in versions
      then Some(seq(|ids|, i requires 0 <= i < |ids| => PublishedFileChild(ids[i], versions[ids[i]])))
      else None
  }

  /** The versioned records of `mods`, one per child in order. */
  function VersionedMods(versions: map<string, u64>, mods: seq<CollectionChild>): (r: Option<seq<ModManifestMod>>)
    ensures r.Some? <==> forall i :: 0 <= i < |mods| ==> mods[i].publishedfileid in versions
    ensures r.Some? ==> |r.value| == |mods|
    ensures r.Some? ==> forall i :: 0 <= i < |mods| ==>
      r.value[i] == ModManifestMod(mods[i].publishedfileid, versions[mods[i].publishedfileid])
  {
    if mods == [] then Some([])
    else if mods[0].publishedfileid !in versions then None
    else match VersionedMods(versions, mods[1..])
      case None => None
      case Some(rest) => Some([ModManifestMod(mods[0].publishedfileid, versions[mods[0].publishedfileid])] + rest)
  }

  /** `get_versioned_mods`: sends `itemcount` and the ids, and converts every
      entry of the answer into a manifest record. A failed request fails the
      call with no partial result. */
  method GetVersionedMods(versions: map<string, u64>, mods: seq<CollectionChild>) returns (r: Option<seq<ModManifestMod>>)
    ensures r == VersionedMods(versions, mods)
  {
    var ids := seq(|mods|, i requires 0 <= i < |mods| => mods[i].publishedfileid);
    var params := FormParams(ItemCount, ids);
    DecodeFormParams(params, ItemCount, ids);
    var response := PublishedFileDetails(versions, params);
    if response.None? {
      return None;
    }
    var details := response.value;
    r := Some(seq(|details|, i requires 0 <= i < |details| => ToManifestMod(details[i])));
    assert forall i :: 0 <= i < |mods| ==> ids[i] in versions && mods[i].publishedfileid == ids[i];
    assert r.value == VersionedMods(versions, mods).value;
  }
}
