/** `collect_mods_from_collections` (src/workshop_downloader.rs:104-125):
    flattens a collection and every collection it links to, round by round,
    into the list of its mods.

    The server is modelled by the children it knows for each collection id.
    The source keeps no visited set, so it stops only when the links are
    acyclic; that is the `Ranked` precondition: every linked collection has
    a strictly lower rank than the collection linking to it. */
module CollectionResolver {
  import opened Wrappers
  import opened ModManifest
  import opened SteamApi
  import Reconcile

  type Remote = map<string, seq<CollectionChild>>

  /** Joins two partial results; a failure on either side fails the whole. */
  function Cat<T>(a: Option<seq<T>>, b: Option<seq<T>>): Option<seq<T>> {
    if a.Some? && b.Some? then Some(a.value + b.value) else None
  }

  lemma CatAssoc<T>(a: Option<seq<T>>, b: Option<seq<T>>, c: Option<seq<T>>)
    ensures Cat(Cat(a, b), c) == Cat(a, Cat(b, c))
  {
    if a.Some? && b.Some? && c.Some? {
      assert (a.value + b.value) + c.value == a.value + (b.value + c.value);
    }
  }

  // ---------------------------------------------------------------------------
  // One request
  // ---------------------------------------------------------------------------

  /** The children of every requested collection, in request order; the
      request fails when an id is unknown. */
  function Batch(remote: Remote, ids: seq<string>): (r: Option<seq<CollectionChild>>)
    ensures r.Some? <==> forall i :: 0 <= i < |ids| ==> ids[i] in remote
    ensures r.Some? ==> forall c :: c in r.value ==> exists k :: 0 <= k < |ids| && ids[k] in remote && c in remote[ids[k]]
  {
    if ids == [] then Some([])
    else if ids[0] !in remote then None
    else
      var rest := Batch(remote, ids[1..]);
      if rest.None? then None
      else
        assert forall c :: c in rest.value ==> exists k :: 0 <= k < |ids| && ids[k] in remote && c in remote[ids[k]] by {
          forall c | c in rest.value
            ensures exists k :: 0 <= k < |ids| && ids[k] in remote && c in remote[ids[k]]
          {
            var k :| 0 <= k < |ids| - 1 && ids[1..][k] in remote && c in remote[ids[1..][k]];
            assert ids[k + 1] == ids[1..][k];
          }
        }
        Some(remote[ids[0]] + rest.value)
  }

  /** The server's answer to a GetCollectionDetails form. */
  function CollectionDetails(remote: Remote, params: Form): Option<seq<CollectionChild>> {
    match DecodeForm(params, CollectionCount)
    case None => None
    case Some(ids) => Batch(remote, ids)
  }

  /** Left part of the partition at line 119: the children that are mods. */
  function Mods(children: seq<CollectionChild>): (r: seq<CollectionChild>)
    ensures forall c :: c in r <==> c in children && c.filetype == 0
    ensures forall c :: multiset(r)[c] == if c.filetype == 0 then multiset(children)[c] else 0
    ensures Reconcile.IsSubsequence(r, children)
  {
    if children == [] then []
    else
      assert children == [children[0]] + children[1..];
      if children[0].filetype == 0 then [children[0]] + Mods(children[1..])
      else Mods(children[1..])
  }

  /** Right part of the partition, as ids: every child that is not a mod is
      a collection to fetch next. */
  function LinkedIds(children: seq<CollectionChild>): (r: seq<string>)
    ensures forall c :: c in children && c.filetype != 0 ==> c.publishedfileid in r
    ensures forall id :: id in r ==> exists c :: c in children && c.filetype != 0 && c.publishedfileid == id
  {
    if children == [] then []
    else if children[0].filetype == 0 then LinkedIds(children[1..])
    else [children[0].publishedfileid] + LinkedIds(children[1..])
  }

  // ---------------------------------------------------------------------------
  // Acyclic links
  // ---------------------------------------------------------------------------

  ghost predicate Ranked(remote: Remote, rank: map<string, nat>) {
    forall id :: id in remote ==> id in rank && forall c :: c in remote[id] && c.filetype != 0 ==>
      c.publishedfileid in rank && rank[c.publishedfileid] < rank[id]
  }

  ghost predicate AllRanked(rank: map<string, nat>, ids: seq<string>) {
    forall i :: 0 <= i < |ids| ==> ids[i] in rank
  }

  function MaxRank(rank: map<string, nat>, ids: seq<string>): (r: nat)
    requires AllRanked(rank, ids)
    ensures forall i :: 0 <= i < |ids| ==> rank[ids[i]] <= r
    ensures ids != [] ==> exists i :: 0 <= i < |ids| && r == rank[ids[i]]
  {
    if ids == [] then 0
    else
      var m := MaxRank(rank, ids[1..]);
      assert forall i :: 1 <= i < |ids| ==> ids[i] == ids[1..][i - 1];
      if rank[ids[0]] >= m then rank[ids[0]] else m
  }

  /** Decreases with every round of the worklist loop. */
  function Measure(rank: map<string, nat>, ids: seq<string>): nat
    requires AllRanked(rank, ids)
  {
    if ids == [] then 0 else MaxRank(rank, ids) + 1
  }

  lemma BatchLinkedBelow(remote: Remote, rank: map<string, nat>, ids: seq<string>)
    requires Ranked(remote, rank) && AllRanked(rank, ids) && Batch(remote, ids).Some?
    ensures AllRanked(rank, LinkedIds(Batch(remote, ids).value))
    ensures ids != [] ==> Measure(rank, LinkedIds(Batch(remote, ids).value)) < Measure(rank, ids)
  {
    var children := Batch(remote, ids).value;
    var next := LinkedIds(children);
    forall i | 0 <= i < |next|
      ensures next[i] in rank && rank[next[i]] < MaxRank(rank, ids)
    {
      assert next[i] in next;
      var c :| c in children && c.filetype != 0 && c.publishedfileid == next[i];
      var k :| 0 <= k < |ids| && ids[k] in remote && c in remote[ids[k]];
    }
    if next != [] {
      var i :| 0 <= i < |next| && MaxRank(rank, next) == rank[next[i]];
    }
  }

  // ---------------------------------------------------------------------------
  // The loop, as a function of the worklist
  // ---------------------------------------------------------------------------

  /** The mods of this round, followed by those of every later round. */
  function Resolve(remote: Remote, rank: map<string, nat>, ids: seq<string>): (r: Option<seq<CollectionChild>>)
    requires Ranked(remote, rank) && AllRanked(rank, ids)
    ensures r.Some? ==> forall c :: c in r.value ==> c.filetype == 0
    decreases Measure(rank, ids)
  {
    if ids == [] then Some([])
    else match Batch(remote, ids)
      case None => None
      case Some(children) =>
        BatchLinkedBelow(remote, rank, ids);
        Cat(Some(Mods(children)), Resolve(remote, rank, LinkedIds(children)))
  }

  /** The worklist loop: each round sends the whole worklist as one form,
      keeps the mods of the answer and makes the linked collections the next
      worklist. A failed request fails the call with no partial result. */
  method CollectModsFromCollections(remote: Remote, ghost rank: map<string, nat>, collections: seq<string>)
    returns (r: Option<seq<CollectionChild>>)
    requires Ranked(remote, rank) && AllRanked(rank, collections)
    ensures r == Resolve(remote, rank, collections)
  {
    var worklist := collections;
    var children: seq<CollectionChild> := [];
    var whole := Resolve(remote, rank, collections);
    assert whole.Some? ==> [] + whole.value == whole.value;
    while worklist != []
      invariant AllRanked(rank, worklist)
      invariant Resolve(remote, rank, collections) == Cat(Some(children), Resolve(remote, rank, worklist))
      decreases Measure(rank, worklist)
    {
      var params := FormParams(CollectionCount, worklist);
      DecodeFormParams(params, CollectionCount, worklist);
      var response := CollectionDetails(remote, params);
      if response.None? {
        return None;
      }
      var details := response.value;
      BatchLinkedBelow(remote, rank, worklist);
      CatAssoc(Some(children), Some(Mods(details)), Resolve(remote, rank, LinkedIds(details)));
      children := children + Mods(details);
      worklist := LinkedIds(details);
    }
    assert children + [] == children;
    return Some(children);
  }

  // ---------------------------------------------------------------------------
  // Reference: depth-first flattening of the collection tree
  // ---------------------------------------------------------------------------

  ghost predicate LinkedRanked(rank: map<string, nat>, children: seq<CollectionChild>) {
    forall c :: c in children && c.filetype != 0 ==> c.publishedfileid in rank
  }

  function MaxLinkedRank(rank: map<string, nat>, children: seq<CollectionChild>): (r: nat)
    requires LinkedRanked(rank, children)
  {
    if children == [] then 0
    else
      var m := MaxLinkedRank(rank, children[1..]);
      if children[0].filetype != 0 && rank[children[0].publishedfileid] + 1 > m
      then rank[children[0].publishedfileid] + 1
      else m
  }

  lemma {:induction false} MaxLinkedRankBound(rank: map<string, nat>, children: seq<CollectionChild>, b: nat)
    requires forall c :: c in children && c.filetype != 0 ==> c.publishedfileid in rank && rank[c.publishedfileid] < b
    ensures MaxLinkedRank(rank, children) <= b
  {
    if children != [] {
      MaxLinkedRankBound(rank, children[1..], b);
    }
  }

  /** Every mod reachable from collection `id`, depth first. */
  function Tree(remote: Remote, rank: map<string, nat>, id: string): Option<seq<CollectionChild>>
    requires Ranked(remote, rank) && id in rank
    decreases rank[id] + 1, 0, 0
  {
    if id !in remote then None
    else
      MaxLinkedRankBound(rank, remote[id], rank[id]);
      Forest(remote, rank, remote[id])
  }

  function Forest(remote: Remote, rank: map<string, nat>, children: seq<CollectionChild>): Option<seq<CollectionChild>>
    requires Ranked(remote, rank) && LinkedRanked(rank, children)
    decreases MaxLinkedRank(rank, children), 1, |children|
  {
    if children == [] then Some([])
    else
      var c := children[0];
      Cat(if c.filetype == 0 then Some([c]) else Tree(remote, rank, c.publishedfileid),
          Forest(remote, rank, children[1..]))
  }

  /** The trees of several collections, one after another. */
  function Expand(remote: Remote, rank: map<string, nat>, ids: seq<string>): Option<seq<CollectionChild>>
    requires Ranked(remote, rank) && AllRanked(rank, ids)
  {
    if ids == [] then Some([]) else Cat(Tree(remote, rank, ids[0]), Expand(remote, rank, ids[1..]))
  }

  function MS<T>(o: Option<seq<T>>): Option<multiset<T>> {
    if o.Some? then Some(multiset(o.value)) else None
  }

  lemma {:induction false} ExpandAppend(remote: Remote, rank: map<string, nat>, a: seq<string>, b: seq<string>)
    requires Ranked(remote, rank) && AllRanked(rank, a) && AllRanked(rank, b)
    ensures AllRanked(rank, a + b)
    ensures Expand(remote, rank, a + b) == Cat(Expand(remote, rank, a), Expand(remote, rank, b))
  {
    assert AllRanked(rank, a + b);
    if a == [] {
      assert a + b == b;
      assert Expand(remote, rank, b).Some? ==> [] + Expand(remote, rank, b).value == Expand(remote, rank, b).value;
    } else {
      assert (a + b)[1..] == a[1..] + b;
      ExpandAppend(remote, rank, a[1..], b);
      CatAssoc(Tree(remote, rank, a[0]), Expand(remote, rank, a[1..]), Expand(remote, rank, b));
    }
  }

  lemma {:induction false} ForestAppend(remote: Remote, rank: map<string, nat>, a: seq<CollectionChild>, b: seq<CollectionChild>)
    requires Ranked(remote, rank) && LinkedRanked(rank, a) && LinkedRanked(rank, b)
    ensures LinkedRanked(rank, a + b)
    ensures Forest(remote, rank, a + b) == Cat(Forest(remote, rank, a), Forest(remote, rank, b))
  {
    assert LinkedRanked(rank, a + b);
    if a == [] {
      assert a + b == b;
      assert Forest(remote, rank, b).Some? ==> [] + Forest(remote, rank, b).value == Forest(remote, rank, b).value;
    } else {
      var c := a[0];
      assert (a + b)[1..] == a[1..] + b;
      ForestAppend(remote, rank, a[1..], b);
      CatAssoc(if c.filetype == 0 then Some([c]) else Tree(remote, rank, c.publishedfileid),
               Forest(remote, rank, a[1..]), Forest(remote, rank, b));
    }
  }

  /** Expanding a round's collections is expanding the children the round
      received; when the round fails, so does the expansion. */
  lemma {:induction false} ExpandBatch(remote: Remote, rank: map<string, nat>, ids: seq<string>)
    requires Ranked(remote, rank) && AllRanked(rank, ids)
    ensures Batch(remote, ids).None? ==> Expand(remote, rank, ids).None?
    ensures Batch(remote, ids).Some? ==>
      LinkedRanked(rank, Batch(remote, ids).value)
      && Expand(remote, rank, ids) == Forest(remote, rank, Batch(remote, ids).value)
  {
    if ids != [] {
      ExpandBatch(remote, rank, ids[1..]);
      if ids[0] in remote && Batch(remote, ids[1..]).Some? {
        ForestAppend(remote, rank, remote[ids[0]], Batch(remote, ids[1..]).value);
      }
    }
  }

  lemma ModStep<T>(x: seq<T>, m: seq<T>, f: Option<seq<T>>, e: Option<seq<T>>)
    requires MS(f) == MS(Cat(Some(m), e))
    ensures MS(Cat(Some(x), f)) == MS(Cat(Some(x + m), e))
  {
    if f.Some? && e.Some? {
      assert multiset(x + f.value) == multiset(x) + multiset(f.value);
      assert multiset(x + m + e.value) == multiset(x) + multiset(m + e.value);
    }
  }

  lemma LinkStep<T>(m: seq<T>, t: Option<seq<T>>, f: Option<seq<T>>, e: Option<seq<T>>)
    requires MS(f) == MS(Cat(Some(m), e))
    ensures MS(Cat(t, f)) == MS(Cat(Some(m), Cat(t, e)))
  {
    if t.Some? && f.Some? && e.Some? {
      var te := t.value + e.value;
      assert Cat(t, e) == Some(te);
      assert Cat(Some(m), e) == Some(m + e.value);
      assert multiset(f.value) == multiset(m + e.value) == multiset(m) + multiset(e.value);
      assert MS(Cat(t, f)) == Some(multiset(t.value) + multiset(f.value));
      assert Cat(Some(m), Cat(t, e)) == Some(m + te);
      assert multiset(m + te) == multiset(m) + multiset(t.value) + multiset(e.value);
      assert multiset(t.value) + (multiset(m) + multiset(e.value)) == multiset(m) + multiset(t.value) + multiset(e.value);
    }
  }

  /** The collections a batch links to all have a rank. */
  lemma LinkedIdsRanked(rank: map<string, nat>, children: seq<CollectionChild>)
    requires LinkedRanked(rank, children)
    ensures AllRanked(rank, LinkedIds(children))
  {
    var ids := LinkedIds(children);
    forall i | 0 <= i < |ids| ensures ids[i] in rank {
      assert ids[i] in ids;
    }
  }

  /** Splitting a forest into its own mods and the trees of its links only
      reorders the result. */
  lemma {:induction false} ForestSplit(remote: Remote, rank: map<string, nat>, children: seq<CollectionChild>)
    requires Ranked(remote, rank) && LinkedRanked(rank, children)
    ensures AllRanked(rank, LinkedIds(children))
    ensures MS(Forest(remote, rank, children)) == MS(Cat(Some(Mods(children)), Expand(remote, rank, LinkedIds(children))))
  {
    LinkedIdsRanked(rank, children);
    if children == [] {
      assert Mods(children) + [] == [];
    } else {
      var c, rest := children[0], children[1..];
      assert LinkedRanked(rank, rest) by {
        forall x | x in rest && x.filetype != 0 ensures x.publishedfileid in rank {
          assert x in children;
        }
      }
      ForestSplit(remote, rank, rest);
      var f, e := Forest(remote, rank, rest), Expand(remote, rank, LinkedIds(rest));
      if c.filetype == 0 {
        assert Forest(remote, rank, children) == Cat(Some([c]), f);
        assert Mods(children) == [c] + Mods(rest);
        assert LinkedIds(children) == LinkedIds(rest);
        ModStep([c], Mods(rest), f, e);
      } else {
        var t := Tree(remote, rank, c.publishedfileid);
        var linked := LinkedIds(children);
        assert linked[0] == c.publishedfileid && linked[1..] == LinkedIds(rest);
        assert Forest(remote, rank, children) == Cat(t, f);
        assert Mods(children) == Mods(rest);
        assert Expand(remote, rank, linked) == Cat(t, e);
        LinkStep(Mods(rest), t, f, e);
      }
    }
  }

  lemma ResolveMatchesExpand(remote: Remote, rank: map<string, nat>, ids: seq<string>)
    requires Ranked(remote, rank) && AllRanked(rank, ids)
    ensures MS(Resolve(remote, rank, ids)) == MS(Expand(remote, rank, ids))
    decreases Measure(rank, ids)
  {
    ExpandBatch(remote, rank, ids);
    if ids != [] && Batch(remote, ids).Some? {
      var children := Batch(remote, ids).value;
      BatchLinkedBelow(remote, rank, ids);
      ResolveMatchesExpand(remote, rank, LinkedIds(children));
      ForestSplit(remote, rank, children);
    }
  }

  /** The worklist loop finds exactly the mods of a depth-first walk of the
      collection tree, in some order, and fails exactly when the walk meets
      an unknown collection. */
  lemma ResolveIsFlattening(remote: Remote, rank: map<string, nat>, ids: seq<string>)
    requires Ranked(remote, rank) && AllRanked(rank, ids)
    ensures Resolve(remote, rank, ids).Some? <==> Expand(remote, rank, ids).Some?
    ensures Resolve(remote, rank, ids).Some? ==>
      multiset(Resolve(remote, rank, ids).value) == multiset(Expand(remote, rank, ids).value)
  {
    ResolveMatchesExpand(remote, rank, ids);
  }
}
