/** Creating and activating packs and trees (`makePack`, `makeTree`), and the
    structural form a pack is serialized in. */
module Rarch {
  import opened Utils
  import opened Chain
  import opened Packs
  import opened Envelope

  /** A parsed document: a pack is a JSON array of revisions, a tree a JSON
      object mapping names to packs. */
  datatype Doc = Array(revs: seq<Revision>) | Object(packs: map<string, seq<Revision>>)

  /** What `JSON.stringify` keeps of a pack: every revision's fields except the
      cursor closure, which is a function and is dropped. */
  function Frozen(pack: seq<Revision>): (r: seq<Revision>)
    ensures |r| == |pack|
    ensures forall k :: 0 <= k < |r| ==> r[k] == pack[k].(cursor := None)
  {
    seq(|pack|, k requires 0 <= k < |pack| => pack[k].(cursor := None))
  }

  /** Reloading a serialized pack and rebinding its cursors restores exactly
      the pack that was serialized, when its cursors were bound. */
  lemma ReloadRestores(pack: seq<Revision>)
    requires Bound(pack)
    ensures Rebound(Frozen(pack)) == pack
  {
    assert forall k :: 0 <= k < |pack| ==> Rebound(Frozen(pack))[k] == pack[k];
  }

  /** Serialization keeps the chain: the frozen form is shaped, reconstructs to
      the same contents and carries the same digests. */
  lemma FrozenKeepsContents(pack: seq<Revision>)
    requires Shaped(pack)
    ensures Shaped(Frozen(pack)) && Contents(Frozen(pack)) == Contents(pack)
    ensures Digested(pack, Contents(pack)) ==> Digested(Frozen(pack), Contents(Frozen(pack)))
  {
    var frozen := Frozen(pack);
    forall i | 0 <= i < |pack|
      ensures ContentAt(frozen, i) == ContentAt(pack, i)
    {
      ContentAtLocal(frozen, pack, i);
    }
  }

  /** A loaded chain that activates into a valid pack: only the tail holds
      content, and every digest is the checksum of what its revision
      reconstructs to. */
  ghost predicate ValidChain(revs: seq<Revision>)
  {
    Shaped(revs) && Digested(revs, Contents(revs))
  }

  /** The array `makePack` activates: an absent argument is `[]`; otherwise
      whatever `thaw` yields, provided it is an array. */
  function LoadedPack(input: Option<Input<Doc>>, rt: Runtime<Doc>): Option<seq<Revision>>
  {
    var obj := if input.None? then Structured(Array([])) else input.value;
    var thawed := Thaw(obj, rt);
    if thawed.Some? && thawed.value.Structured? && thawed.value.value.Array?
    then Some(thawed.value.value.revs)
    else None
  }

  /** `makePack(pack)`: thaw the argument and bind a cursor to every revision.
      `None` when the thawed value is not an array (the source then fails on
      `forEach`). */
  method MakePack(input: Option<Input<Doc>>, rt: Runtime<Doc>) returns (pack: Option<Pack>)
    ensures pack.Some? <==> LoadedPack(input, rt).Some?
    ensures pack.Some? ==> fresh(pack.value) && pack.value.revs == Rebound(LoadedPack(input, rt).value)
    ensures pack.Some? && ValidChain(LoadedPack(input, rt).value) ==>
              pack.value.Valid() && pack.value.history == Contents(LoadedPack(input, rt).value)
  {
    var loaded := LoadedPack(input, rt);
    if loaded.Some? {
      var p := new Pack.Load(loaded.value);
      return Some(p);
    }
    return None;
  }

  /** A pack serialized, gzipped and loaded again by `makePack` is the same
      pack: the gzip member thaws to the frozen revisions, and rebinding their
      cursors gives back the revisions that were serialized. */
  lemma GzipReload(pack: seq<Revision>, gzipped: seq<byte>, text: string, rt: Runtime<Doc>)
    requires Shaped(pack) && Bound(pack) && Digested(pack, Contents(pack))
    requires IsGzip(Some(gzipped)) && rt.gunzip(gzipped).Some?
    requires rt.toText(rt.gunzip(gzipped).value) == text
    requires OpensJson(text) && rt.parse(text) == Some(Array(Frozen(pack)))
    ensures LoadedPack(Some(Buf(gzipped)), rt) == Some(Frozen(pack))
    ensures Rebound(Frozen(pack)) == pack
    ensures Shaped(Frozen(pack)) && Contents(Frozen(pack)) == Contents(pack)
    ensures Digested(Frozen(pack), Contents(Frozen(pack)))
  {
    ThawRoundTrip(gzipped, text, Array(Frozen(pack)), rt);
    ReloadRestores(pack);
    FrozenKeepsContents(pack);
  }

  /** The object `makeTree` activates: an absent argument is `{}`; otherwise
      whatever `thaw` yields, provided it is an object of packs. */
  function LoadedTree(input: Option<Input<Doc>>, rt: Runtime<Doc>): Option<map<string, seq<Revision>>>
  {
    var obj := if input.None? then Structured(Object(map[])) else input.value;
    var thawed := Thaw(obj, rt);
    if thawed.Some? && thawed.value.Structured? && thawed.value.value.Object?
    then Some(thawed.value.value.packs)
    else None
  }

  /** `makeTree(tree)`: thaw the argument, then activate every member. */
  method MakeTree(input: Option<Input<Doc>>, rt: Runtime<Doc>) returns (tree: Option<map<string, Pack>>)
    ensures tree.Some? <==> LoadedTree(input, rt).Some?
    ensures tree.Some? ==> tree.value.Keys == LoadedTree(input, rt).value.Keys
    ensures tree.Some? ==> forall name :: name in tree.value ==>
              fresh(tree.value[name]) && tree.value[name].revs == Rebound(LoadedTree(input, rt).value[name])
    ensures tree.Some? ==> forall a, b :: a in tree.value && b in tree.value && a != b ==>
              tree.value[a] != tree.value[b]
    ensures tree.Some? ==> forall name :: name in tree.value && ValidChain(LoadedTree(input, rt).value[name]) ==>
              tree.value[name].Valid() && tree.value[name].history == Contents(LoadedTree(input, rt).value[name])
  {
    var loaded := LoadedTree(input, rt);
    if loaded.None? {
      return None;
    }
    var packs := ActivateMembers(loaded.value, rt);
    return Some(packs);
  }

  /** `p` is the activation of the loaded revisions `revs`: it holds them with
      every cursor bound, and when they form a valid chain it is a valid pack
      whose history is what they reconstruct to. */
  ghost predicate Activates(p: Pack, revs: seq<Revision>)
    reads p
  {
    && p.revs == Rebound(revs)
    && (ValidChain(revs) ==> p.Valid() && p.history == Contents(revs))
  }

  /** The `async.forEachOf` of `makeTree`: every member is activated with
      `makePack`, each under its own name. */
  method ActivateMembers(entries: map<string, seq<Revision>>, rt: Runtime<Doc>) returns (packs: map<string, Pack>)
    ensures packs.Keys == entries.Keys
    ensures forall name :: name in packs ==> fresh(packs[name]) && packs[name].revs == Rebound(entries[name])
    ensures forall a, b :: a in packs && b in packs && a != b ==> packs[a] != packs[b]
    ensures forall name :: name in packs && ValidChain(entries[name]) ==>
              packs[name].Valid() && packs[name].history == Contents(entries[name])
  {
    packs := map[];
    var todo := entries.Keys;
    while todo != {}
      invariant todo <= entries.Keys
      invariant packs.Keys == entries.Keys - todo
      invariant forall name :: name in packs ==> fresh(packs[name]) && Activates(packs[name], entries[name])
      invariant forall a, b :: a in packs && b in packs && a != b ==> packs[a] != packs[b]
      decreases |todo|
    {
      var name :| name in todo;
      var member := ActivateMember(entries[name], rt);
      packs := packs[name := member];
      todo := todo - {name};
    }
  }

  /** One step of the `forEachOf`: `makePack` on a member's array, which `thaw`
      passes through unchanged. */
  method ActivateMember(revs: seq<Revision>, rt: Runtime<Doc>) returns (p: Pack)
    ensures fresh(p) && Activates(p, revs)
  {
    ThawStructured(Array(revs), rt);
    assert LoadedPack(Some(Structured(Array(revs))), rt) == Some(revs);
    var member := MakePack(Some(Structured(Array(revs))), rt);
    p := member.value;
  }
}
