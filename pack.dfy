/** A pack: the array of revisions that rarch.js extends with `commit` and
    `reset`, and whose revisions carry `data()` cursors. */
module Packs {
  import opened Utils
  import opened Vcdiff
  import opened Chain

  /** The metadata object `packCommit` reads; an absent one is `{}`. */
  function MetadataOrEmpty(metadata: Option<Props>): Props
  {
    if metadata.Some? then metadata.value else map[]
  }

  /** `Rebound(pack)` is `pack` with every revision's cursor bound to its
      index, as the activation loop of `makePack` leaves it. */
  function Rebound(pack: seq<Revision>): (r: seq<Revision>)
    ensures |r| == |pack| && Bound(r)
    ensures forall k :: 0 <= k < |r| ==> r[k] == pack[k].(cursor := Some(k))
  {
    seq(|pack|, k requires 0 <= k < |pack| => pack[k].(cursor := Some(k)))
  }

  class Pack {
    /** The array's elements, oldest first. */
    var revs: seq<Revision>
    /** Every content committed and kept, oldest first. */
    ghost var history: seq<string>

    /** The chain invariant: only the tail holds content, the deltas decode the
        history, every cursor is bound to its own index, and every digest is
        the checksum of the content committed there. */
    ghost predicate Valid()
      reads this
    {
      && Shaped(revs)
      && Linked(revs, history)
      && Bound(revs)
      && Digested(revs, history)
    }

    /** Activation of a loaded array (the `forEach` of `makePack`): every
        revision gets a cursor bound to its index. A loaded chain that is well
        shaped and whose digests match its contents is a valid pack whose
        history is what it reconstructs to. */
    constructor Load(loaded: seq<Revision>)
      ensures revs == Rebound(loaded)
      ensures Shaped(loaded) && Digested(loaded, Contents(loaded)) ==>
                Valid() && history == Contents(loaded)
    {
      revs := loaded;
      history := [];
      new;
      var i := 0;
      while i < |revs|
        invariant 0 <= i <= |revs| == |loaded|
        invariant forall k :: 0 <= k < i ==> revs[k] == loaded[k].(cursor := Some(k))
        invariant forall k :: i <= k < |revs| ==> revs[k] == loaded[k]
      {
        revs := revs[i := revs[i].(cursor := Some(i))];
        i := i + 1;
      }
      history := if Shaped(loaded) then Contents(loaded) else [];
      if Shaped(loaded) {
        LinkedContents(loaded, []);
        RebindKeepsContents(loaded, revs);
        LinkedContents(revs, []);
      }
    }

    /** `packCommit(data, metadata)`, with the clock reading `now` (milliseconds)
        passed in. Pops the tail; unless the dedup test fires, re-encodes it as
        a delta against the new content, drops its content, pushes it back and
        pushes the new record. */
    method Commit(data: string, metadata: Option<Props>, now: int)
      requires Valid()
      modifies this
      ensures Valid()
      ensures revs == Committed(old(revs), data, MetadataOrEmpty(metadata), now)
      ensures history == if SkipsUnchanged(old(revs), data, MetadataOrEmpty(metadata))
                         then old(history) else old(history) + [data]
    {
      ghost var before, past := revs, history;
      var meta := MetadataOrEmpty(metadata);
      var versions := |revs|;
      var head: Option<Revision> := None;
      if |revs| > 0 {
        head := Some(revs[|revs| - 1]);
        revs := revs[..|revs| - 1];
      }
      var props := AddProps(meta, map[]);
      assert props == Visible(meta);
      props := props - {"data"};
      if !("timestamp" in props && props["timestamp"].Num?) {
        props := props["timestamp" := Num(now / 1000)];
      }
      var commit := Revision(Md5Sum(data), Some(data), None, props, Some(versions));
      assert commit == NewRecord(data, meta, now, versions);
      if head.Some? {
        if "_skipUnchanged" in meta && Truthy(meta["_skipUnchanged"]) && commit.md5 == head.value.md5 {
          revs := revs + [head.value];
          assert SkipsUnchanged(before, data, meta) && revs == before;
          return;
        }
        var older := head.value.(diff := Some(Encode(data, head.value.data.value)));
        older := older.(data := None);
        revs := revs + [older];
      }
      revs := revs + [commit];
      history := history + [data];
      assert !SkipsUnchanged(before, data, meta);
      assert revs == Committed(before, data, meta, now);
      CommitShaped(before, data, meta, now);
      CommitLinked(before, past, data, meta, now);
      CommitDigested(before, past, data, meta, now);
    }

    /** `packReset(data, metadata)`: empty the pack, whatever it held, then
        commit `data` if it is given. The result is always a valid pack. */
    method Reset(data: Option<string>, metadata: Option<Props>, now: int)
      modifies this
      ensures Valid()
      ensures data.None? ==> revs == [] && history == []
      ensures data.Some? ==>
                && revs == Committed([], data.value, MetadataOrEmpty(metadata), now)
                && history == [data.value]
    {
      revs := [];
      history := [];
      if data.Some? {
        Commit(data.value, metadata, now);
      }
    }

    /** `pack[i].data()`: run the cursor bound to revision i. Returns the
        content committed at index i. */
    method Data(i: nat) returns (content: string)
      requires Valid() && i < |revs|
      ensures content == history[i]
    {
      var at := revs[i].cursor.value;
      content := CommitData(revs, at);
      LinkedReconstructs(revs, history, i);
    }
  }

  /** Binding cursors does not change what any revision reconstructs to. */
  lemma RebindKeepsContents(loaded: seq<Revision>, bound: seq<Revision>)
    requires Shaped(loaded) && |bound| == |loaded|
    requires forall k :: 0 <= k < |bound| ==> bound[k] == loaded[k].(cursor := Some(k))
    ensures Shaped(bound) && Contents(bound) == Contents(loaded)
  {
    forall i | 0 <= i < |bound|
      ensures ContentAt(bound, i) == ContentAt(loaded, i)
    {
      ContentAtLocal(bound, loaded, i);
    }
  }
}
