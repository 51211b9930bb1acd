/** The reverse-delta chain of rarch.js: revision records, the chain invariant,
    the value-level effect of `packCommit` and the reconstruction loop of
    `commitData`. */
module Chain {
  import opened Utils
  import opened Vcdiff

  /** One element of a pack. `md5` is `_md5`, `data` is `_data` (full content),
      `diff` is `_diff`, `props` are the copied metadata and the timestamp, and
      `cursor` is the index bound into the revision's `data()` closure; it is
      a function in the source, so it is not part of the serialized form. */
  datatype Revision = Revision(
    md5: nat,
    data: Option<string>,
    diff: Option<Delta>,
    props: Props,
    cursor: Option<nat>)

  /** Only the tail holds full content, and it holds no delta; every other
      revision holds a delta and no content. */
  predicate Shaped(pack: seq<Revision>)
  {
    && (|pack| > 0 ==> pack[|pack| - 1].data.Some? && pack[|pack| - 1].diff.None?)
    && forall k :: 0 <= k < |pack| - 1 ==> pack[k].data.None? && pack[k].diff.Some?
  }

  /** The content revision `i` reconstructs to: the tail's content, decoded
      through the deltas of revisions |pack|-2 down to i. */
  function ContentAt(pack: seq<Revision>, i: nat): string
    requires Shaped(pack) && i < |pack|
    decreases |pack| - i
  {
    if i == |pack| - 1 then pack[i].data.value
    else Decode(ContentAt(pack, i + 1), pack[i].diff.value)
  }

  /** The content of every revision, oldest first. */
  function Contents(pack: seq<Revision>): (history: seq<string>)
    requires Shaped(pack)
    ensures |history| == |pack|
  {
    seq(|pack|, k requires 0 <= k < |pack| => ContentAt(pack, k))
  }

  /** The chain invariant against a commit history: the tail carries the last
      committed content, and each other revision's delta decodes its newer
      neighbour's content into its own. */
  ghost predicate Linked(pack: seq<Revision>, history: seq<string>)
  {
    && |history| == |pack|
    && (|pack| > 0 ==> pack[|pack| - 1].data == Some(history[|pack| - 1]))
    && forall k {:trigger pack[k]} :: 0 <= k < |pack| - 1 ==>
         pack[k].diff.Some? && Decode(history[k + 1], pack[k].diff.value) == history[k]
  }

  /** Every revision's cursor is bound to its own index. */
  predicate Bound(pack: seq<Revision>)
  {
    forall k :: 0 <= k < |pack| ==> pack[k].cursor == Some(k)
  }

  /** Every revision's digest is the checksum of the content committed there. */
  ghost predicate Digested(pack: seq<Revision>, history: seq<string>)
    requires |history| == |pack|
  {
    forall k :: 0 <= k < |pack| ==> pack[k].md5 == Md5Sum(history[k])
  }

  /** Reconstruction yields the committed history: for every index, decoding
      the chain gives the content committed there. */
  lemma {:induction false} LinkedReconstructs(pack: seq<Revision>, history: seq<string>, i: nat)
    requires Shaped(pack) && Linked(pack, history) && i < |pack|
    ensures ContentAt(pack, i) == history[i]
    decreases |pack| - i
  {
    if i < |pack| - 1 {
      LinkedReconstructs(pack, history, i + 1);
    }
  }

  /** Any well-shaped chain is linked to the contents it reconstructs to, and
      that is the only history it is linked to. */
  lemma LinkedContents(pack: seq<Revision>, history: seq<string>)
    requires Shaped(pack)
    ensures Linked(pack, Contents(pack))
    ensures Linked(pack, history) ==> history == Contents(pack)
  {
    if Linked(pack, history) {
      forall i | 0 <= i < |pack|
        ensures history[i] == Contents(pack)[i]
      {
        LinkedReconstructs(pack, history, i);
      }
    }
  }

  /** Reconstruction of revision i reads only revisions i and above: two chains
      of the same length whose content and delta fields agree from i upward
      reconstruct i to the same content. */
  lemma {:induction false} ContentAtLocal(a: seq<Revision>, b: seq<Revision>, i: nat)
    requires Shaped(a) && Shaped(b) && |a| == |b| && i < |a|
    requires forall k :: i <= k < |a| ==> a[k].data == b[k].data && a[k].diff == b[k].diff
    ensures ContentAt(a, i) == ContentAt(b, i)
    decreases |a| - i
  {
    assert a[i].data == b[i].data && a[i].diff == b[i].diff;
    if i < |a| - 1 {
      ContentAtLocal(a, b, i + 1);
      assert ContentAt(a, i) == Decode(ContentAt(a, i + 1), a[i].diff.value);
    }
  }

  /** `commitData(pack, i)`: if revision i holds its content, return it;
      otherwise start from the tail's content and decode backwards through
      the deltas of revisions |pack|-2 down to i. */
  method CommitData(pack: seq<Revision>, i: nat) returns (content: string)
    requires Shaped(pack) && i < |pack|
    ensures content == ContentAt(pack, i)
  {
    if pack[i].data.Some? {
      return pack[i].data.value;
    }
    var j: int := |pack| - 1;
    content := pack[j].data.value;
    j := j - 1;
    while j >= i
      invariant i - 1 <= j < |pack| - 1
      invariant content == ContentAt(pack, j + 1)
      decreases j
    {
      content := Decode(content, pack[j].diff.value);
      j := j - 1;
    }
  }

  /** The `_skipUnchanged` dedup test: there is a head, the metadata asks for
      skipping (a truthy `_skipUnchanged`), and the new content's digest equals
      the head's. */
  predicate SkipsUnchanged(pack: seq<Revision>, data: string, metadata: Props)
  {
    && |pack| > 0
    && "_skipUnchanged" in metadata
    && Truthy(metadata["_skipUnchanged"])
    && Md5Sum(data) == pack[|pack| - 1].md5
  }

  /** A numeric `timestamp` is kept; anything else (absent, a string, ...) is
      replaced by the commit time in whole seconds, floor(now / 1000) for
      `now` in milliseconds. */
  function Stamped(props: Props, now: int): Props
  {
    if "timestamp" in props && props["timestamp"].Num? then props
    else props["timestamp" := Num(now / 1000)]
  }

  /** The record `packCommit` builds for `data` at index `versions`: digest and
      content, the visible metadata (a `data` property is shadowed by the
      cursor closure assigned afterwards), then the timestamp rule. */
  function NewRecord(data: string, metadata: Props, now: int, versions: nat): Revision
  {
    Revision(Md5Sum(data), Some(data), None,
             Stamped(Visible(metadata) - {"data"}, now), Some(versions))
  }

  /** The pack `packCommit` leaves behind, as a value: unchanged when the dedup
      test fires; otherwise the old tail re-encoded as a delta against the new
      content, without its content, followed by the new record. */
  function Committed(pack: seq<Revision>, data: string, metadata: Props, now: int): seq<Revision>
    requires Shaped(pack)
  {
    if SkipsUnchanged(pack, data, metadata) then pack
    else if |pack| == 0 then [NewRecord(data, metadata, now, 0)]
    else
      var head := pack[|pack| - 1];
      pack[..|pack| - 1]
        + [head.(data := None, diff := Some(Encode(data, head.data.value)))]
        + [NewRecord(data, metadata, now, |pack|)]
  }

  /** Committing to an empty pack yields one revision holding the content and
      its digest. */
  lemma CommitFirst(data: string, metadata: Props, now: int)
    ensures |Committed([], data, metadata, now)| == 1
    ensures Committed([], data, metadata, now)[0].data == Some(data)
    ensures Committed([], data, metadata, now)[0].md5 == Md5Sum(data)
    ensures Committed([], data, metadata, now)[0].diff == None
  {
  }

  /** With `_skipUnchanged` and an equal digest the pack is left as it was. */
  lemma CommitSkips(pack: seq<Revision>, data: string, metadata: Props, now: int)
    requires Shaped(pack) && SkipsUnchanged(pack, data, metadata)
    ensures Committed(pack, data, metadata, now) == pack
  {
  }

  /** A non-deduplicated commit onto n >= 1 revisions: n + 1 revisions, the new
      tail holds the content, the former tail holds the delta from the new
      content back to its own and no content (its other fields kept), and
      revisions 0..n-2 are untouched. */
  lemma CommitAppends(pack: seq<Revision>, data: string, metadata: Props, now: int)
    requires Shaped(pack) && |pack| > 0 && !SkipsUnchanged(pack, data, metadata)
    ensures var r, n := Committed(pack, data, metadata, now), |pack|;
      && |r| == n + 1
      && r[n] == NewRecord(data, metadata, now, n)
      && r[n].data == Some(data) && r[n].md5 == Md5Sum(data) && r[n].diff == None
      && r[n - 1].diff == Some(Encode(data, pack[n - 1].data.value))
      && r[n - 1].data == None
      && r[n - 1].md5 == pack[n - 1].md5 && r[n - 1].props == pack[n - 1].props
      && r[n - 1].cursor == pack[n - 1].cursor
      && forall k :: 0 <= k < n - 1 ==> r[k] == pack[k]
  {
    var n := |pack|;
    var head := pack[n - 1];
    var older := head.(data := None, diff := Some(Encode(data, head.data.value)));
    var record := NewRecord(data, metadata, now, n);
    var r := Committed(pack, data, metadata, now);
    var kept := pack[..n - 1];
    assert r == kept + [older] + [record];
    AppendTwo(kept, older, record);
  }

  /** Indexing into a sequence extended by two elements. */
  lemma AppendTwo<T>(kept: seq<T>, x: T, y: T)
    ensures |kept + [x] + [y]| == |kept| + 2
    ensures (kept + [x] + [y])[|kept|] == x && (kept + [x] + [y])[|kept| + 1] == y
    ensures forall k :: 0 <= k < |kept| ==> (kept + [x] + [y])[k] == kept[k]
  {
  }

  /** The new record's properties: a numeric `timestamp` in the metadata is
      kept, otherwise the commit time is used; every other visible metadata
      property except `data` is carried; no reserved property is. */
  lemma NewRecordProps(data: string, metadata: Props, now: int, versions: nat)
    ensures var props := NewRecord(data, metadata, now, versions).props;
      && (if "timestamp" in metadata && metadata["timestamp"].Num?
          then props["timestamp"] == metadata["timestamp"]
          else props["timestamp"] == Num(now / 1000))
      && (forall name :: name in metadata && !Reserved(name) && name != "data" && name != "timestamp"
            ==> name in props && props[name] == metadata[name])
      && (forall name :: name in props ==> !Reserved(name) && name != "data")
  {
  }

  /** Commit keeps the chain shaped and its cursors bound to their indices. */
  lemma CommitShaped(pack: seq<Revision>, data: string, metadata: Props, now: int)
    requires Shaped(pack)
    ensures Shaped(Committed(pack, data, metadata, now))
    ensures Bound(pack) ==> Bound(Committed(pack, data, metadata, now))
  {
    if SkipsUnchanged(pack, data, metadata) || |pack| == 0 {
      return;
    }
    var n := |pack|;
    var r := Committed(pack, data, metadata, now);
    CommitAppends(pack, data, metadata, now);
    forall k | 0 <= k < n + 1
      ensures (k < n ==> r[k].data.None? && r[k].diff.Some?)
      ensures (Bound(pack) ==> r[k].cursor == Some(k))
    {
      if k < n - 1 {
        assert r[k] == pack[k];
      }
    }
  }

  /** Commit preserves the chain invariant: a deduplicated commit keeps the
      history, any other appends the new content to it. Needs the round trip
      of the delta codec for the former tail. */
  lemma CommitLinked(pack: seq<Revision>, history: seq<string>, data: string, metadata: Props, now: int)
    requires Shaped(pack) && Linked(pack, history)
    ensures Linked(Committed(pack, data, metadata, now),
                   if SkipsUnchanged(pack, data, metadata) then history else history + [data])
  {
    if SkipsUnchanged(pack, data, metadata) || |pack| == 0 {
      return;
    }
    var n := |pack|;
    var r := Committed(pack, data, metadata, now);
    CommitAppends(pack, data, metadata, now);
    RoundTrip(data, pack[n - 1].data.value);
    LinkedExtend(pack, history, r, data);
  }

  /** Extending a linked chain: keep revisions 0..n-2, give the former tail a
      delta that decodes the new content back into the old tail's content,
      and put the new content at the tail. */
  lemma LinkedExtend(pack: seq<Revision>, history: seq<string>, r: seq<Revision>, data: string)
    requires Linked(pack, history) && |pack| > 0 && |r| == |pack| + 1
    requires forall k :: 0 <= k < |pack| - 1 ==> r[k] == pack[k]
    requires r[|pack| - 1].diff.Some? && Decode(data, r[|pack| - 1].diff.value) == history[|pack| - 1]
    requires r[|pack|].data == Some(data)
    ensures Linked(r, history + [data])
  {
    var n, h := |pack|, history + [data];
    assert h[n] == data && h[n - 1] == history[n - 1];
    forall k | 0 <= k < n - 1
      ensures r[k].diff.Some? && Decode(h[k + 1], r[k].diff.value) == h[k]
    {
      assert r[k] == pack[k];
      assert h[k] == history[k] && h[k + 1] == history[k + 1];
    }
  }

  /** Commit keeps every digest the checksum of the content committed at its
      index. */
  lemma CommitDigested(pack: seq<Revision>, history: seq<string>, data: string, metadata: Props, now: int)
    requires Shaped(pack) && |history| == |pack| && Digested(pack, history)
    ensures var r := Committed(pack, data, metadata, now);
      |r| == |if SkipsUnchanged(pack, data, metadata) then history else history + [data]| &&
      Digested(r, if SkipsUnchanged(pack, data, metadata) then history else history + [data])
  {
    if SkipsUnchanged(pack, data, metadata) || |pack| == 0 {
      return;
    }
    var n := |pack|;
    var r, h := Committed(pack, data, metadata, now), history + [data];
    CommitAppends(pack, data, metadata, now);
    forall k | 0 <= k < |r|
      ensures r[k].md5 == Md5Sum(h[k])
    {
      if k < n - 1 {
        assert r[k] == pack[k] && h[k] == history[k];
      } else if k == n - 1 {
        assert r[k].md5 == pack[k].md5 && h[k] == history[k];
      } else {
        assert r[k] == NewRecord(data, metadata, now, n) && h[k] == data;
      }
    }
  }

  /** After a commit every revision reconstructs to the content committed at
      its index, the new one included. */
  lemma CommitReconstructs(pack: seq<Revision>, history: seq<string>, data: string, metadata: Props, now: int, i: nat)
    requires Shaped(pack) && Linked(pack, history)
    requires i < |Committed(pack, data, metadata, now)|
    ensures Shaped(Committed(pack, data, metadata, now))
    ensures ContentAt(Committed(pack, data, metadata, now), i)
         == (if SkipsUnchanged(pack, data, metadata) then history else history + [data])[i]
  {
    CommitShaped(pack, data, metadata, now);
    CommitLinked(pack, history, data, metadata, now);
    LinkedReconstructs(Committed(pack, data, metadata, now),
                       if SkipsUnchanged(pack, data, metadata) then history else history + [data], i);
  }

  /** Dedup fires only when the new content has the digest of the content
      currently at the tail. */
  lemma SkipMeansSameDigest(pack: seq<Revision>, history: seq<string>, data: string, metadata: Props)
    requires Linked(pack, history) && Digested(pack, history)
    requires SkipsUnchanged(pack, data, metadata)
    ensures Md5Sum(data) == Md5Sum(history[|history| - 1])
  {
  }
}
