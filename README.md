# rarch pack engine in Dafny

A model of the pack engine of rarch, a small revision archive. A **pack** is
an array of revisions kept as a reverse-delta chain: the newest revision (the
tail) holds the full content in `_data`, and every older revision holds only
`_diff`, a delta that decodes its newer neighbour's content into its own.
`commit` pops the tail, re-encodes it as a delta against the new content
(or, with `_skipUnchanged` and an equal digest, puts it back and stops), and
pushes the new revision. `reset` empties a pack and optionally commits one
revision. Each revision carries a `data()` cursor bound to its pack and
index, which rebuilds its content by decoding backwards from the tail.
`thaw` decompresses a gzip-framed Buffer, turns a Buffer into text, parses
text that opens with '[' or '{', and returns any other text or value as it is;
`makePack` thaws its argument and rebinds every revision's cursor, and
`makeTree` does the same for every named pack of a tree.

Modules, following the source:

- `Vcdiff` (vcdiff.dfy): the delta codec. The library uses VCDIFF; here a
  delta keeps a prefix of the newer text, inserts literal characters and
  keeps a suffix. Its round trip `Decode(newer, Encode(newer, older)) == older`
  is proved, and it is the only property of the codec the pack relies on.
- `Utils` (utils.dfy): `md5sum` (a stand-in checksum), `addProps` and `isGzip`
  from utils.js.
- `Chain` (chain.dfy): revisions, the chain invariant, the reconstruction loop
  of `commitData`, and `packCommit`'s effect on the revision sequence as a value.
- `Packs` (pack.dfy): class `Pack` holding the revision sequence and the ghost
  commit history, with `Commit`, `Reset`, `Data` (running a cursor) and `Load`
  (the cursor-binding loop of `makePack`). `Valid()` says: only the tail holds
  content, the deltas decode the history, every cursor is bound to its own
  index, and every digest is the checksum of the content committed there.
- `Envelope` (envelope.dfy): the branch decision of `thaw`.
- `Rarch` (rarch.dfy): `makePack`, `makeTree`, and the structural content that
  `JSON.stringify` keeps of a pack.

Points of the code the model follows closely:

- A metadata property named `data` never survives a commit: the cursor
  closure assigned after the copy overwrites it (rarch.js:134). The model
  drops it from the new revision.
- Reconstruction does not memoize. It returns `_data` directly only when the
  revision holds it (rarch.js:48-51), which in a valid pack is only the tail.
- Only the metadata copy skips names starting with '_' (utils.js:36). The
  revision's own `_md5`, `_data` and `_diff` are stored and serialized.

## Model

| member | source | states |
|---|---|---|
| Vcdiff.Encode | rarch.js:151 | the delta of the new content and the old tail keeps a common prefix and a common suffix that overlap in neither text, and inserts exactly the old text's middle |
| Vcdiff.Decode | rarch.js:60 | decoding is total: a delta that fits the newer text gives a text of prefix + insert + suffix characters that opens with the newer text's prefix; its inverse law is Vcdiff.RoundTrip |
| Vcdiff.RoundTrip | rarch.js:151-153 | decoding a delta against the text it was encoded against gives back exactly the older text, for every pair of texts including empty ones |
| Utils.Md5Sum | utils.js:17-22 | the digest is a function of the content and fits in 128 bits |
| Utils.Reserved | utils.js:36 | a name is skipped by the copy exactly when it has a first character and that character is '_'; the empty name is copied (stated through Utils.Visible and Utils.AddPropsEffect) |
| Utils.Visible | utils.js:35-38 | the properties copied are exactly the source's own properties whose name does not start with '_', with their values |
| Utils.AddProps | utils.js:32-40 | the loop over the source's keys leaves the destination equal to its old properties overridden by every non-underscore property of the source |
| Utils.AddPropsEffect | utils.js:35-39 | a name ends up in the destination iff it was there or is a non-underscore name of the source; copied names take the source's value; names absent from the source and underscore names keep their old value |
| Utils.IsGzip | utils.js:49-57 | the header test on a possibly missing buffer; its meaning is stated by Utils.IsGzipHeader and Utils.IsGzipPrefix |
| Utils.IsGzipHeader | utils.js:49-57 | `isGzip` holds iff the buffer is present, has at least 3 bytes and opens with 0x1f 0x8b 0x08; a missing or shorter buffer is never gzip |
| Utils.IsGzipPrefix | utils.js:53-55 | only the first three bytes decide: a buffer is gzip iff its first three bytes are the header, whatever follows |
| Chain.ContentAt | rarch.js:52-66 | the content revision i reconstructs to, decoding from the tail down to i; Chain.LinkedReconstructs proves it is the committed content and Chain.CommitData that the loop computes it |
| Chain.LinkedReconstructs | rarch.js:52-66 | in a chain linked to a history, reconstructing index i yields the content committed at i, for every valid i |
| Chain.LinkedContents | rarch.js:221-222 | every well-shaped chain is linked to the contents it reconstructs to, and to no other history |
| Chain.ContentAtLocal | rarch.js:52-63 | reconstruction of index i reads only revisions at index i and above: chains that agree there reconstruct i identically |
| Chain.CommitData | rarch.js:41-68 | the reconstruction loop returns the content of revision i: the tail's content decoded through the deltas of revisions length-2 down to i, or the revision's own content when it holds it |
| Chain.SkipsUnchanged | rarch.js:146-147 | the dedup test: a head exists, `_skipUnchanged` is truthy and the digests agree; Chain.CommitSkips and Chain.SkipMeansSameDigest state its effect |
| Chain.Stamped | rarch.js:143-145 | the timestamp rule: a numeric `timestamp` is kept, any other is replaced by floor(now / 1000); stated by Chain.NewRecordProps |
| Chain.NewRecord | rarch.js:123-145 | the record a commit builds: digest, content, copied metadata without `data`, timestamp and cursor; its properties are stated by Chain.NewRecordProps and Chain.CommitAppends |
| Chain.Committed | rarch.js:117-158 | `packCommit`'s effect on the array as a value; Chain.CommitFirst, Chain.CommitSkips, Chain.CommitAppends, Chain.CommitShaped, Chain.CommitLinked, Chain.CommitDigested and Chain.CommitReconstructs state what it does |
| Chain.CommitFirst | rarch.js:121-126 | a commit on an empty pack gives one revision holding the content, its digest and no delta |
| Chain.CommitSkips | rarch.js:146-150 | with a head, a truthy `_skipUnchanged` and an equal digest, the pack is left exactly as it was |
| Chain.CommitAppends | rarch.js:146-155 | otherwise a commit on n >= 1 revisions gives n+1: the new tail holds the content; the former tail holds the delta from the new content to its own content, loses its content and keeps its other fields; revisions 0..n-2 are unchanged |
| Chain.NewRecordProps | rarch.js:128-145 | a numeric metadata `timestamp` is kept, any other is replaced by the commit time in seconds; every other non-underscore metadata property except `data` is on the new revision; no underscore property is |
| Chain.CommitShaped | rarch.js:146-155 | after a commit only the tail holds content and every cursor is still bound to its own index |
| Chain.CommitLinked | rarch.js:151-155 | a commit keeps the chain linked to the history: unchanged on dedup, extended by the new content otherwise |
| Chain.LinkedExtend | rarch.js:151-155 | keeping revisions 0..n-2, giving the former tail a delta that decodes the new content into its old content, and putting the new content at the tail extends the chain's history by that content |
| Chain.CommitDigested | rarch.js:121-155 | after a commit every revision's digest is still the checksum of the content committed at its index, the new record's included |
| Chain.CommitReconstructs | rarch.js:117-158 | after a commit every index reconstructs to the content committed there, the new one included |
| Chain.SkipMeansSameDigest | rarch.js:147 | dedup fires only when the new content's checksum equals that of the content at the tail |
| Packs.MetadataOrEmpty | rarch.js:128-130 | an absent metadata argument is read as `{}` |
| Packs.Rebound | rarch.js:221-230 | activation gives every revision a cursor bound to its own index and changes nothing else |
| Packs.RebindKeepsContents | rarch.js:221-222 | binding cursors changes no revision's reconstructed content |
| Packs.Pack.Load | rarch.js:221-230 | the binding loop leaves the revisions with cursors bound to their indices; a loaded chain that is well shaped and whose digests match is a valid pack whose history is what it reconstructs to |
| Packs.Pack.Commit | rarch.js:117-158 | commit keeps the pack valid, leaves the revisions as the pure commit step describes, and appends the content to the history unless dedup fires |
| Packs.Pack.Reset | rarch.js:168-176 | on any pack, valid or not, `reset()` leaves no revision and an empty history and `reset(d)` leaves one revision holding d and the history [d]; either way the pack is valid afterwards |
| Packs.Pack.Data | rarch.js:134 | running the cursor of revision i returns the content committed at index i |
| Envelope.DeJson | rarch.js:187-195 | `deJSON` never returns a Buffer, passes a parsed value through, and fails exactly when a Buffer's text or a string opens with '[' or '{' and does not parse |
| Envelope.Thaw | rarch.js:186-201 | thawing never yields a Buffer: Buffers are turned into text, decompressed first when gzip-framed; a gzip-framed Buffer that does not decompress fails |
| Envelope.ThawBuffer | rarch.js:187-200 | a gzip-framed Buffer thaws as the text it decompresses to, or fails when it does not decompress; an unframed Buffer thaws as its own text |
| Envelope.ThawText | rarch.js:188-194 | text is JSON-parsed iff its first character is '[' or '{' (a parse failure is a failure); any other text passes through unchanged |
| Envelope.ThawStructured | rarch.js:191-194 | an already parsed value passes through unchanged |
| Envelope.ThawRoundTrip | rarch.js:186-201 | a gzip member whose text is JSON parsing to v thaws to v, and so does that text |
| Rarch.Frozen | rarch.js:80-89 | the serialized form keeps every revision's fields and drops only the cursor closure |
| Rarch.ReloadRestores | rarch.js:221-222 | rebinding the cursors of a serialized pack whose cursors were bound restores exactly that pack |
| Rarch.FrozenKeepsContents | rarch.js:98-107 | the serialized form is still a well-shaped chain with the same contents and digests |
| Rarch.MakePack | rarch.js:211-235 | an absent argument gives an empty pack; otherwise the thawed value, if it is an array, is activated as a pack with every cursor bound (a new pack object in the model); a well-shaped loaded chain with matching digests gives a valid pack; anything else fails |
| Rarch.GzipReload | rarch.js:211-235 | a pack gzipped and loaded again thaws to its serialized revisions, and activation gives back the same revisions, contents and digests |
| Rarch.MakeTree | rarch.js:245-270 | an absent argument is an empty tree; a thawed object of packs gives a tree with exactly its names, each an activated pack, and every member whose chain is well shaped with matching digests is a valid pack whose history is what it reconstructs to, ready for commit and data; any other thawed value fails (see Left out for arrays) |
| Rarch.ActivateMembers | rarch.js:254-267 | every name gets a pack holding its revisions with cursors bound, and a member whose chain is well shaped with matching digests is a valid pack whose history is its contents; for a tree thawed from text or a Buffer, where every member is its own parsed array, the packs are distinct, so a commit to one valid member cannot change another |
| Rarch.ActivateMember | rarch.js:256-260 | `makePack` on one member's array, which `thaw` passes through: a new pack holding the revisions with cursors bound, valid with the reconstructed history when the chain is |

## Left out

- vcdiff encode/decode internals: replaced by the prefix/insert/suffix delta of `Vcdiff`. The pack proofs use only its round trip.
- md5sum: replaced by a 128-bit polynomial checksum. Dedup compares digests only, as the source does, so a digest collision would drop a changed revision in the model too.
- `zlib.gzip`, `zlib.gunzip`, `Buffer.toString`, `JSON.stringify` and `JSON.parse`: library calls. `thaw` receives the decompress, to-text and parse functions as parameters. `packToJSON` and `packToGzip` appear only through `Rarch.Frozen`, the structural content they serialize. Tree serialization is the same per member.
- JSON values are abstracted: a parse either yields a pack array or a tree object, or fails. A JSON document of any other shape counts as a failure. So does a tree member that is not an array.
- `async.whilst`, `async.forEachOf`, `setImmediate` and the callbacks: scheduling only. Reconstruction is a plain loop and `makeTree` a loop over the names.
- The Bluebird `dataAsync`, `packAsync` and `treeAsync` variants: the same operations with a different calling convention. A metadata property named `dataAsync`, which the source overwrites when Bluebird is loaded, is kept in the model.
- `new Date()`: the clock reading is the parameter `now`, in milliseconds.
- Injection of `_packMethods` and `_treeMethods` with `addProps`: object plumbing.
- Utils.AddProps: returns the updated destination instead of assigning into the caller's object in place, so aliasing between source and destination is not modelled.
- Numbers are integers. Fractional and NaN timestamps are not modelled, and metadata values are scalars.
- Packs.Pack.Commit and Packs.Pack.Data require a valid pack. The source does not check this: on a loaded chain whose tail lacks `_data`, its behaviour depends on how vcdiff treats `undefined`.
- Rarch.MakeTree: passing an already activated tree iterates its method properties too. That case is not modelled, since tree members are packs only.
- Rarch.MakeTree: `async.forEachOf` also walks arrays, so a thawed empty array is returned as a "tree" with the tree methods attached, and a non-empty one fails inside `makePack`. The model fails on every array.
- Rarch.MakePack: activation rebinds the cursors of the thawed array in place and hands back that same array (rarch.js:221-232). The model builds a new `Pack` object instead, so aliasing is not captured: a caller's array is not updated.
- Rarch.ActivateMembers: the source writes each activated pack back into the object it was given (rarch.js:259). When two names of an in-memory tree hold the same array they stay one pack there, and a commit through one name shows through the other. The model gives every name its own pack, so its distinctness promise covers only trees thawed from text or a Buffer.
- Packs.MetadataOrEmpty: a `null` metadata argument passes the `undefined` test (rarch.js:128-130). The first lookup at rarch.js:147 then throws on a non-empty pack. `Option<Props>` cannot express `null`, so this failure is not modelled.
