/** The binary delta the pack stores for every non-tail revision.

    The library delegates to a VCDIFF encoder; here a delta is one COPY/ADD/COPY
    window: keep a prefix of the newer text, insert literal characters, keep a
    suffix of the newer text. All the pack relies on is the round trip
    `Decode(newer, Encode(newer, older)) == older`, proved below as `RoundTrip`. */
module Vcdiff {

  /** How to rebuild an older text from a newer one: the newer text's first
      `prefix` characters, then `insert`, then its last `suffix` characters. */
  datatype Delta = Delta(prefix: nat, insert: string, suffix: nat)

  /** Length of the longest common prefix of `a` and `b`. */
  function CommonPrefix(a: string, b: string): (n: nat)
    ensures n <= |a| && n <= |b|
    ensures a[..n] == b[..n]
    ensures n < |a| && n < |b| ==> a[n] != b[n]
  {
    if |a| == 0 || |b| == 0 || a[0] != b[0] then 0
    else
      var m := CommonPrefix(a[1..], b[1..]);
      assert a[..m + 1] == [a[0]] + a[1..][..m];
      assert b[..m + 1] == [b[0]] + b[1..][..m];
      m + 1
  }

  /** Length of the longest common suffix of `a` and `b`. */
  function CommonSuffix(a: string, b: string): (n: nat)
    ensures n <= |a| && n <= |b|
    ensures a[|a| - n..] == b[|b| - n..]
  {
    if |a| == 0 || |b| == 0 || a[|a| - 1] != b[|b| - 1] then 0
    else
      var a', b' := a[..|a| - 1], b[..|b| - 1];
      var m := CommonSuffix(a', b');
      SplitLast(a, m);
      SplitLast(b, m);
      m + 1
  }

  /** The last `m + 1` characters of `s` are the last `m` of `s` without its
      final character, followed by that character. */
  lemma SplitLast(s: string, m: nat)
    requires m < |s|
    ensures s[|s| - (m + 1)..] == s[..|s| - 1][|s| - 1 - m..] + [s[|s| - 1]]
  {
  }

  /** A suffix of `s[p..]` is the same suffix of `s`. */
  lemma SuffixOfDrop(s: string, p: nat, n: nat)
    requires p + n <= |s|
    ensures s[p..][|s| - p - n..] == s[|s| - n..]
  {
  }

  /** `vcdiff.encode(newer, older)`: the delta that turns `newer` back into `older`.
      The kept prefix and suffix never overlap in either text. */
  function Encode(newer: string, older: string): (d: Delta)
    ensures d.prefix + d.suffix <= |newer| && d.prefix + d.suffix <= |older|
    ensures newer[..d.prefix] == older[..d.prefix]
    ensures newer[|newer| - d.suffix..] == older[|older| - d.suffix..]
    ensures d.insert == older[d.prefix..|older| - d.suffix]
  {
    var p := CommonPrefix(newer, older);
    var newerRest, olderRest := newer[p..], older[p..];
    var s := CommonSuffix(newerRest, olderRest);
    assert |newerRest| == |newer| - p && |olderRest| == |older| - p;
    SuffixOfDrop(newer, p, s);
    SuffixOfDrop(older, p, s);
    Delta(p, older[p..|older| - s], s)
  }

  /** `vcdiff.decode(newer, d)`. A delta whose prefix and suffix do not fit in
      `newer` is clamped, so decoding is total. */
  function Decode(newer: string, d: Delta): (older: string)
    ensures d.prefix + d.suffix <= |newer| ==> |older| == d.prefix + |d.insert| + d.suffix
    ensures d.prefix <= |newer| ==> d.prefix <= |older| && older[..d.prefix] == newer[..d.prefix]
  {
    var p := if d.prefix <= |newer| then d.prefix else |newer|;
    var s := if d.suffix <= |newer| - p then d.suffix else |newer| - p;
    newer[..p] + d.insert + newer[|newer| - s..]
  }

  /** The one law the pack depends on: a delta decodes against the text it was
      encoded against to exactly the older text, for all texts including "". */
  lemma RoundTrip(newer: string, older: string)
    ensures Decode(newer, Encode(newer, older)) == older
  {
    var d := Encode(newer, older);
    var p, s := d.prefix, d.suffix;
    assert older == older[..p] + older[p..|older| - s] + older[|older| - s..];
  }
}
