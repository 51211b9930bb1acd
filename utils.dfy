/** Helpers of utils.js: the checksum, the filtered property copy and the gzip
    header test. */
module Utils {

  newtype byte = b: int | 0 <= b < 256

  datatype Option<T> = None | Some(value: T)

  /** A scalar property value as JavaScript holds it (numbers as integers). */
  datatype Value = Null | Bool(b: bool) | Num(n: int) | Str(s: string)

  /** An object's own enumerable properties. */
  type Props = map<string, Value>

  /** JavaScript truthiness of a scalar. */
  predicate Truthy(v: Value)
  {
    match v
    case Null => false
    case Bool(b) => b
    case Num(n) => n != 0
    case Str(s) => s != []
  }

  const DigestBound: nat := 0x1_0000_0000_0000_0000_0000_0000_0000_0000

  /** Stand-in for `md5sum`: a 128-bit polynomial checksum of the content. The
      model only uses that equal contents have equal digests. */
  function Md5Sum(data: string): (digest: nat)
    ensures digest < DigestBound
  {
    if data == [] then 0
    else (Md5Sum(data[..|data| - 1]) * 31 + data[|data| - 1] as int) % DigestBound
  }

  /** A property name the copy skips: one whose first character is '_'.
      The empty name has no first character and is copied. */
  predicate Reserved(name: string)
  {
    |name| > 0 && name[0] == '_'
  }

  /** The properties of `src` that `addProps` copies. */
  function Visible(src: Props): (r: Props)
    ensures r.Keys <= src.Keys
    ensures forall name :: name in r ==> !Reserved(name) && r[name] == src[name]
    ensures forall name :: name in src && !Reserved(name) ==> name in r
  {
    map name | name in src && !Reserved(name) :: src[name]
  }

  /** `addProps(srcObj, dstObj)`: every own property of `src` whose name does
      not start with '_' is assigned onto `dst`, one at a time. The object is
      returned rather than updated in place. */
  method AddProps(src: Props, dst: Props) returns (r: Props)
    ensures r == dst + Visible(src)
  {
    r := dst;
    var todo := src.Keys;
    while todo != {}
      invariant todo <= src.Keys
      invariant r == dst + Visible(src - todo)
      decreases |todo|
    {
      var prop :| prop in todo;
      VisibleStep(src, todo, prop);
      if !Reserved(prop) {
        r := r[prop := src[prop]];
      }
      todo := todo - {prop};
    }
    assert src - todo == src;
  }

  /** One more name of `src` visited by the copy loop. */
  lemma VisibleStep(src: Props, todo: set<string>, prop: string)
    requires prop in todo && todo <= src.Keys
    ensures Visible(src - (todo - {prop})) ==
              if Reserved(prop) then Visible(src - todo) else Visible(src - todo)[prop := src[prop]]
  {
    var before, after := Visible(src - todo), Visible(src - (todo - {prop}));
    if Reserved(prop) {
      assert after.Keys == before.Keys;
    } else {
      assert after.Keys == before.Keys + {prop};
    }
  }

  /** What the copy leaves in `dst`: names absent from `src` and reserved names
      keep their old values, every other name of `src` takes its value there,
      and no reserved name is added. */
  lemma AddPropsEffect(src: Props, dst: Props, name: string)
    ensures name in dst + Visible(src) <==> name in dst || (name in src && !Reserved(name))
    ensures name in src && !Reserved(name) ==> (dst + Visible(src))[name] == src[name]
    ensures name in dst && (name !in src || Reserved(name)) ==> (dst + Visible(src))[name] == dst[name]
  {
  }

  /** The gzip member header ID1, ID2, CM (deflate) of section 2.3.1 of RFC 1952. */
  const GzipMagic: seq<byte> := [0x1f, 0x8b, 0x08]

  /** `isGzip(buf)`: `None` stands for a missing buffer (null or undefined). */
  predicate IsGzip(buf: Option<seq<byte>>)
  {
    && buf.Some?
    && |buf.value| >= 3
    && buf.value[0] == 0x1f
    && buf.value[1] == 0x8b
    && buf.value[2] == 0x08
  }

  /** The test is exactly "the buffer opens with the RFC 1952 header"; a
      missing buffer or one shorter than three bytes is never gzip. */
  lemma IsGzipHeader(buf: Option<seq<byte>>)
    ensures IsGzip(buf) <==> buf.Some? && |buf.value| >= 3 && buf.value[..3] == GzipMagic
    ensures buf.None? || |buf.value| < 3 ==> !IsGzip(buf)
  {
    if buf.Some? && |buf.value| >= 3 && buf.value[..3] == GzipMagic {
      assert buf.value[0] == buf.value[..3][0];
      assert buf.value[1] == buf.value[..3][1];
      assert buf.value[2] == buf.value[..3][2];
    }
  }

  /** Only the first three bytes matter: whatever follows the header. */
  lemma IsGzipPrefix(header: seq<byte>, rest: seq<byte>)
    requires |header| == 3
    ensures IsGzip(Some(header + rest)) <==> header == GzipMagic
  {
    assert (header + rest)[..3] == header;
    IsGzipHeader(Some(header + rest));
  }
}
