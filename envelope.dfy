/** The branch decision of `thaw` in rarch.js: decompress gzip-framed input,
    then parse text that opens a JSON array or object, and pass anything else
    through. Decompression, byte-to-text conversion and JSON parsing are
    library calls; they are given as the functions of a `Runtime`. */
module Envelope {
  import opened Utils

  /** What `thaw` may be handed: a Buffer, a string, or an already parsed value. */
  datatype Input<T> = Buf(bytes: seq<byte>) | Text(chars: string) | Structured(value: T)

  /** The library calls `thaw` makes: `zlib.gunzip` (`None` when it reports an
      error), `Buffer.toString` and `JSON.parse` (`None` when parsing throws or
      does not yield a `T`). */
  datatype Runtime<T> = Runtime(
    gunzip: seq<byte> -> Option<seq<byte>>,
    toText: seq<byte> -> string,
    parse: string -> Option<T>)

  /** Text whose first character opens a JSON array or object. */
  predicate OpensJson(chars: string)
  {
    |chars| > 0 && (chars[0] == '[' || chars[0] == '{')
  }

  /** `utils.isGzip(obj)` on each kind of input: only a Buffer can match, since
      a string's characters and a parsed value's elements are never the
      numbers of the header. */
  predicate Framed<T>(obj: Input<T>)
  {
    IsGzip(if obj.Buf? then Some(obj.bytes) else None)
  }

  /** The `deJSON` step: a Buffer becomes text; text opening a JSON array or
      object is parsed; anything else is returned unchanged. */
  function DeJson<T>(obj: Input<T>, rt: Runtime<T>): (r: Option<Input<T>>)
    ensures r.Some? ==> !r.value.Buf?
    ensures obj.Structured? ==> r == Some(obj)
    ensures r.None? <==> var chars := if obj.Buf? then rt.toText(obj.bytes) else if obj.Text? then obj.chars else "";
                          (obj.Buf? || obj.Text?) && OpensJson(chars) && rt.parse(chars).None?
  {
    var plain := if obj.Buf? then Text(rt.toText(obj.bytes)) else obj;
    if plain.Text? && OpensJson(plain.chars) then
      match rt.parse(plain.chars)
      case Some(v) => Some(Structured(v))
      case None => None
    else Some(plain)
  }

  /** `thaw(obj)`: gunzip first when the input is gzip-framed, then `deJSON`.
      `deJSON` ignores gunzip's error and then indexes the missing result,
      which throws: a member that does not decompress is a failure. */
  function Thaw<T>(obj: Input<T>, rt: Runtime<T>): (r: Option<Input<T>>)
    ensures r.Some? ==> !r.value.Buf?
    ensures Framed(obj) && rt.gunzip(obj.bytes).None? ==> r.None?
  {
    if Framed(obj) then
      match rt.gunzip(obj.bytes)
      case Some(raw) => DeJson(Buf(raw), rt)
      case None => None
    else DeJson(obj, rt)
  }

  /** Gzip-framed input is decompressed first and then treated as the text it
      decompresses to, or fails when it does not decompress; an unframed Buffer
      is treated as its own text. */
  lemma ThawBuffer<T>(bytes: seq<byte>, rt: Runtime<T>)
    ensures IsGzip(Some(bytes)) && rt.gunzip(bytes).Some? ==>
              Thaw(Buf(bytes), rt) == Thaw(Text(rt.toText(rt.gunzip(bytes).value)), rt)
    ensures IsGzip(Some(bytes)) && rt.gunzip(bytes).None? ==> Thaw(Buf(bytes), rt) == None
    ensures !IsGzip(Some(bytes)) ==> Thaw(Buf(bytes), rt) == Thaw(Text(rt.toText(bytes)), rt)
  {
  }

  /** Text is parsed exactly when it opens a JSON array or object; other text
      and already structured values pass through unchanged. */
  lemma ThawText<T>(chars: string, rt: Runtime<T>)
    ensures OpensJson(chars) ==>
              Thaw(Text(chars), rt) == (if rt.parse(chars).Some? then Some(Structured(rt.parse(chars).value)) else None)
    ensures !OpensJson(chars) ==> Thaw(Text(chars), rt) == Some(Text(chars))
  {
  }

  /** A parsed value passes through unchanged. */
  lemma ThawStructured<T>(v: T, rt: Runtime<T>)
    ensures Thaw(Structured(v), rt) == Some(Structured(v))
  {
  }

  /** The envelope round trip: a gzip member whose decompressed text is JSON
      that parses to `v` thaws to `v`, and so does that text itself. */
  lemma ThawRoundTrip<T>(gzipped: seq<byte>, text: string, v: T, rt: Runtime<T>)
    requires IsGzip(Some(gzipped)) && rt.gunzip(gzipped).Some?
    requires rt.toText(rt.gunzip(gzipped).value) == text
    requires OpensJson(text) && rt.parse(text) == Some(v)
    ensures Thaw(Buf(gzipped), rt) == Some(Structured(v))
    ensures Thaw(Text(text), rt) == Some(Structured(v))
  {
  }
}
