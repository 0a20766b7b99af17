/** What a connector fetches: text, bytes, or both. An absent field and an empty one are treated
    alike by every reader, so both are the empty value here. */
module Contents {
  import opened Prelude

  type Bytes = seq<int>

  /** A SHA-256 digest, taken as injective. */
  datatype Hash = Sha256(raw: Bytes)

  datatype Content = Content(externalId: string, title: string, filename: string, bytes: Bytes, text: string)

  /** The UTF-8 conversions, which are library code. */
  datatype Codec = Codec(encode: string -> Bytes, decode: Bytes -> string)

  predicate IsEmpty(c: Content) {
    c.bytes == [] && c.text == ""
  }

  /** The bytes that are hashed: the fetched bytes if there are any, the encoded text otherwise. */
  function HashOf(codec: Codec, c: Content): Hash {
    Sha256(if c.bytes != [] then c.bytes else codec.encode(c.text))
  }

  /** The text that is parsed: the fetched text if there is any, the decoded bytes otherwise. */
  function TextOf(codec: Codec, c: Content): string {
    if c.text != "" then c.text else if c.bytes != [] then codec.decode(c.bytes) else ""
  }

  /** The last content that a list carries for an id, if any. */
  function ContentFor(items: seq<Content>, externalId: string): Option<Content> {
    if items == [] then None
    else if items[|items| - 1].externalId == externalId then Some(items[|items| - 1])
    else ContentFor(items[..|items| - 1], externalId)
  }

  /** Titles and file names do not matter for the hash; texts do not if there are bytes. */
  lemma SameHashIff(codec: Codec, c: Content, d: Content)
    ensures c.bytes != [] && d.bytes != [] ==> (HashOf(codec, c) == HashOf(codec, d) <==> c.bytes == d.bytes)
    ensures c.bytes == [] && d.bytes == [] ==> (HashOf(codec, c) == HashOf(codec, d) <==> codec.encode(c.text) == codec.encode(d.text))
    ensures c.bytes != [] && d.bytes == [] ==> (HashOf(codec, c) == HashOf(codec, d) <==> c.bytes == codec.encode(d.text))
  {
  }

  /** What is parsed is the text, and bytes without a text are read as one; so a content is empty if and
      only if there is nothing to hash and nothing to parse. */
  lemma ParsedText(codec: Codec, c: Content)
    ensures |c.text| > 0 ==> TextOf(codec, c) == c.text
    ensures |c.text| == 0 && c.bytes != [] ==> TextOf(codec, c) == codec.decode(c.bytes)
    ensures IsEmpty(c) <==> c.bytes == [] && TextOf(codec, c) == ""
  {
  }

  /** Only the empty text encodes to no bytes. */
  ghost predicate Faithful(codec: Codec) {
    forall t :: |codec.encode(t)| == 0 <==> |t| == 0
  }

  lemma EmptyHash(codec: Codec, c: Content)
    requires Faithful(codec)
    ensures HashOf(codec, c) == Sha256([]) <==> IsEmpty(c)
  {
    assert |codec.encode(c.text)| == 0 <==> |c.text| == 0;
  }
}
