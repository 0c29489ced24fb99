/** The framed source bundle: header, byte-ordered entries, footer (runner-source-bundle.ts). */
module SourceBundle {
  import opened Wrappers
  import opened Unicode
  import opened BigEndian
  import opened CanonicalJson
  import opened JsonParser
  import opened CanonicalCodec
  import opened CanonicalParser
  import opened GitPath
  import opened GitTree
  import opened GitTreeId
  import opened SourceHeader
  import Order
  import GitObject

  const MAX_SOURCE_FILE_BYTES := 268435456
  const MAX_HEADER_BYTES := 524288
  const FRAME_PREFIX_BYTES := 13

  /** The two fixed marks. */
  const MARK: Bytes := Ascii("API-MIGRATOR-SOURCE-BUNDLE")
  const MAGIC: Bytes := MARK + [0] + Ascii("V1\n")
  const FOOTER: Bytes := Ascii("\n") + MARK + Ascii("-END") + [0] + Ascii("V1")
  const MAX_BUNDLE_BYTES :=
    MAX_SOURCE_TOTAL_BYTES + MAX_SOURCE_ENTRIES * (MAX_GIT_PATH_BYTES + FRAME_PREFIX_BYTES)
    + MAX_HEADER_BYTES + |MAGIC| + |FOOTER| + 4

  /** The header context, the two Git hashes and their spelling. */
  datatype World = World(
    context: Context,
    sha1: GitObject.Hash, sha256: GitObject.Hash, hex: Bytes -> Text)

  /** Nothing is assumed of the environment but distinct, well-formed member names. */
  ghost predicate Genuine(w: World) {
    Distinct(w.context.names) && WellFormed(w.context.names)
  }

  lemma MarkLengths()
    ensures |MAGIC| == 30 && |FOOTER| == 34
  {
  }

  // Encoding

  function Frame(e: Entry): (b: Bytes)
    requires FrameFits(e)
    ensures |b| == FRAME_PREFIX_BYTES + |e.path| + |e.file.content|
  {
    U32(|e.path|) + [if e.file.executable then 1 else 0] + U64(|e.file.content|) + e.path + e.file.content
  }

  /** The per-entry limits of `encodeEntries`. */
  predicate FrameFits(e: Entry) {
    0 < |e.path| <= MAX_GIT_PATH_BYTES && |e.file.content| <= MAX_SOURCE_FILE_BYTES
  }

  predicate AllFit(entries: seq<Entry>) {
    forall i :: 0 <= i < |entries| ==> FrameFits(entries[i])
  }

  function Frames(entries: seq<Entry>): Bytes
    requires AllFit(entries)
  {
    if entries == [] then [] else Frame(entries[0]) + Frames(entries[1..])
  }

  function TotalBytes(entries: seq<Entry>): nat {
    if entries == [] then 0 else |entries[0].file.content| + TotalBytes(entries[1..])
  }

  predicate ByteOrdered(entries: seq<Entry>) {
    forall i :: 0 < i < |entries| ==> Order.Less(entries[i - 1].path, entries[i].path)
  }

  function HeaderBytes(w: World, h: Header): Bytes {
    var text := Render(HeaderJson(w.context.names, h));
    if ValidUnicode(text) then EncodeUtf8(text) else []
  }

  /** What a bundle must satisfy: limits, order, and the digests its header states. */
  predicate ValidBundle(w: World, h: Header, entries: seq<Entry>) {
    && ValidHeader(w.context, h)
    && 0 < |HeaderBytes(w, h)| <= MAX_HEADER_BYTES
    && ValidEntries(entries)
    && Matches(w, h, entries)
  }

  predicate ValidEntries(entries: seq<Entry>) {
    AllFit(entries) && AllValid(entries) && ByteOrdered(entries) && TotalBytes(entries) <= MAX_SOURCE_TOTAL_BYTES
  }

  predicate Matches(w: World, h: Header, entries: seq<Entry>)
    requires AllFit(entries)
  {
    && |entries| == h.entryCount
    && TotalBytes(entries) == h.totalFileBytes
    && w.context.sha256(Frames(entries)) == h.entriesDigest
    && TreeText(w, h, entries) == Some(h.base.treeSha)
  }

  /** `gitTreeOid(entries, objectFormat)` in hexadecimal. */
  function TreeText(w: World, h: Header, entries: seq<Entry>): Option<Text> {
    var oid := GitTreeOid(if |h.base.sha| == 40 then w.sha1 else w.sha256, entries);
    if oid.None? then None else Some(w.hex(oid.value))
  }

  function EncodeBundle(w: World, h: Header, entries: seq<Entry>): Bytes
    requires AllFit(entries) && |HeaderBytes(w, h)| <= MAX_HEADER_BYTES
  {
    Assemble(w, HeaderBytes(w, h), entries)
  }

  function Assemble(w: World, header: Bytes, entries: seq<Entry>): Bytes
    requires AllFit(entries) && |header| <= MAX_HEADER_BYTES
  {
    MAGIC + U32(|header|) + header + Frames(entries) + FOOTER
  }

  /** The bytes are the bundle of this header and these entries. */
  predicate Represents(w: World, bytes: Bytes, h: Header, entries: seq<Entry>) {
    ValidBundle(w, h, entries) && bytes == EncodeBundle(w, h, entries)
  }

  // Size

  lemma {:induction false} FramesLength(entries: seq<Entry>)
    requires AllFit(entries)
    ensures |Frames(entries)| <= TotalBytes(entries) + |entries| * (MAX_GIT_PATH_BYTES + FRAME_PREFIX_BYTES)
  {
    if entries != [] {
      FramesLength(entries[1..]);
      assert |entries| * (MAX_GIT_PATH_BYTES + FRAME_PREFIX_BYTES)
          == MAX_GIT_PATH_BYTES + FRAME_PREFIX_BYTES + |entries[1..]| * (MAX_GIT_PATH_BYTES + FRAME_PREFIX_BYTES);
    }
  }

  /** The final size check of the encoder can never fail: the other limits imply it. */
  lemma BundleFits(w: World, h: Header, entries: seq<Entry>)
    requires Genuine(w) && ValidBundle(w, h, entries)
    ensures |EncodeBundle(w, h, entries)| <= MAX_BUNDLE_BYTES
  {
    AssembledFits(w, HeaderBytes(w, h), entries);
  }

  lemma AssembledFits(w: World, header: Bytes, entries: seq<Entry>)
    requires |header| <= MAX_HEADER_BYTES
    requires AllFit(entries) && |entries| <= MAX_SOURCE_ENTRIES && TotalBytes(entries) <= MAX_SOURCE_TOTAL_BYTES
    ensures |Assemble(w, header, entries)| <= MAX_BUNDLE_BYTES
  {
    FramesLength(entries);
    MarkLengths();
  }
}
