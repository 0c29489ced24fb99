/** `parseSourceBundle`, and why a bundle and its contents determine each other. */
module SourceParser {
  import opened Wrappers
  import opened Unicode
  import opened BigEndian
  import opened CanonicalJson
  import opened JsonParser
  import opened CanonicalCodec
  import opened CanonicalParser
  import opened GitPath
  import opened GitTree
  import opened GitTreeId
  import opened SourceHeader
  import opened SourceBundle
  import opened SourceFrames

  /** Header bytes to header: strict UTF-8, canonical JSON, exact fields. */
  function ReadHeaderBytes(w: World, bytes: Bytes): Option<Header> {
    var text := DecodeUtf8(bytes);
    if text.None? then None
    else
      var parsed := Recheck(text.value, JsonParse(w.context.inexact, text.value));
      if parsed.None? then None else ReadHeader(w.context, parsed.value)
  }

  /** Header bytes are read as h exactly when h is valid and they are its canonical bytes. */
  lemma HeaderBytesExact(w: World, bytes: Bytes, h: Header)
    requires Genuine(w)
    ensures ReadHeaderBytes(w, bytes) == Some(h) <==> ValidHeader(w.context, h) && bytes == HeaderBytes(w, h)
  {
    if ReadHeaderBytes(w, bytes) == Some(h) { HeaderRecovered(w, bytes, h); }
    if ValidHeader(w.context, h) { HeaderRecognized(w, h); }
  }

  lemma HeaderRecovered(w: World, bytes: Bytes, h: Header)
    requires Genuine(w) && ReadHeaderBytes(w, bytes) == Some(h)
    ensures ValidHeader(w.context, h) && bytes == HeaderBytes(w, h)
  {
    var text := DecodeUtf8(bytes).value;
    var parsed := JsonParse(w.context.inexact, text);
    EncodeOfDecode(bytes);
    RecheckExact(text, parsed, Recheck(text, parsed).value);
    HeaderExact(w.context, parsed.value, h);
  }

  lemma HeaderRecognized(w: World, h: Header)
    requires Genuine(w) && ValidHeader(w.context, h)
    ensures ReadHeaderBytes(w, HeaderBytes(w, h)) == Some(h) && HeaderBytes(w, h) != []
  {
    var j := HeaderJson(w.context.names, h);
    HeaderSerializable(w.context, h);
    RenderValid(j);
    RenderHead(j);
    DecodeOfEncode(Render(j));
    CanonicalRoundTrip(w.context.inexact, j);
    RecheckExact(Render(j), JsonParse(w.context.inexact, Render(j)), j);
    HeaderExact(w.context, j, h);
  }

  /** The three checks the parser calls out to: path, header, and stated digests. */
  datatype Checks = Checks(
    valid: Bytes -> bool,
    readHeader: Bytes -> Option<Header>,
    matches: (Header, seq<Entry>) -> bool)

  function ChecksOf(w: World): Checks {
    Checks(ValidGitPath, b => ReadHeaderBytes(w, b), (h, es) => AllFit(es) && Matches(w, h, es))
  }

  /** How the parts of a bundle lie in its bytes. */
  ghost predicate LaidOut(w: World, bytes: Bytes, header: Bytes, entries: seq<Entry>, valid: Bytes -> bool) {
    && 34 + |header| <= |bytes| && |header| <= MAX_HEADER_BYTES
    && bytes[..30] == MAGIC
    && Read32(bytes[30..34]) == |header|
    && bytes[34..34 + |header|] == header
    && Spelled(bytes, 34 + |header|, valid, entries, FOOTER)
  }

  lemma LayoutOfAssembled(w: World, header: Bytes, entries: seq<Entry>, valid: Bytes -> bool)
    requires |header| <= MAX_HEADER_BYTES && Listable(entries, valid)
    ensures LaidOut(w, Assemble(w, header, entries), header, entries, valid)
  {
    var bytes := Assemble(w, header, entries);
    Read32OfU32(|header|);
    MarkLengths();
    FiveParts(MAGIC, U32(|header|), header, Frames(entries), FOOTER);
  }

  lemma FiveParts(a: Bytes, b: Bytes, c: Bytes, d: Bytes, e: Bytes)
    ensures var s, i, j := a + b + c + d + e, |a| + |b|, |a| + |b| + |c|;
      s[..|a|] == a && s[|a|..i] == b && s[i..j] == c && s[j..] == d + e
  {
  }

  lemma AssembledOfLayout(w: World, bytes: Bytes, header: Bytes, entries: seq<Entry>, valid: Bytes -> bool)
    requires LaidOut(w, bytes, header, entries, valid)
    ensures bytes == Assemble(w, header, entries)
  {
    U32OfRead32(bytes[30..34]);
    MarkLengths();
    assert bytes == bytes[..30] + bytes[30..34] + bytes[34..34 + |header|] + bytes[34 + |header|..];
  }

  /** Everything the parser checks about a bundle. */
  ghost predicate Accepted(w: World, c: Checks, bytes: Bytes, header: Bytes, h: Header, entries: seq<Entry>) {
    && |bytes| <= MAX_BUNDLE_BYTES
    && LaidOut(w, bytes, header, entries, c.valid)
    && header != [] && c.readHeader(header) == Some(h)
    && |entries| == h.entryCount && c.matches(h, entries)
  }

  lemma RepresentsAccepted(w: World, bytes: Bytes, h: Header, entries: seq<Entry>)
    requires Genuine(w) && Represents(w, bytes, h, entries)
    ensures Accepted(w, ChecksOf(w), bytes, HeaderBytes(w, h), h, entries)
  {
    HeaderRecognized(w, h);
    BundleFits(w, h, entries);
    LayoutOfAssembled(w, HeaderBytes(w, h), entries, ValidGitPath);
  }

  lemma AcceptedRepresents(w: World, bytes: Bytes, header: Bytes, h: Header, entries: seq<Entry>)
    requires Genuine(w) && Accepted(w, ChecksOf(w), bytes, header, h, entries)
    ensures Represents(w, bytes, h, entries)
  {
    HeaderRecovered(w, header, h);
    AssembledOfLayout(w, bytes, header, entries, ValidGitPath);
  }

  /** Whole parser. Rejection is exact too: what it refuses is no bundle at all. */
  method ParseSourceBundle(w: World, bytes: Bytes) returns (r: Option<(Header, seq<Entry>)>)
    requires Genuine(w)
    ensures r.Some? ==> Represents(w, bytes, r.value.0, r.value.1)
    ensures forall h, entries :: Represents(w, bytes, h, entries) ==> r == Some((h, entries))
  {
    var c := ChecksOf(w);
    EntryCounts(w);
    ghost var header;
    r, header := Parse(w, c, bytes);
    forall h, entries | Represents(w, bytes, h, entries) ensures r == Some((h, entries)) {
      RepresentsAccepted(w, bytes, h, entries);
    }
    if r.Some? { AcceptedRepresents(w, bytes, header, r.value.0, r.value.1); }
  }

  lemma EntryCounts(w: World)
    requires Genuine(w)
    ensures forall b :: ChecksOf(w).readHeader(b).Some? ==> ChecksOf(w).readHeader(b).value.entryCount >= 0
  {
    forall b | ReadHeaderBytes(w, b).Some? ensures ReadHeaderBytes(w, b).value.entryCount >= 0 {
      HeaderRecovered(w, b, ReadHeaderBytes(w, b).value);
    }
  }

  /** A length that a bundle can have, the mark, and a header that fits. */
  predicate Opens(bytes: Bytes, header: Bytes) {
    && |MAGIC| + 4 + |FOOTER| <= |bytes| <= MAX_BUNDLE_BYTES && 34 + |header| <= |bytes|
    && bytes[..30] == MAGIC && Read32(bytes[30..34]) == |header| && bytes[34..34 + |header|] == header
    && 0 < |header| <= MAX_HEADER_BYTES
  }

  /** The front of `parseSourceBundle`: limits, magic, header length and header. */
  method ReadFront(bytes: Bytes) returns (r: Option<(Bytes, nat)>)
    ensures r.Some? ==> Opens(bytes, r.value.0) && r.value.1 == 34 + |r.value.0|
    ensures forall header :: Opens(bytes, header) ==> r == Some((header, 34 + |header|))
  {
    MarkLengths();
    if |bytes| < |MAGIC| + 4 + |FOOTER| || |bytes| > MAX_BUNDLE_BYTES {
      return None;
    }
    var offset := 0;
    if bytes[offset..offset + |MAGIC|] != MAGIC {
      return None;
    }
    offset := offset + |MAGIC|;
    var headerLength := Read32(bytes[offset..offset + 4]);
    offset := offset + 4;
    if headerLength == 0 || headerLength > MAX_HEADER_BYTES {
      return None;
    }
    var headerEnd := CheckedEnd(offset, headerLength, |bytes|);
    if headerEnd.None? {
      return None;
    }
    r := Some((bytes[offset..headerEnd.value], headerEnd.value));
  }

  /** The back: the footer, and nothing after it. */
  method ReadBack(bytes: Bytes, end: nat) returns (ok: bool)
    requires end <= |bytes|
    ensures ok <==> bytes[end..] == FOOTER
  {
    MarkLengths();
    var footerEnd := CheckedEnd(end, |FOOTER|, |bytes|);
    if footerEnd.None? || bytes[end..footerEnd.value] != FOOTER {
      return false;
    }
    ok := footerEnd.value == |bytes|;
    if ok { assert bytes[end..] == bytes[end..footerEnd.value]; }
  }

  lemma AcceptedOpens(w: World, c: Checks, bytes: Bytes, header: Bytes, h: Header, entries: seq<Entry>)
    requires Accepted(w, c, bytes, header, h, entries)
    ensures Opens(bytes, header)
  {
    MarkLengths();
  }

  /** The offset arithmetic of `parseSourceBundle`. */
  method Parse(w: World, c: Checks, bytes: Bytes) returns (r: Option<(Header, seq<Entry>)>, ghost header: Bytes)
    requires forall b :: c.readHeader(b).Some? ==> c.readHeader(b).value.entryCount >= 0
    ensures r.Some? ==> Accepted(w, c, bytes, header, r.value.0, r.value.1)
    ensures forall b, h, entries :: Accepted(w, c, bytes, b, h, entries) ==> r == Some((h, entries))
  {
    r, header := None, [];
    var front := ReadFront(bytes);
    forall b, h, entries | Accepted(w, c, bytes, b, h, entries) ensures front == Some((b, 34 + |b|)) {
      AcceptedOpens(w, c, bytes, b, h, entries);
    }
    if front.None? { return; }
    var (headerBytes, headerEnd) := front.value;
    var parsed := c.readHeader(headerBytes);
    if parsed.None? { return; }
    var frames := ReadFrames(bytes, headerEnd, parsed.value.entryCount, c.valid);
    if frames.None? { return; }
    var (entries, end) := frames.value;
    var closed := ReadBack(bytes, end);
    if !closed || !c.matches(parsed.value, entries) { return; }
    r, header := Some((parsed.value, entries)), headerBytes;
  }

  /** Parsing what was encoded returns it: header and entries of one bundle are unique. */
  lemma EncodingInjective(w: World, h: Header, entries: seq<Entry>, h': Header, entries': seq<Entry>)
    requires Genuine(w) && ValidBundle(w, h, entries) && ValidBundle(w, h', entries')
    requires EncodeBundle(w, h, entries) == EncodeBundle(w, h', entries')
    ensures h == h' && entries == entries'
  {
    var bytes := EncodeBundle(w, h, entries);
    RepresentsAccepted(w, bytes, h, entries);
    RepresentsAccepted(w, bytes, h', entries');
    AcceptedUnique(w, ChecksOf(w), bytes, HeaderBytes(w, h), h, entries, HeaderBytes(w, h'), h', entries');
  }

  lemma AcceptedUnique(w: World, c: Checks, bytes: Bytes, b: Bytes, h: Header, entries: seq<Entry>,
                       b': Bytes, h': Header, entries': seq<Entry>)
    requires Accepted(w, c, bytes, b, h, entries) && Accepted(w, c, bytes, b', h', entries')
    ensures h == h' && entries == entries'
  {
    FramesUnique(bytes, 34 + |b|, entries, entries', FOOTER, c.valid);
  }

  lemma FramesUnique(bytes: Bytes, start: nat, a: seq<Entry>, b: seq<Entry>, rest: Bytes, valid: Bytes -> bool)
    requires Spelled(bytes, start, valid, a, rest) && Spelled(bytes, start, valid, b, rest)
    requires |a| == |b|
    ensures a == b
  {
    AgreesAtStart(bytes, start, valid, |a|);
    FramesUniqueFrom(bytes, start, a, b, 0, rest);
  }

  lemma {:induction false} FramesUniqueFrom(bytes: Bytes, offset: nat, a: seq<Entry>, b: seq<Entry>, k: nat, rest: Bytes)
    requires |a| == |b| && k <= |a| && a[..k] == b[..k]
    requires At(bytes, offset, a, k, rest) && At(bytes, offset, b, k, rest)
    ensures a == b
    decreases |a| - k
  {
    if k < |a| {
      NextEntry(bytes, offset, a, k, rest);
      NextEntry(bytes, offset, b, k, rest);
      assert a[..k + 1] == a[..k] + [a[k]] && b[..k + 1] == b[..k] + [b[k]];
      FramesUniqueFrom(bytes, offset + |Frame(a[k])|, a, b, k + 1, rest);
    } else {
      assert a == a[..k] && b == b[..k];
    }
  }
}
