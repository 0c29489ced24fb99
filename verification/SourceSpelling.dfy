/** What the bytes of a source bundle spell, and which Git hash its tree id needs. */
module SourceSpelling {
  import opened Wrappers
  import opened Unicode
  import opened CanonicalJson
  import opened GitPath
  import opened GitTree
  import opened GitTreeId
  import opened SourceHeader
  import opened SourceBundle
  import opened SourceFrames
  import opened BigEndian
  import GitBinding
  import GitObject
  import Order

  lemma NamesSpelled()
    ensures SHA1 == Ascii("sha1") && SHA256 == Ascii("sha256")
  {
  }

  /** A header object names the hash that its ids are made with: `sha1` for ids of 40 digits. */
  lemma FormatSpelled(env: Context, h: Header)
    requires Distinct(env.names)
    ensures env.names.base in HeaderJson(env.names, h).members
    ensures
      var base := HeaderJson(env.names, h).members[env.names.base];
      base.Object? && env.names.objectFormat in base.members
      && base.members[env.names.objectFormat] == String(if |h.base.sha| == 40 then Ascii("sha1") else Ascii("sha256"))
  {
    HeaderFields(env.names, h);
    BaseFields(env.names, h.base);
    NamesSpelled();
  }

  /** Digests are spelled by two digits a byte. */
  ghost predicate SpellsHex(w: World) { forall b :: |w.hex(b)| == 2 * |b| }

  /** With digests of 20 and of 32 bytes, the tree id of a bundle is that of its entries under the one
      Git hash whose digests are as long as its ids. */
  lemma TreeTextEither(w: World, h: Header, entries: seq<Entry>)
    requires GitObject.FixedLength(w.sha1, 20) && GitObject.FixedLength(w.sha256, 32) && SpellsHex(w)
    requires ValidBase(w.context, h.base)
    ensures TreeText(w, h, entries) == Some(h.base.treeSha) <==>
      || (GitTreeOid(w.sha1, entries).Some? && w.hex(GitTreeOid(w.sha1, entries).value) == h.base.treeSha)
      || (GitTreeOid(w.sha256, entries).Some? && w.hex(GitTreeOid(w.sha256, entries).value) == h.base.treeSha)
  {
    if GitTreeOid(w.sha1, entries).Some? { assert |GitTreeOid(w.sha1, entries).value| == 20; }
    if GitTreeOid(w.sha256, entries).Some? { assert |GitTreeOid(w.sha256, entries).value| == 32; }
  }

  /** Object ids are 40 or 64 small hexadecimal digits. */
  lemma ObjectIdSpelled(t: Text)
    ensures ObjectId(t) <==> |t| in {40, 64} && forall c :: c in t ==> c in Ascii("0123456789abcdef")
  {
    var digits := Ascii("0123456789abcdef");
    assert forall i :: 0 <= i < 10 ==> digits[i] == 0x30 + i;
    assert forall i :: 10 <= i < 16 ==> digits[i] == 0x61 + (i - 10);
    forall c: CodeUnit ensures c in digits <==> 0x30 <= c < 0x3a || 0x61 <= c <= 0x66 {
      if 0x30 <= c < 0x3a { assert digits[c - 0x30] == c; }
      if 0x61 <= c <= 0x66 { assert digits[10 + (c - 0x61)] == c; }
    }
    assert forall i :: 0 <= i < |t| ==> t[i] in t;
  }

  /** Digests are spelled `sha256:` and 64 such digits. */
  lemma DigestSpelled(t: Text)
    ensures DigestText(t) ==> |t| == 71 && t[..7] == Ascii("sha256:") && ObjectId(t[7..])
    ensures |t| == 71 && t[..7] == Ascii("sha256:") && ObjectId(t[7..]) ==> DigestText(t)
  {
    assert SHA256 + [COLON] == Ascii("sha256:");
  }

  // Limits

  /** Entries within the limits: paths of 1 to 4096 bytes, files of at most 256 MiB, 512 MiB in all. */
  lemma EntriesWithin(entries: seq<Entry>)
    ensures ValidEntries(entries) <==>
      && (forall i :: 0 <= i < |entries| ==>
            ValidGitPath(entries[i].path) && 1 <= |entries[i].path| <= 4096 && |entries[i].file.content| <= 268435456)
      && (forall i :: 0 < i < |entries| ==> Order.Less(entries[i - 1].path, entries[i].path))
      && TotalBytes(entries) <= 536870912
  {
  }

  /** Headers within them: at most 50000 entries, and a manifest of at most 256 KiB. */
  lemma HeaderWithin(env: Context, h: Header)
    ensures ValidHeader(env, h) ==> Utf8Length(h.manifest.canonicalJson) <= 262144
    ensures ValidHeader(env, h) <==>
      && ValidRepository(env, h.repository) && ValidBase(env, h.base) && ValidManifest(env, h.manifest)
      && 0 <= h.entryCount <= 50000 && 0 <= h.totalFileBytes <= 536870912 && DigestText(h.entriesDigest)
  {
  }

  lemma ManifestWithin(env: Context, text: Text, digest: Text)
    requires ValidUnicode(text) && CanonicalObject(env, text)
    ensures ValidManifest(env, Manifest(text, Utf8Length(text), digest)) <==>
      text != [] && Utf8Length(text) <= 262144 && digest == env.sha256(EncodeUtf8(text)) && DigestText(digest)
  {
  }

  /** The number that bytes spell, the largest first. */
  function Spelled(b: Bytes): int {
    if b == [] then 0 else 256 * Spelled(b[..|b| - 1]) + b[|b| - 1] as int
  }

  lemma SpelledLast(b: Bytes, x: Byte)
    ensures Spelled(b + [x]) == 256 * Spelled(b) + x as int
  {
    assert (b + [x])[..|b|] == b;
  }

  lemma SpelledFour(b: Bytes, c: Bytes)
    requires |c| == 4
    ensures Spelled(b + c) == 0x1_0000_0000 * Spelled(b) + Read32(c)
  {
    SpelledLast(b, c[0]);
    SpelledLast(b + [c[0]], c[1]);
    SpelledLast(b + [c[0]] + [c[1]], c[2]);
    SpelledLast(b + [c[0]] + [c[1]] + [c[2]], c[3]);
    assert b + c == b + [c[0]] + [c[1]] + [c[2]] + [c[3]];
  }

  lemma LengthsSpelled(n: nat)
    requires n < 0x1_0000_0000
    ensures Spelled(U32(n)) == n && Spelled(U64(n)) == n
  {
    SpelledFour([], U32(n));
    SpelledFour([], U32(0));
    SpelledFour(U32(0), U32(n));
    Read32OfU32(n);
    Read32OfU32(0);
    assert [] + U32(n) == U32(n) && [] + U32(0) == U32(0) && U64(n) == U32(0) + U32(n);
  }

  /** A frame: the length of the path in four bytes, the largest first, 1 for an executable file and 0
      for any other, the length of the contents in eight bytes, the path and the contents. */
  lemma FrameSpelled(e: Entry)
    requires FrameFits(e)
    ensures
      var b, n, m := Frame(e), |e.path|, |e.file.content|;
      && |b| == 13 + n + m && Spelled(b[..4]) == n && Spelled(b[5..13]) == m
      && b[4] == (if e.file.executable then 1 else 0)
      && b[13..13 + n] == e.path && b[13 + n..] == e.file.content
  {
    var b, n, m := Frame(e), |e.path|, |e.file.content|;
    LengthsSpelled(n);
    LengthsSpelled(m);
    assert b[..4] == U32(n) && b[5..13] == U64(m);
    assert b[4] == (if e.file.executable then 1 else 0);
  }

  /** A bundle: its mark, the length of its header in four bytes, the canonical header, the frames of
      its entries in order, and its closing mark. */
  lemma BundleSpelled(w: World, bytes: Bytes, h: Header, entries: seq<Entry>)
    requires Genuine(w) && Represents(w, bytes, h, entries)
    ensures
      var header := EncodeUtf8(Render(HeaderJson(w.context.names, h)));
      && |header| <= 524288
      && Spelled(U32(|header|)) == |header|
      && bytes == (Ascii("API-MIGRATOR-SOURCE-BUNDLE") + [0] + Ascii("V1\n")) + U32(|header|) + header + Frames(entries)
           + (Ascii("\n") + Ascii("API-MIGRATOR-SOURCE-BUNDLE") + Ascii("-END") + [0] + Ascii("V1"))
  {
    LengthsSpelled(|HeaderBytes(w, h)|);
  }
}
