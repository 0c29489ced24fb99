/** The encoding half of `createSourceBundle`. */
module SourceEncoder {
  import opened Wrappers
  import opened Unicode
  import opened BigEndian
  import opened CanonicalJson
  import opened CanonicalParser
  import opened GitPath
  import opened GitTree
  import opened GitTreeId
  import opened SourceHeader
  import opened SourceBundle
  import opened SourceFrames
  import opened SourceParser

  /** What `encodeEntries` accepts. */
  predicate Encodable(entries: seq<Entry>, valid: Bytes -> bool) {
    && AllFit(entries) && TotalBytes(entries) <= MAX_SOURCE_TOTAL_BYTES
    && forall i :: 0 <= i < |entries| ==> valid(entries[i].path)
  }

  /** `encodeEntries`: frames in order, or a refusal as soon as a limit is passed. */
  method EncodeEntries(entries: seq<Entry>, valid: Bytes -> bool) returns (r: Option<(Bytes, nat)>)
    ensures r.Some? <==> Encodable(entries, valid)
    ensures r.Some? ==> r.value == (Frames(entries), TotalBytes(entries))
  {
    var frames: Bytes := [];
    var totalFileBytes := 0;
    var ok, index := true, 0;
    while ok && index < |entries|
      invariant index <= |entries|
      invariant ok ==> Encodable(entries[..index], valid)
      invariant ok ==> frames == Frames(entries[..index]) && totalFileBytes == TotalBytes(entries[..index])
      invariant !ok ==> !Encodable(entries, valid)
      decreases |entries| - index
    {
      var entry := entries[index];
      EncodableStep(entries, valid, index);
      ok := valid(entry.path) && 0 < |entry.path| <= MAX_GIT_PATH_BYTES && |entry.file.content| <= MAX_SOURCE_FILE_BYTES;
      if ok {
        frames := frames + Frame(entry);
        totalFileBytes := totalFileBytes + |entry.file.content|;
        ok := totalFileBytes <= MAX_SOURCE_TOTAL_BYTES;
      }
      index := index + 1;
    }
    WholePrefix(entries);
    r := if ok then Some((frames, totalFileBytes)) else None;
  }

  lemma WholePrefix(entries: seq<Entry>)
    ensures entries[..|entries|] == entries
  {
  }

  lemma EncodeStep(entries: seq<Entry>, k: nat)
    requires k < |entries| && AllFit(entries[..k]) && FrameFits(entries[k])
    ensures AllFit(entries[..k + 1])
    ensures Frames(entries[..k + 1]) == Frames(entries[..k]) + Frame(entries[k])
    ensures TotalBytes(entries[..k + 1]) == TotalBytes(entries[..k]) + |entries[k].file.content|
    ensures TotalBytes(entries[..k + 1]) <= TotalBytes(entries)
  {
    assert entries[..k + 1] == entries[..k] + [entries[k]];
    FramesSnoc(entries[..k], entries[k]);
    TotalOfPrefix(entries, k + 1);
  }

  // What one more entry changes.
  lemma EncodableStep(entries: seq<Entry>, valid: Bytes -> bool, k: nat)
    requires k < |entries| && Encodable(entries[..k], valid)
    ensures Encodable(entries[..k + 1], valid) <==>
      valid(entries[k].path) && FrameFits(entries[k])
      && TotalBytes(entries[..k]) + |entries[k].file.content| <= MAX_SOURCE_TOTAL_BYTES
    ensures Encodable(entries, valid) ==> Encodable(entries[..k + 1], valid)
    ensures FrameFits(entries[k]) ==>
      AllFit(entries[..k + 1]) && Frames(entries[..k + 1]) == Frames(entries[..k]) + Frame(entries[k])
      && TotalBytes(entries[..k + 1]) == TotalBytes(entries[..k]) + |entries[k].file.content|
  {
    assert entries[..k + 1] == entries[..k] + [entries[k]];
    assert entries[..k + 1][k] == entries[k];
    if FrameFits(entries[k]) { EncodeStep(entries, k); }
  }

  /** SHA-256 is always spelled as a digest. */
  ghost predicate SpellsDigests(w: World) { forall b :: DigestText(w.context.sha256(b)) }

  /** The header `createSourceBundle` builds around its inputs. */
  function HeaderFor(w: World, repository: Repository, base: Base, manifestJson: Text, entries: seq<Entry>): Header
    requires ValidUnicode(manifestJson) && AllFit(entries)
  {
    Header(repository, base, ManifestFor(w, manifestJson), |entries|, TotalBytes(entries), w.context.sha256(Frames(entries)))
  }

  /** The encoder succeeds exactly on the inputs that make a valid bundle, and then
      returns its bytes. The entries come sorted and bounded from the index reader. */
  method CreateSourceBundle(w: World, repository: Repository, base: Base, manifestJson: Text, entries: seq<Entry>)
    returns (r: Option<(Bytes, Header)>)
    requires Genuine(w) && SpellsDigests(w)
    requires ByteOrdered(entries) && |entries| <= MAX_SOURCE_ENTRIES
    ensures r.Some? <==>
      && ValidUnicode(manifestJson) && AllFit(entries)
      && ValidBundle(w, HeaderFor(w, repository, base, manifestJson, entries), entries)
    ensures r.Some? ==> Represents(w, r.value.0, r.value.1, entries)
  {
    if !CheckedInputs(w, repository, base, manifestJson) {
      return None;
    }
    var encoded := EncodeEntries(entries, ValidGitPath);
    if encoded.None? {
      return None;
    }
    var header := HeaderFor(w, repository, base, manifestJson, entries);
    if TreeText(w, header, entries) != Some(base.treeSha) {
      return None;
    }
    TextsMakeHeader(w, repository, base, manifestJson, entries);
    var bytes := SealBundle(w, header, entries, encoded.value.0);
    r := if bytes.None? then None else Some((bytes.value, header));
  }

  /** The end of `createSourceBundle`: the canonical header, then the whole file. */
  method SealBundle(w: World, header: Header, entries: seq<Entry>, frames: Bytes) returns (r: Option<Bytes>)
    requires Genuine(w) && ByteOrdered(entries) && |entries| <= MAX_SOURCE_ENTRIES && Encodable(entries, ValidGitPath)
    requires frames == Frames(entries) && TreeText(w, header, entries) == Some(header.base.treeSha)
    requires header.entryCount == |entries| && header.totalFileBytes == TotalBytes(entries)
    requires header.entriesDigest == w.context.sha256(frames)
    requires ValidHeader(w.context, header) <==> ValidUnicode(header.repository.slug) && ValidUnicode(header.base.branch)
    ensures r.Some? <==> ValidBundle(w, header, entries)
    ensures r.Some? ==> Represents(w, r.value, header, entries)
  {
    var text := Serialize(HeaderJson(w.context.names, header));
    HeaderComplete(w, header);
    if text.None? {
      return None;
    }
    RenderValid(HeaderJson(w.context.names, header));
    var headerBytes := EncodeUtf8(text.value);
    if |headerBytes| == 0 || |headerBytes| > MAX_HEADER_BYTES {
      return None;
    }
    var bytes := MAGIC + U32(|headerBytes|) + headerBytes + frames + FOOTER;
    BundleFits(w, header, entries);
    if |bytes| > MAX_BUNDLE_BYTES {
      assert false;
    }
    r := Some(bytes);
  }

  /** `validateRepository`, `validateBase` and `validateCanonicalManifest`. */
  predicate CheckedInputs(w: World, repository: Repository, base: Base, manifestJson: Text) {
    && w.context.validSlug(repository.slug) && Positive(repository.id) && Positive(repository.ownerId)
    && w.context.validBranch(base.branch)
    && ObjectId(base.sha) && ObjectId(base.treeSha) && |base.sha| == |base.treeSha|
    && manifestJson != [] && Utf8Length(manifestJson) <= MAX_CANONICAL_MANIFEST_BYTES
    && ValidUnicode(manifestJson) && CanonicalObject(w.context, manifestJson)
  }

  // A header of checked parts is valid exactly when its texts are, hence when it serializes.
  lemma TextsMakeHeader(w: World, repository: Repository, base: Base, manifestJson: Text, entries: seq<Entry>)
    requires SpellsDigests(w) && CheckedInputs(w, repository, base, manifestJson)
    requires AllFit(entries) && |entries| <= MAX_SOURCE_ENTRIES && TotalBytes(entries) <= MAX_SOURCE_TOTAL_BYTES
    ensures ValidHeader(w.context, HeaderFor(w, repository, base, manifestJson, entries))
       <==> ValidUnicode(repository.slug) && ValidUnicode(base.branch)
  {
    var h := HeaderFor(w, repository, base, manifestJson, entries);
    ManifestMade(w, repository, base, manifestJson);
    assert h.manifest == ManifestFor(w, manifestJson);
    PartsMakeHeader(w.context, h);
  }

  function ManifestFor(w: World, manifestJson: Text): Manifest
    requires ValidUnicode(manifestJson)
  {
    Manifest(manifestJson, Utf8Length(manifestJson), w.context.sha256(EncodeUtf8(manifestJson)))
  }

  lemma ManifestMade(w: World, repository: Repository, base: Base, manifestJson: Text)
    requires SpellsDigests(w) && CheckedInputs(w, repository, base, manifestJson)
    ensures ValidManifest(w.context, ManifestFor(w, manifestJson))
    ensures ValidRepository(w.context, repository) <==> ValidUnicode(repository.slug)
    ensures ValidBase(w.context, base) <==> ValidUnicode(base.branch)
  {
  }

  lemma PartsMakeHeader(c: Context, h: Header)
    requires 0 <= h.entryCount <= MAX_SOURCE_ENTRIES && 0 <= h.totalFileBytes <= MAX_SOURCE_TOTAL_BYTES
    requires DigestText(h.entriesDigest) && ValidManifest(c, h.manifest)
    ensures ValidHeader(c, h) <==> ValidRepository(c, h.repository) && ValidBase(c, h.base)
  {
  }

  lemma HeaderComplete(w: World, h: Header)
    requires Genuine(w)
    requires ValidHeader(w.context, h) <==> ValidUnicode(h.repository.slug) && ValidUnicode(h.base.branch)
    ensures Serializable(HeaderJson(w.context.names, h)) ==> ValidHeader(w.context, h)
    ensures ValidHeader(w.context, h) ==> Serializable(HeaderJson(w.context.names, h))
  {
    if ValidUnicode(h.repository.slug) && ValidUnicode(h.base.branch) {
      HeaderSerializable(w.context, h);
    } else if Serializable(HeaderJson(w.context.names, h)) {
      SerializableTexts(w.context.names, h);
    }
  }

  lemma SerializableTexts(k: Names, h: Header)
    requires Distinct(k) && Serializable(HeaderJson(k, h))
    ensures ValidUnicode(h.repository.slug) && ValidUnicode(h.base.branch)
  {
    HeaderFields(k, h);
    MemberSerializable(HeaderJson(k, h), k.base);
    MemberSerializable(HeaderJson(k, h), k.repository);
    BaseFields(k, h.base);
    MemberSerializable(BaseJson(k, h.base), k.branch);
    MemberSerializable(RepositoryJson(k, h.repository), k.slug);
  }

  lemma MemberSerializable(j: Json, key: Text)
    requires Serializable(j) && j.Object? && key in j.members
    ensures Serializable(j.members[key])
  {
  }
}
