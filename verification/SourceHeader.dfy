/** The header of a source bundle, as a record and as the JSON object it is stored as. */
module SourceHeader {
  import opened Wrappers
  import opened Unicode
  import opened CanonicalJson
  import opened JsonParser
  import opened CanonicalCodec
  import opened CanonicalParser

  const MAX_SOURCE_ENTRIES := 50000
  const MAX_SOURCE_TOTAL_BYTES := 536870912
  const MAX_CANONICAL_MANIFEST_BYTES := 262144

  datatype Repository = Repository(slug: Text, id: int, ownerId: int)
  datatype Base = Base(branch: Text, sha: Text, treeSha: Text)
  datatype Manifest = Manifest(canonicalJson: Text, byteLength: int, digest: Text)
  datatype Header = Header(
    repository: Repository,
    base: Base,
    manifest: Manifest,
    entryCount: int,
    totalFileBytes: int,
    entriesDigest: Text)

  /** What the model leaves open: the slug and branch patterns, SHA-256 as it is
      spelled in a record, and the engine's rounding of number literals. */
  datatype Context = Context(
    names: Names,
    validSlug: Text -> bool,
    validBranch: Text -> bool,
    sha256: Bytes -> Text,
    inexact: Rounding)

  /** The member names of a header. Nothing below depends on how they are spelled,
      only that the names within one object differ. */
  datatype Names = Names(
    slug: Text, id: Text, ownerId: Text,
    branch: Text, sha: Text, treeSha: Text, objectFormat: Text,
    canonicalJson: Text, byteLength: Text, digest: Text,
    schemaVersion: Text, repository: Text, base: Text, manifest: Text,
    entryCount: Text, totalFileBytes: Text, entriesDigest: Text)

  ghost predicate Distinct(k: Names) {
    && k.slug != k.id && k.slug != k.ownerId && k.id != k.ownerId
    && k.branch != k.sha && k.branch != k.treeSha && k.branch != k.objectFormat
    && k.sha != k.treeSha && k.sha != k.objectFormat && k.treeSha != k.objectFormat
    && k.canonicalJson != k.byteLength && k.canonicalJson != k.digest && k.byteLength != k.digest
    && k.schemaVersion !in {k.repository, k.base, k.manifest, k.entryCount, k.totalFileBytes, k.entriesDigest}
    && k.repository !in {k.base, k.manifest, k.entryCount, k.totalFileBytes, k.entriesDigest}
    && k.base !in {k.manifest, k.entryCount, k.totalFileBytes, k.entriesDigest}
    && k.manifest !in {k.entryCount, k.totalFileBytes, k.entriesDigest}
    && k.entryCount !in {k.totalFileBytes, k.entriesDigest} && k.totalFileBytes != k.entriesDigest
  }

  /** Member names are well-formed text. */
  ghost predicate WellFormed(k: Names) {
    && ValidUnicode(k.slug) && ValidUnicode(k.id) && ValidUnicode(k.ownerId)
    && ValidUnicode(k.branch) && ValidUnicode(k.sha) && ValidUnicode(k.treeSha) && ValidUnicode(k.objectFormat)
    && ValidUnicode(k.canonicalJson) && ValidUnicode(k.byteLength) && ValidUnicode(k.digest)
    && ValidUnicode(k.schemaVersion) && ValidUnicode(k.repository) && ValidUnicode(k.base)
    && ValidUnicode(k.manifest) && ValidUnicode(k.entryCount) && ValidUnicode(k.totalFileBytes)
    && ValidUnicode(k.entriesDigest)
  }

  predicate HexText(t: Text, n: nat) {
    |t| == n && forall i :: 0 <= i < n ==> ZERO <= t[i] < ZERO + 10 || 0x61 <= t[i] <= 0x66
  }

  /** `gitObjectFormatFromOid` accepts the text. */
  predicate ObjectId(t: Text) { HexText(t, 40) || HexText(t, 64) }

  const SHA1: Text := [0x73, 0x68, 0x61, 0x31]
  const SHA256: Text := [0x73, 0x68, 0x61, 0x32, 0x35, 0x36]

  function FormatName(oid: Text): Text { if |oid| == 40 then SHA1 else SHA256 }

  /** The pattern `sha256:` and 64 hexadecimal digits. */
  predicate DigestText(t: Text) {
    |t| == 71 && t[..7] == SHA256 + [COLON] && HexText(t[7..], 64)
  }

  predicate Positive(n: int) { 0 < n <= MAX_SAFE_INTEGER }

  predicate ValidRepository(env: Context, r: Repository) {
    ValidUnicode(r.slug) && env.validSlug(r.slug) && Positive(r.id) && Positive(r.ownerId)
  }

  predicate ValidBase(env: Context, b: Base) {
    && ValidUnicode(b.branch) && env.validBranch(b.branch)
    && ObjectId(b.sha) && ObjectId(b.treeSha) && |b.sha| == |b.treeSha|
  }

  /** The canonical text of some JSON object. */
  predicate CanonicalObject(env: Context, t: Text) {
    var parsed := JsonParse(env.inexact, t);
    parsed.Some? && parsed.value.Object? && Serialize(parsed.value) == Some(t)
  }

  predicate ValidManifest(env: Context, m: Manifest) {
    && m.canonicalJson != [] && Utf8Length(m.canonicalJson) <= MAX_CANONICAL_MANIFEST_BYTES
    && CanonicalObject(env, m.canonicalJson)
    && ValidUnicode(m.canonicalJson)
    && m.byteLength == Utf8Length(m.canonicalJson)
    && m.digest == env.sha256(EncodeUtf8(m.canonicalJson))
    && DigestText(m.digest)
  }

  predicate ValidHeader(env: Context, h: Header) {
    && ValidRepository(env, h.repository) && ValidBase(env, h.base) && ValidManifest(env, h.manifest)
    && 0 <= h.entryCount <= MAX_SOURCE_ENTRIES
    && 0 <= h.totalFileBytes <= MAX_SOURCE_TOTAL_BYTES
    && DigestText(h.entriesDigest)
  }

  // As JSON

  function Int(n: int): Json { Number(Integer(n)) }

  function RepositoryJson(k: Names, r: Repository): Json {
    Object(map[k.slug := String(r.slug), k.id := Int(r.id), k.ownerId := Int(r.ownerId)])
  }

  function BaseJson(k: Names, b: Base): Json {
    Object(map[k.branch := String(b.branch), k.sha := String(b.sha),
               k.treeSha := String(b.treeSha), k.objectFormat := String(FormatName(b.sha))])
  }

  function ManifestJson(k: Names, m: Manifest): Json {
    Object(map[k.canonicalJson := String(m.canonicalJson), k.byteLength := Int(m.byteLength),
               k.digest := String(m.digest)])
  }

  function HeaderJson(k: Names, h: Header): Json {
    Object(map[
      k.schemaVersion := Int(1),
      k.repository := RepositoryJson(k, h.repository),
      k.base := BaseJson(k, h.base),
      k.manifest := ManifestJson(k, h.manifest),
      k.entryCount := Int(h.entryCount),
      k.totalFileBytes := Int(h.totalFileBytes),
      k.entriesDigest := String(h.entriesDigest)])
  }

  /** `exactKeys`: an object with these members and no others. */
  predicate ExactKeys(j: Json, keys: set<Text>) { j.Object? && j.members.Keys == keys }

  /** `positiveInteger`: negative zero counts as zero. */
  function ReadInt(j: Json, least: int): Option<int> {
    match j
    case Number(Integer(n)) => if least <= n <= MAX_SAFE_INTEGER then Some(n) else None
    case Number(NegativeZero) => if least <= 0 then Some(0) else None
    case _ => None
  }

  function ReadRepository(env: Context, j: Json): Option<Repository> {
    var k := env.names;
    if !ExactKeys(j, {k.slug, k.id, k.ownerId}) then None
    else
      var slug := j.members[k.slug];
      var id, ownerId := ReadInt(j.members[k.id], 1), ReadInt(j.members[k.ownerId], 1);
      if !slug.String? || !env.validSlug(slug.s) || id.None? || ownerId.None? then None
      else Some(Repository(slug.s, id.value, ownerId.value))
  }

  function ReadBase(env: Context, j: Json): Option<Base> {
    var k := env.names;
    if !ExactKeys(j, {k.branch, k.sha, k.treeSha, k.objectFormat}) then None
    else
      var branch, sha := j.members[k.branch], j.members[k.sha];
      var treeSha, format := j.members[k.treeSha], j.members[k.objectFormat];
      if !branch.String? || !sha.String? || !treeSha.String? then None
      else if !env.validBranch(branch.s) || !ObjectId(sha.s) || !ObjectId(treeSha.s) then None
      else if |sha.s| != |treeSha.s| || format != String(FormatName(sha.s)) then None
      else Some(Base(branch.s, sha.s, treeSha.s))
  }

  function ReadManifest(env: Context, j: Json): Option<Manifest> {
    var k := env.names;
    if !ExactKeys(j, {k.canonicalJson, k.byteLength, k.digest}) then None
    else
      var text, digest := j.members[k.canonicalJson], j.members[k.digest];
      var length := ReadInt(j.members[k.byteLength], 0);
      if !text.String? || !digest.String? || length.None? || !ValidUnicode(text.s) then None
      else
        var m := Manifest(text.s, length.value, digest.s);
        if ValidManifest(env, m) then Some(m) else None
  }

  /** `validateHeader`. */
  function ReadHeader(env: Context, j: Json): Option<Header> {
    var k := env.names;
    if !ExactKeys(j, HeaderKeys(k)) then None
    else
      AssembleHeader(k, j.members, ReadRepository(env, j.members[k.repository]),
                     ReadBase(env, j.members[k.base]), ReadManifest(env, j.members[k.manifest]))
  }

  function HeaderKeys(k: Names): set<Text> {
    {k.schemaVersion, k.repository, k.base, k.manifest, k.entryCount, k.totalFileBytes, k.entriesDigest}
  }

  function AssembleHeader(k: Names, m: map<Text, Json>, repository: Option<Repository>,
                          base: Option<Base>, manifest: Option<Manifest>): Option<Header>
    requires m.Keys == HeaderKeys(k)
  {
    var count, total := ReadInt(m[k.entryCount], 0), ReadInt(m[k.totalFileBytes], 0);
    var digest := m[k.entriesDigest];
    if m[k.schemaVersion] != Int(1) then None
    else if repository.None? || base.None? || manifest.None? || count.None? || total.None? then None
    else if count.value > MAX_SOURCE_ENTRIES || total.value > MAX_SOURCE_TOTAL_BYTES then None
    else if !digest.String? || !DigestText(digest.s) then None
    else Some(Header(repository.value, base.value, manifest.value, count.value, total.value, digest.s))
  }

  // The record and the object determine each other.

  lemma IntExact(j: Json, least: int, n: int)
    requires Serializable(j)
    ensures ReadInt(j, least) == Some(n) <==> least <= n <= MAX_SAFE_INTEGER && j == Int(n)
  {
  }

  lemma RepositoryExact(env: Context, j: Json, r: Repository)
    requires Serializable(j) && Distinct(env.names)
    ensures ReadRepository(env, j) == Some(r) <==> ValidRepository(env, r) && j == RepositoryJson(env.names, r)
  {
    var k := env.names;
    if ReadRepository(env, j) == Some(r) {
      IntExact(j.members[k.id], 1, r.id);
      IntExact(j.members[k.ownerId], 1, r.ownerId);
      assert Serializable(j.members[k.slug]);
      assert j.members == RepositoryJson(k, r).members;
    }
  }

  lemma BaseExact(env: Context, j: Json, b: Base)
    requires Serializable(j) && Distinct(env.names)
    ensures ReadBase(env, j) == Some(b) <==> ValidBase(env, b) && j == BaseJson(env.names, b)
  {
    if ReadBase(env, j) == Some(b) { BaseRead(env, j, b); }
    if ValidBase(env, b) { BaseFields(env.names, b); }
  }

  lemma BaseRead(env: Context, j: Json, b: Base)
    requires Serializable(j) && Distinct(env.names) && ReadBase(env, j) == Some(b)
    ensures ValidBase(env, b) && j == BaseJson(env.names, b)
  {
    BaseFields(env.names, b);
    assert Serializable(j.members[env.names.branch]);
    assert j.members == BaseJson(env.names, b).members;
  }

  lemma BaseFields(k: Names, b: Base)
    requires Distinct(k)
    ensures var m := BaseJson(k, b).members;
      && m.Keys == {k.branch, k.sha, k.treeSha, k.objectFormat}
      && m[k.branch] == String(b.branch) && m[k.sha] == String(b.sha)
      && m[k.treeSha] == String(b.treeSha) && m[k.objectFormat] == String(FormatName(b.sha))
  {
  }

  lemma ManifestExact(env: Context, j: Json, m: Manifest)
    requires Serializable(j) && Distinct(env.names)
    ensures ReadManifest(env, j) == Some(m) <==> ValidManifest(env, m) && j == ManifestJson(env.names, m)
  {
    ManifestFields(env.names, m);
    if ReadManifest(env, j) == Some(m) { ManifestRead(env, j, m); }
  }

  lemma ManifestRead(env: Context, j: Json, m: Manifest)
    requires Serializable(j) && Distinct(env.names) && ReadManifest(env, j) == Some(m)
    ensures ValidManifest(env, m) && j == ManifestJson(env.names, m)
  {
    ManifestFields(env.names, m);
    IntExact(j.members[env.names.byteLength], 0, m.byteLength);
    assert j.members == ManifestJson(env.names, m).members;
  }

  lemma ManifestFields(k: Names, m: Manifest)
    requires Distinct(k)
    ensures var members := ManifestJson(k, m).members;
      && members.Keys == {k.canonicalJson, k.byteLength, k.digest}
      && members[k.canonicalJson] == String(m.canonicalJson) && members[k.byteLength] == Int(m.byteLength)
      && members[k.digest] == String(m.digest)
  {
  }

  /** `validateHeader` reads an object as h exactly when h is valid and the object is its own. */
  lemma HeaderExact(env: Context, j: Json, h: Header)
    requires Serializable(j) && Distinct(env.names)
    ensures ReadHeader(env, j) == Some(h) <==> ValidHeader(env, h) && j == HeaderJson(env.names, h)
  {
    if ReadHeader(env, j) == Some(h) { HeaderRead(env, j, h); }
    if ValidHeader(env, h) && j == HeaderJson(env.names, h) { HeaderWritten(env, h); }
  }

  lemma HeaderRead(env: Context, j: Json, h: Header)
    requires Serializable(j) && Distinct(env.names) && ReadHeader(env, j) == Some(h)
    ensures ValidHeader(env, h) && j == HeaderJson(env.names, h)
  {
    var k, m := env.names, j.members;
    var r, b, f := ReadRepository(env, m[k.repository]), ReadBase(env, m[k.base]), ReadManifest(env, m[k.manifest]);
    AssembleExact(k, m, r, b, f, h);
    RepositoryExact(env, m[k.repository], h.repository);
    BaseExact(env, m[k.base], h.base);
    ManifestExact(env, m[k.manifest], h.manifest);
    FieldsAreHeader(k, m, h);
  }

  lemma HeaderWritten(env: Context, h: Header)
    requires Serializable(HeaderJson(env.names, h)) && Distinct(env.names) && ValidHeader(env, h)
    ensures ReadHeader(env, HeaderJson(env.names, h)) == Some(h)
  {
    var k := env.names;
    var m := HeaderJson(k, h).members;
    HeaderFields(k, h);
    RepositoryExact(env, m[k.repository], h.repository);
    BaseExact(env, m[k.base], h.base);
    ManifestExact(env, m[k.manifest], h.manifest);
    AssembleExact(k, m, Some(h.repository), Some(h.base), Some(h.manifest), h);
  }

  lemma AssembleExact(k: Names, m: map<Text, Json>, repository: Option<Repository>,
                      base: Option<Base>, manifest: Option<Manifest>, h: Header)
    requires m.Keys == HeaderKeys(k) && Serializable(Object(m))
    ensures AssembleHeader(k, m, repository, base, manifest) == Some(h)
       <==> && repository == Some(h.repository) && base == Some(h.base) && manifest == Some(h.manifest)
            && m[k.schemaVersion] == Int(1)
            && m[k.entryCount] == Int(h.entryCount) && 0 <= h.entryCount <= MAX_SOURCE_ENTRIES
            && m[k.totalFileBytes] == Int(h.totalFileBytes) && 0 <= h.totalFileBytes <= MAX_SOURCE_TOTAL_BYTES
            && m[k.entriesDigest] == String(h.entriesDigest) && DigestText(h.entriesDigest)
  {
    IntExact(m[k.entryCount], 0, h.entryCount);
    IntExact(m[k.totalFileBytes], 0, h.totalFileBytes);
  }

  lemma FieldsAreHeader(k: Names, m: map<Text, Json>, h: Header)
    requires Distinct(k) && m.Keys == HeaderKeys(k)
    requires m[k.schemaVersion] == Int(1) && m[k.repository] == RepositoryJson(k, h.repository)
    requires m[k.base] == BaseJson(k, h.base) && m[k.manifest] == ManifestJson(k, h.manifest)
    requires m[k.entryCount] == Int(h.entryCount) && m[k.totalFileBytes] == Int(h.totalFileBytes)
    requires m[k.entriesDigest] == String(h.entriesDigest)
    ensures m == HeaderJson(k, h).members
  {
    HeaderFields(k, h);
  }

  lemma HeaderFields(k: Names, h: Header)
    requires Distinct(k)
    ensures var m := HeaderJson(k, h).members;
      && m.Keys == HeaderKeys(k)
      && m[k.schemaVersion] == Int(1) && m[k.repository] == RepositoryJson(k, h.repository)
      && m[k.base] == BaseJson(k, h.base) && m[k.manifest] == ManifestJson(k, h.manifest)
      && m[k.entryCount] == Int(h.entryCount) && m[k.totalFileBytes] == Int(h.totalFileBytes)
      && m[k.entriesDigest] == String(h.entriesDigest)
  {
  }

  /** A valid header serializes. */
  lemma HeaderSerializable(env: Context, h: Header)
    requires Distinct(env.names) && WellFormed(env.names) && ValidHeader(env, h)
    ensures Serializable(HeaderJson(env.names, h))
  {
    var k, m := env.names, HeaderJson(env.names, h).members;
    HeaderFields(k, h);
    DigestIsValid(h.entriesDigest);
    PartsSerializable(env, h.repository, h.base, h.manifest);
    SevenMembers(k, m);
  }

  lemma SevenMembers(k: Names, m: map<Text, Json>)
    requires m.Keys == HeaderKeys(k) && WellFormed(k)
    requires Serializable(m[k.schemaVersion]) && Serializable(m[k.repository]) && Serializable(m[k.base])
    requires Serializable(m[k.manifest]) && Serializable(m[k.entryCount]) && Serializable(m[k.totalFileBytes])
    requires Serializable(m[k.entriesDigest])
    ensures Serializable(Object(m))
  {
  }

  lemma PartsSerializable(env: Context, r: Repository, b: Base, m: Manifest)
    requires Distinct(env.names) && WellFormed(env.names)
    requires ValidRepository(env, r) && ValidBase(env, b) && ValidManifest(env, m)
    ensures Serializable(RepositoryJson(env.names, r))
    ensures Serializable(BaseJson(env.names, b))
    ensures Serializable(ManifestJson(env.names, m))
  {
    var k := env.names;
    DigestIsValid(m.digest);
    IdsAreValid(b);
    RepositorySerializable(k, r);
    BaseSerializable(k, b);
    ManifestSerializable(k, m);
  }

  lemma IdsAreValid(b: Base)
    requires ObjectId(b.sha) && ObjectId(b.treeSha)
    ensures ValidUnicode(b.sha) && ValidUnicode(b.treeSha) && ValidUnicode(FormatName(b.sha))
  {
    AsciiIsValid(b.sha);
    AsciiIsValid(b.treeSha);
    AsciiIsValid(FormatName(b.sha));
  }

  lemma RepositorySerializable(k: Names, r: Repository)
    requires WellFormed(k) && ValidUnicode(r.slug) && Positive(r.id) && Positive(r.ownerId)
    ensures Serializable(RepositoryJson(k, r))
  {
    ThreeMembers(k.slug, String(r.slug), k.id, Int(r.id), k.ownerId, Int(r.ownerId));
  }

  lemma BaseSerializable(k: Names, b: Base)
    requires WellFormed(k) && ValidUnicode(b.branch) && ValidUnicode(b.sha)
    requires ValidUnicode(b.treeSha) && ValidUnicode(FormatName(b.sha))
    ensures Serializable(BaseJson(k, b))
  {
    ThreeMembers(k.branch, String(b.branch), k.sha, String(b.sha), k.treeSha, String(b.treeSha));
    var three := map[k.branch := String(b.branch), k.sha := String(b.sha), k.treeSha := String(b.treeSha)];
    AnotherMember(three, k.objectFormat, String(FormatName(b.sha)));
  }

  lemma ManifestSerializable(k: Names, m: Manifest)
    requires WellFormed(k) && ValidUnicode(m.canonicalJson) && ValidUnicode(m.digest)
    requires 0 <= m.byteLength <= MAX_SAFE_INTEGER
    ensures Serializable(ManifestJson(k, m))
  {
    ThreeMembers(k.canonicalJson, String(m.canonicalJson), k.byteLength, Int(m.byteLength), k.digest, String(m.digest));
  }

  lemma ThreeMembers(a: Text, x: Json, b: Text, y: Json, c: Text, z: Json)
    requires ValidUnicode(a) && ValidUnicode(b) && ValidUnicode(c)
    requires Serializable(x) && Serializable(y) && Serializable(z)
    ensures Serializable(Object(map[a := x, b := y, c := z]))
  {
  }

  lemma AnotherMember(m: map<Text, Json>, a: Text, x: Json)
    requires Serializable(Object(m)) && ValidUnicode(a) && Serializable(x)
    ensures Serializable(Object(m[a := x]))
  {
  }

  lemma DigestIsValid(t: Text)
    requires DigestText(t)
    ensures ValidUnicode(t)
  {
    assert t == t[..7] + t[7..];
    AsciiIsValid(t[..7]);
    AsciiIsValid(t[7..]);
    ValidUnicodeConcat(t[..7], t[7..]);
  }
}
