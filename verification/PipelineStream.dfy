/** The stream that `repositoryTreeDigest` hashes (pipeline.ts), in whatever order it is taken. */
module PipelineStream {
  import opened Wrappers
  import opened Unicode
  import opened CanonicalJson
  import opened RepositoryTree
  import opened Transaction
  import TreeFrames

  const DIRECTORY_TEXT: Text := [0x64, 0x69, 0x72, 0x65, 0x63, 0x74, 0x6f, 0x72, 0x79]
  const FILE_TEXT: Text := [0x66, 0x69, 0x6c, 0x65]
  const SYMLINK_TEXT: Text := [0x73, 0x79, 0x6d, 0x6c, 0x69, 0x6e, 0x6b]

  /** How the program writes a digest: as well-formed text that keeps digests apart. */
  type Hex = Bytes -> Text

  ghost predicate FaithfulHex(hex: Hex) {
    (forall b :: ValidUnicode(hex(b))) && forall a, b :: hex(a) == hex(b) ==> a == b
  }

  function KindText(kind: Kind): Text {
    match kind
    case DirectoryKind => DIRECTORY_TEXT
    case FileKind => FILE_TEXT
    case SymlinkKind => SYMLINK_TEXT
  }

  /** `JSON.stringify([entry.type, path, entry.mode, entry.digest])`, the path being the key. */
  function RecordJson(hex: Hex, key: Bytes, r: Record): Json
    requires DecodeUtf8(key).Some?
  {
    Array([String(KindText(r.kind)), String(DecodeUtf8(key).value), Number(Integer(r.mode)), String(hex(r.digest))])
  }

  lemma RecordSerializable(hex: Hex, key: Bytes, r: Record)
    requires FaithfulHex(hex) && DecodeUtf8(key).Some?
    ensures Serializable(RecordJson(hex, key, r))
  {
    AsciiIsValid(KindText(r.kind));
    EncodeOfDecode(key);
    FourSerializable(String(KindText(r.kind)), String(DecodeUtf8(key).value), Number(Integer(r.mode)), String(hex(r.digest)));
  }

  lemma FourSerializable(a: Json, b: Json, c: Json, d: Json)
    requires Serializable(a) && Serializable(b) && Serializable(c) && Serializable(d)
    ensures Serializable(Array([a, b, c, d]))
  {
  }

  lemma RecordInjective(hex: Hex, key: Bytes, r: Record, key': Bytes, r': Record)
    requires FaithfulHex(hex) && DecodeUtf8(key).Some? && DecodeUtf8(key').Some?
    requires RecordJson(hex, key, r) == RecordJson(hex, key', r')
    ensures key == key' && r == r'
  {
    EncodeOfDecode(key);
    EncodeOfDecode(key');
    var x, y := RecordJson(hex, key, r).items, RecordJson(hex, key', r').items;
    assert x[0] == y[0] && x[1] == y[1] && x[2] == y[2] && x[3] == y[3];
    assert KindText(r.kind) == KindText(r'.kind);
    assert |DIRECTORY_TEXT| == 9 && |FILE_TEXT| == 4 && |SYMLINK_TEXT| == 7;
  }

  /** One record, as the text that is framed and hashed: its kind, key, mode and digest. */
  lemma RecordSpelled(hex: Hex, key: Bytes, r: Record)
    requires DecodeUtf8(key).Some?
    ensures RecordJson(hex, key, r) == Array([
      String(match r.kind case DirectoryKind => Ascii("directory") case FileKind => Ascii("file") case SymlinkKind => Ascii("symlink")),
      String(DecodeUtf8(key).value), Number(Integer(r.mode)), String(hex(r.digest))])
  {
    assert DIRECTORY_TEXT == Ascii("directory") && FILE_TEXT == Ascii("file") && SYMLINK_TEXT == Ascii("symlink");
  }

  /** `tree.entries()` after the overlays, sorted by a collation that may leave ties and may
      change between runs: any list of exactly the view's pairs. */
  ghost predicate Enumerates(list: seq<(Bytes, Record)>, v: View) {
    forall key, r :: (key, r) in list <==> key in v && v[key] == r
  }

  predicate ReadableList(list: seq<(Bytes, Record)>) {
    forall i :: 0 <= i < |list| ==> DecodeUtf8(list[i].0).Some?
  }

  function Records(hex: Hex, list: seq<(Bytes, Record)>): (r: seq<Json>)
    requires ReadableList(list)
  {
    seq(|list|, i requires 0 <= i < |list| => RecordJson(hex, list[i].0, list[i].1))
  }

  ghost predicate Streams(hex: Hex, list: seq<(Bytes, Record)>, bytes: Bytes) {
    ReadableList(list) && TreeFrames.AllSerializable(Records(hex, list)) && bytes == TreeFrames.Stream([], Records(hex, list))
  }

  /** The streams of a world are framings of its views, in any order. */
  ghost predicate Framed(w: World, hex: Hex) {
    forall n, v :: ReadableView(v) ==> exists list :: Enumerates(list, v) && Streams(hex, list, w.stream(n, v))
  }

  lemma {:induction false} Enumerate(v: View) returns (list: seq<(Bytes, Record)>)
    ensures Enumerates(list, v)
    decreases |v|
  {
    list := [];
    if v.Keys != {} {
      var key :| key in v;
      var rest := v - {key};
      assert v == rest[key := v[key]] && |rest.Keys| < |v.Keys| by { assert rest.Keys == v.Keys - {key}; }
      list := Enumerate(rest);
      list := list + [(key, v[key])];
    }
  }

  /** Every readable view has such a stream. */
  lemma ViewStreams(hex: Hex, v: View) returns (list: seq<(Bytes, Record)>, bytes: Bytes)
    requires FaithfulHex(hex) && ReadableView(v)
    ensures Enumerates(list, v) && Streams(hex, list, bytes)
  {
    list := Enumerate(v);
    forall i | 0 <= i < |list| ensures DecodeUtf8(list[i].0).Some? && Serializable(RecordJson(hex, list[i].0, list[i].1)) {
      assert (list[i].0, list[i].1) in list;
      RecordSerializable(hex, list[i].0, list[i].1);
    }
    bytes := TreeFrames.Stream([], Records(hex, list));
  }

  lemma SameList(hex: Hex, a: seq<(Bytes, Record)>, b: seq<(Bytes, Record)>, u: View, v: View, bytes: Bytes)
    requires FaithfulHex(hex)
    requires Enumerates(a, u) && Enumerates(b, v) && Streams(hex, a, bytes) && Streams(hex, b, bytes)
    ensures u == v
  {
    TreeFrames.StreamInjective([], Records(hex, a), Records(hex, b));
    assert |a| == |Records(hex, a)| == |b|;
    forall i | 0 <= i < |a| ensures a[i] == b[i] {
      assert Records(hex, a)[i] == Records(hex, b)[i];
      RecordInjective(hex, a[i].0, a[i].1, b[i].0, b[i].1);
    }
    assert a == b;
    forall key ensures key in u <==> key in v {
      if key in u { assert (key, u[key]) in a; }
      if key in v { assert (key, v[key]) in b; }
    }
    forall key | key in u ensures u[key] == v[key] { assert (key, u[key]) in a; }
  }

  /** Framed streams identify the view they were taken of, in any enumeration order. */
  lemma FramedIsFaithful(w: World, hex: Hex)
    requires FaithfulHex(hex) && Framed(w, hex)
    ensures FaithfulStream(w)
  {
    forall n, m, u, v | ReadableView(u) && ReadableView(v) && w.stream(n, u) == w.stream(m, v) ensures u == v {
      var a :| Enumerates(a, u) && Streams(hex, a, w.stream(n, u));
      var b :| Enumerates(b, v) && Streams(hex, b, w.stream(m, v));
      SameList(hex, a, b, u, v, w.stream(n, u));
    }
  }
}
