/** What a regular-tree digest binds (filesystem.ts). */
module TreeDigest {
  import opened Wrappers
  import opened Unicode
  import opened GitPath
  import opened Spelling
  import opened CanonicalJson
  import opened TreeListing
  import opened TreeCollect
  import opened TreeWalk
  import TreeFrames

  const MODE_REGULAR := 0x81a4
  const MODE_EXECUTABLE := 0x81ed

  /** `api-migrator:regular-tree:v1` and a zero byte. */
  const HEADER: Bytes := [
    0x61, 0x70, 0x69, 0x2d, 0x6d, 0x69, 0x67, 0x72, 0x61, 0x74, 0x6f, 0x72, 0x3a, 0x72, 0x65, 0x67,
    0x75, 0x6c, 0x61, 0x72, 0x2d, 0x74, 0x72, 0x65, 0x65, 0x3a, 0x76, 0x31, 0x00]

  /** Hexadecimal digests are well-formed text. */
  ghost predicate TextDigest(digest: Digest) { forall b :: ValidUnicode(digest(b)) }

  /** A pair that one hash record can carry. */
  predicate Recordable(e: (Bytes, Entry)) {
    DecodeUtf8(e.0).Some? && ValidUnicode(e.1.digest) && e.1.size <= MAX_SAFE_INTEGER
  }

  function RecordJson(e: (Bytes, Entry)): (r: Json)
    requires Recordable(e)
  {
    Array([String(DecodeUtf8(e.0).value),
           Number(Integer(if e.1.executable then MODE_EXECUTABLE else MODE_REGULAR)),
           Number(Integer(e.1.size)),
           String(e.1.digest)])
  }

  /** The stream opens with its mark and a zero byte. */
  lemma HeaderSpelled()
    ensures HEADER == Ascii("api-migrator:regular-tree:v1") + [0]
  {
    var mark := Ascii("api-migrator:regular-tree:v1");
    assert |mark| == 28 && HEADER[..28] == mark && HEADER[28..] == [0];
  }

  /** A record is the array of path, Git file mode, size and digest: 33188 is 0o100644, and 33261 is
      0o100755. */
  lemma RecordSpelled(e: (Bytes, Entry))
    requires Recordable(e)
    ensures RecordJson(e) == Array([
      String(DecodeUtf8(e.0).value), Number(Integer(if e.1.executable then 33261 else 33188)),
      Number(Integer(e.1.size)), String(e.1.digest)])
  {
  }

  lemma RecordSerializable(e: (Bytes, Entry))
    requires Recordable(e)
    ensures Serializable(RecordJson(e))
  {
    EncodeOfDecode(e.0);
  }

  lemma RecordInjective(a: (Bytes, Entry), b: (Bytes, Entry))
    requires Recordable(a) && Recordable(b) && RecordJson(a) == RecordJson(b)
    ensures a == b
  {
    EncodeOfDecode(a.0);
    EncodeOfDecode(b.0);
    var x, y := RecordJson(a).items, RecordJson(b).items;
    assert x[0] == y[0] && x[1] == y[1] && x[2] == y[2] && x[3] == y[3];
  }

  predicate AllRecordable(entries: Entries) {
    forall i :: 0 <= i < |entries| ==> Recordable(entries[i])
  }

  function Records(entries: Entries): (r: seq<Json>)
    requires AllRecordable(entries)
    ensures |r| == |entries| && TreeFrames.AllSerializable(r)
    ensures forall i :: 0 <= i < |r| ==> r[i] == RecordJson(entries[i])
  {
    var r := seq(|entries|, i requires 0 <= i < |entries| => RecordJson(entries[i]));
    assert TreeFrames.AllSerializable(r) by {
      forall i | 0 <= i < |r| ensures Serializable(r[i]) { RecordSerializable(entries[i]); }
    }
    r
  }

  /** The bytes that the digest of these entries hashes. */
  function Hashed(entries: Entries): Bytes
    requires AllRecordable(entries)
  {
    TreeFrames.Stream(HEADER, Records(entries))
  }

  /** Equal streams carry equal entry lists, whatever the names. */
  lemma HashedInjective(a: Entries, b: Entries)
    requires AllRecordable(a) && AllRecordable(b) && Hashed(a) == Hashed(b)
    ensures a == b
  {
    TreeFrames.StreamInjective(HEADER, Records(a), Records(b));
    assert |Records(a)| == |Records(b)|;
    forall i | 0 <= i < |a| ensures a[i] == b[i] {
      assert Records(a)[i] == Records(b)[i];
      RecordInjective(a[i], b[i]);
    }
  }

  /** The entries that are not excluded. */
  function Kept(entries: Entries, excluded: set<Bytes>): (r: Entries)
    ensures forall e :: e in r <==> e in entries && e.0 !in excluded
  {
    if entries == [] then []
    else (if entries[0].0 in excluded then [] else [entries[0]]) + Kept(entries[1..], excluded)
  }

  // What a successful collection holds

  lemma {:induction false} PutHas(entries: Entries, key: Bytes, entry: Entry, e: (Bytes, Entry))
    ensures e in Put(entries, key, entry) ==> e in entries || e == (key, entry)
  {
    if entries != [] && entries[0].0 != key {
      PutHas(entries[1..], key, entry, e);
    }
  }

  lemma {:induction false} FoldRecordable(digest: Digest, s: Option<Collected>, visits: seq<Visit>)
    requires TextDigest(digest)
    requires s.Some? ==> AllRecordable(s.value.entries)
    ensures Fold(digest, s, visits).Some? ==> AllRecordable(Fold(digest, s, visits).value.entries)
    decreases |visits|
  {
    if visits != [] {
      var next := Step(digest, s, visits[0]);
      if next.Some? {
        forall i | 0 <= i < |next.value.entries| ensures Recordable(next.value.entries[i]) {
          var e := next.value.entries[i];
          StepHas(digest, s, visits[0], e);
        }
      }
      FoldRecordable(digest, next, visits[1..]);
    }
  }

  lemma StepHas(digest: Digest, s: Option<Collected>, v: Visit, e: (Bytes, Entry))
    requires TextDigest(digest) && Step(digest, s, v).Some? && e in Step(digest, s, v).value.entries
    ensures e in s.value.entries || Recordable(e)
  {
    if v.node.File? {
      var path := Spelled(v.path);
      PutHas(s.value.entries, path, EntryOf(digest, v.node), e);
    }
  }

  lemma CollectRecordable(digest: Digest, visits: seq<Visit>, excluded: set<Bytes>)
    requires TextDigest(digest) && Fold(digest, START, visits).Some?
    ensures AllRecordable(Fold(digest, START, visits).value.entries)
    ensures AllRecordable(Kept(Fold(digest, START, visits).value.entries, excluded))
  {
    FoldRecordable(digest, START, visits);
    KeptRecordable(Fold(digest, START, visits).value.entries, excluded);
  }

  // The loop

  predicate NoDuplicates(paths: seq<Bytes>) { forall i, j :: 0 <= i < j < |paths| ==> paths[i] != paths[j] }

  lemma {:induction false} KeptConcat(a: Entries, b: Entries, excluded: set<Bytes>)
    ensures Kept(a + b, excluded) == Kept(a, excluded) + Kept(b, excluded)
  {
    if a == [] {
      assert a + b == b;
    } else {
      assert (a + b)[1..] == a[1..] + b;
      KeptConcat(a[1..], b, excluded);
    }
  }

  lemma {:induction false} FramesConcat(a: seq<Bytes>, b: seq<Bytes>)
    ensures TreeFrames.Frames(a + b) == TreeFrames.Frames(a) + TreeFrames.Frames(b)
  {
    if a == [] {
      assert a + b == b;
    } else {
      assert (a + b)[1..] == a[1..] + b;
      FramesConcat(a[1..], b);
    }
  }

  lemma HashedStep(entries: Entries, e: (Bytes, Entry))
    requires AllRecordable(entries) && Recordable(e)
    ensures Serializable(RecordJson(e)) && AllRecordable(entries + [e])
    ensures Hashed(entries + [e]) == Hashed(entries) + TreeFrames.Frame(TreeFrames.Payload(RecordJson(e)))
  {
    RecordSerializable(e);
    var all := entries + [e];
    var payload := TreeFrames.Payload(RecordJson(e));
    assert TreeFrames.Payloads(Records(all)) == TreeFrames.Payloads(Records(entries)) + [payload];
    FramesConcat(TreeFrames.Payloads(Records(entries)), [payload]);
    assert TreeFrames.Frames([payload]) == TreeFrames.Frame(payload) + TreeFrames.Frames([]);
  }

  /** `regularTreeDigestExcluding`: None is a thrown error. */
  method RegularTreeDigestExcluding(digest: Digest, sha256: Bytes -> Text, root: Folder, excludedPaths: seq<Bytes>)
    returns (r: Option<Text>)
    requires TextDigest(digest)
    ensures r.Some? <==>
      NoDuplicates(excludedPaths) && (forall i :: 0 <= i < |excludedPaths| ==> SafeExclusion(excludedPaths[i]))
      && RawCollect(digest, root).Some?
    ensures r.Some? ==> AllRecordable(Kept(RawCollect(digest, root).value.entries, set p | p in excludedPaths))
    ensures r.Some? ==> r.value == sha256(Hashed(Kept(RawCollect(digest, root).value.entries, set p | p in excludedPaths)))
  {
    r := None;
    var excluded := set p | p in excludedPaths;
    if NoDuplicates(excludedPaths) && forall i :: 0 <= i < |excludedPaths| ==> SafeExclusion(excludedPaths[i]) {
      var collected := CollectRegularTree(digest, root);
      if collected.Some? {
        var entries := collected.value.entries;
        CollectRecordable(digest, RawListing([], root), excluded);
        var hashed := HashEntries(entries, excluded);
        r := Some(sha256(hashed));
      }
    }
  }

  /** `assertSafeRelativePath` for a path that is given, not walked. */
  predicate SafeExclusion(path: Bytes) { BACKSLASH_BYTE !in path && SafeRelative(path) }

  predicate SafePart(part: Bytes) {
    part != Ascii("") && part != Ascii(".") && part != Ascii("..") && 0 !in part && 0x5c !in part
  }

  lemma SafePartIs(part: Bytes)
    ensures SafePart(part) <==> part !in {[], [DOT], [DOT, DOT]} && 0 !in part && 0x5c !in part
  {
    assert Ascii("") == [] && Ascii(".") == [DOT] && Ascii("..") == [DOT, DOT];
  }

  /** An exclusion is refused exactly for an empty, `.` or `..` component, a NUL or a backslash. */
  lemma ExclusionExactly(parts: seq<Bytes>)
    requires parts != [] && forall i :: 0 <= i < |parts| ==> 0x2f !in parts[i]
    ensures SafeExclusion(Join(parts)) <==> forall i :: 0 <= i < |parts| ==> SafePart(parts[i])
  {
    SplitOfJoin(parts);
    JoinHas(parts, 0x5c);
    forall i | 0 <= i < |parts|
      ensures SafePart(parts[i]) <==> parts[i] !in {[], [DOT], [DOT, DOT]} && 0 !in parts[i] && 0x5c !in parts[i] {
      SafePartIs(parts[i]);
    }
    assert SafeRelative(Join(parts)) <==> forall i :: 0 <= i < |parts| ==> parts[i] !in {[], [DOT], [DOT, DOT]} && 0 !in parts[i];
  }

  lemma KeptStep(entries: Entries, excluded: set<Bytes>, i: nat)
    requires i < |entries|
    ensures Kept(entries[..i + 1], excluded) ==
      if entries[i].0 in excluded then Kept(entries[..i], excluded) else Kept(entries[..i], excluded) + [entries[i]]
  {
    assert entries[..i + 1] == entries[..i] + [entries[i]];
    KeptConcat(entries[..i], [entries[i]], excluded);
  }

  /** The hash updates so far, once the first i entries have been looked at. */
  function HashedBefore(entries: Entries, excluded: set<Bytes>, i: nat): Bytes
    requires AllRecordable(entries) && i <= |entries|
  {
    KeptRecordable(entries[..i], excluded);
    Hashed(Kept(entries[..i], excluded))
  }

  lemma KeptRecordable(entries: Entries, excluded: set<Bytes>)
    requires AllRecordable(entries)
    ensures AllRecordable(Kept(entries, excluded))
  {
    assert forall e :: e in Kept(entries, excluded) ==> e in entries;
  }

  lemma HashedBeforeStep(entries: Entries, excluded: set<Bytes>, i: nat)
    requires AllRecordable(entries) && i < |entries|
    ensures Serializable(RecordJson(entries[i]))
    ensures HashedBefore(entries, excluded, i + 1) == HashedBefore(entries, excluded, i)
      + if entries[i].0 in excluded then [] else TreeFrames.Frame(TreeFrames.Payload(RecordJson(entries[i])))
  {
    KeptStep(entries, excluded, i);
    KeptRecordable(entries[..i], excluded);
    HashedStep(Kept(entries[..i], excluded), entries[i]);
  }

  method HashEntries(entries: Entries, excluded: set<Bytes>) returns (hashed: Bytes)
    requires AllRecordable(entries)
    ensures AllRecordable(Kept(entries, excluded)) && hashed == Hashed(Kept(entries, excluded))
  {
    KeptRecordable(entries, excluded);
    hashed := HEADER;
    assert Hashed([]) == HEADER;
    var i := 0;
    while i < |entries|
      invariant 0 <= i <= |entries|
      invariant hashed == HashedBefore(entries, excluded, i)
    {
      HashedBeforeStep(entries, excluded, i);
      if entries[i].0 !in excluded {
        hashed := hashed + TreeFrames.Frame(TreeFrames.Payload(RecordJson(entries[i])));
      }
      i := i + 1;
    }
    Whole(entries);
  }
}
