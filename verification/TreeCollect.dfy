/** What `collectRegularTree` makes of its visits (filesystem.ts). */
module TreeCollect {
  import opened Wrappers
  import opened Unicode
  import opened GitPath
  import opened Spelling
  import opened TreeListing

  const MAX_SOURCE_ENTRIES := 50000
  const MAX_SOURCE_BYTES := 536870912
  const MAX_SOURCE_FILE_BYTES := 268435456
  const MAX_DEPTH := 64

  /** SHA-256 as the text `sha256:` and 64 hexadecimal digits. */
  type Digest = Bytes -> Text

  datatype Entry = Entry(executable: bool, size: nat, digest: Text)

  /** A JavaScript Map: pairs in insertion order, with distinct keys. */
  type Entries = seq<(Bytes, Entry)>

  datatype Collected = Collected(entries: Entries, total: nat)

  predicate SafeRelative(path: Bytes) {
    forall i :: 0 <= i < |Split(path)| ==>
      Split(path)[i] !in {[], [DOT], [DOT, DOT]} && 0 !in Split(path)[i]
  }

  /** The checks of a walked key. That it is UTF-8 always holds of names as they are read. */
  predicate Accepts(key: Bytes) { SafeRelative(key) && |Split(key)| <= MAX_DEPTH && DecodeUtf8(key).Some? }

  /** `entries.set`: a key keeps its first position. */
  function Put(entries: Entries, key: Bytes, entry: Entry): Entries {
    if entries == [] then [(key, entry)]
    else if entries[0].0 == key then [(key, entry)] + entries[1..]
    else [entries[0]] + Put(entries[1..], key, entry)
  }

  function EntryOf(digest: Digest, file: Node): Entry
    requires file.File?
  {
    Entry(file.executable, |file.contents|, digest(file.contents))
  }

  /** One turn of the inner loop; None is a thrown error. */
  function Step(digest: Digest, s: Option<Collected>, v: Visit): Option<Collected> {
    if s.None? then None
    else
      var path := Spelled(v.path);
      if !Accepts(path) then None
      else
        match v.node
        case Dir(_) => s
        case Special => None
        case File(_, contents) =>
          var total := s.value.total + |contents|;
          if |contents| > MAX_SOURCE_FILE_BYTES then None
          else if |s.value.entries| + 1 > MAX_SOURCE_ENTRIES || total > MAX_SOURCE_BYTES then None
          else Some(Collected(Put(s.value.entries, path, EntryOf(digest, v.node)), total))
  }

  function Fold(digest: Digest, s: Option<Collected>, visits: seq<Visit>): Option<Collected>
    decreases |visits|
  {
    if visits == [] then s else Fold(digest, Step(digest, s, visits[0]), visits[1..])
  }

  lemma {:induction false} FoldConcat(digest: Digest, s: Option<Collected>, a: seq<Visit>, b: seq<Visit>)
    ensures Fold(digest, s, a + b) == Fold(digest, Fold(digest, s, a), b)
    decreases |a|
  {
    if a == [] {
      assert a + b == b;
    } else {
      assert (a + b)[1..] == a[1..] + b;
      FoldConcat(digest, Step(digest, s, a[0]), a[1..], b);
    }
  }

  lemma FoldOne(digest: Digest, s: Option<Collected>, a: seq<Visit>, v: Visit)
    ensures Fold(digest, s, a + [v]) == Step(digest, Fold(digest, s, a), v)
  {
    FoldConcat(digest, s, a, [v]);
    assert [v][1..] == [];
  }

  lemma {:induction false} FoldNone(digest: Digest, visits: seq<Visit>)
    ensures Fold(digest, None, visits) == None
    decreases |visits|
  {
    if visits != [] { FoldNone(digest, visits[1..]); }
  }

  const START := Some(Collected([], 0))

  function Collect(digest: Digest, root: Node): Option<Collected>
    requires root.Dir?
  {
    Fold(digest, START, Listing([], root))
  }
}
