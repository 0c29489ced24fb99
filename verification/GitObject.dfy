/** Git object framing and tree ids: what an id binds, and the order of its walk. */
module GitObject {
  import opened Wrappers
  import opened Unicode
  import opened GitPath
  import opened GitTree
  import CanonicalJson
  import CanonicalCodec
  import Order

  /** SHA-1 or SHA-256: nothing is assumed but the length of the digest. */
  type Hash = Bytes -> Bytes

  ghost predicate FixedLength(hash: Hash, n: nat) { forall b :: |hash(b)| == n }

  const BLOB: Bytes := [0x62, 0x6c, 0x6f, 0x62, 0x20]
  const TREE: Bytes := [0x74, 0x72, 0x65, 0x65, 0x20]
  const MODE_DIRECTORY: Bytes := [0x34, 0x30, 0x30, 0x30, 0x30, 0x20]
  const MODE_REGULAR: Bytes := [0x31, 0x30, 0x30, 0x36, 0x34, 0x34, 0x20]
  const MODE_EXECUTABLE: Bytes := [0x31, 0x30, 0x30, 0x37, 0x35, 0x35, 0x20]

  function DecimalBytes(n: nat): (b: Bytes)
    ensures forall i :: 0 <= i < |b| ==> 0x30 <= b[i] < 0x3a
  {
    CanonicalJson.Decimal(n)
  }

  /** The bytes hashed for an object: kind, decimal length, NUL, body. */
  function Frame(kind: Bytes, body: Bytes): Bytes {
    kind + DecimalBytes(|body|) + [0] + body
  }

  /** The sort key of an item: directories compare as if suffixed by a slash. */
  function ItemKeys(dir: Directory): set<Bytes> {
    dir.files.Keys + set n | n in dir.directories :: n + [SLASH]
  }

  /** `items.sort(compareTreeItems)`. */
  function Items(dir: Directory): (r: seq<Bytes>)
    ensures Order.Increasing(r) && (forall k :: k in r <==> k in ItemKeys(dir))
  {
    var sorted := Order.Sorted(ItemKeys(dir));
    assert forall i :: 0 <= i < |sorted| ==> sorted[i] in ItemKeys(dir);
    sorted
  }

  /** Names are not empty and hold neither NUL nor slash, in every directory. */
  predicate NamesOk(dir: Directory)
    decreases dir
  {
    && (forall n :: n in dir.files ==> n != [] && 0 !in n && SLASH !in n)
    && (forall n :: n in dir.directories ==> n != [] && 0 !in n && SLASH !in n && NamesOk(dir.directories[n]))
  }

  predicate IsDirectoryKey(k: Bytes) { k != [] && k[|k| - 1] == SLASH }

  function KeyName(k: Bytes): Bytes { if IsDirectoryKey(k) then k[..|k| - 1] else k }

  predicate KeysOf(dir: Directory, keys: seq<Bytes>) {
    forall i :: 0 <= i < |keys| ==>
      if IsDirectoryKey(keys[i]) then KeyName(keys[i]) in dir.directories else keys[i] in dir.files
  }

  function ItemMode(dir: Directory, k: Bytes): Bytes {
    if IsDirectoryKey(k) then MODE_DIRECTORY
    else if k in dir.files && dir.files[k].executable then MODE_EXECUTABLE
    else MODE_REGULAR
  }

  function BlobOid(hash: Hash, content: Bytes): Bytes { hash(Frame(BLOB, content)) }

  function TreeOid(hash: Hash, dir: Directory): Bytes
    requires NamesOk(dir)
    decreases dir, 2
  {
    hash(Frame(TREE, TreeBody(hash, dir)))
  }

  function TreeBody(hash: Hash, dir: Directory): Bytes
    requires NamesOk(dir)
    decreases dir, 1
  {
    ItemsAreKeys(dir);
    EncodeItems(hash, dir, Items(dir))
  }

  function EncodeItems(hash: Hash, dir: Directory, keys: seq<Bytes>): Bytes
    requires NamesOk(dir) && KeysOf(dir, keys)
    decreases dir, 0, |keys|
  {
    if keys == [] then []
    else
      ItemMode(dir, keys[0]) + KeyName(keys[0]) + [0] + ItemOid(hash, dir, keys[0])
        + EncodeItems(hash, dir, keys[1..])
  }

  function ItemOid(hash: Hash, dir: Directory, k: Bytes): Bytes
    requires NamesOk(dir) && KeysOf(dir, [k])
    decreases dir, 0, 0
  {
    assert [k][0] == k;
    if IsDirectoryKey(k) then TreeOid(hash, dir.directories[KeyName(k)])
    else BlobOid(hash, dir.files[k].content)
  }

  lemma ItemsAreKeys(dir: Directory)
    requires NamesOk(dir)
    ensures KeysOf(dir, Items(dir))
  {
    var keys := Items(dir);
    forall i | 0 <= i < |keys|
      ensures if IsDirectoryKey(keys[i]) then KeyName(keys[i]) in dir.directories else keys[i] in dir.files
    {
      assert keys[i] in ItemKeys(dir);
      KeyKind(dir, keys[i]);
    }
  }

  lemma KeyKind(dir: Directory, k: Bytes)
    requires NamesOk(dir)
    ensures k in ItemKeys(dir)
       <==> if IsDirectoryKey(k) then KeyName(k) in dir.directories else k in dir.files
  {
    if IsDirectoryKey(k) {
      assert k == KeyName(k) + [SLASH];
      assert k[|k| - 1] in k;
    }
    forall n | n in dir.directories && k == n + [SLASH] ensures IsDirectoryKey(k) && KeyName(k) == n {
    }
  }
}
