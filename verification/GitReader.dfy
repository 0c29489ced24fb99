/** Git objects read back, over the bytes that Git itself writes. */
module GitReader {
  import opened Wrappers
  import opened Unicode
  import opened GitPath
  import opened GitTree
  import opened GitObject
  import opened GitBinding
  import opened GitTreeId
  import CanonicalCodec
  import JsonParser
  import Order

  datatype Kind = Folder | Regular | Executable

  datatype Item = Item(kind: Kind, name: Bytes, oid: Bytes)

  // A tree body

  /** The kind at the front of an item, and how many bytes spell it. */
  function ReadKind(b: Bytes): (r: Option<(Kind, nat)>)
    ensures r.Some? ==> 0 < r.value.1 <= |b|
  {
    if Ascii("40000 ") <= b then Some((Folder, 6))
    else if Ascii("100644 ") <= b then Some((Regular, 7))
    else if Ascii("100755 ") <= b then Some((Executable, 7))
    else None
  }

  /** How many bytes come before the first NUL. */
  function UpToNul(b: Bytes): (n: nat)
    ensures n <= |b|
  {
    if b == [] || b[0] == 0 then 0 else 1 + UpToNul(b[1..])
  }

  /** The items of a tree body, with object ids of this many bytes. */
  function ReadItems(width: nat, b: Bytes): Option<seq<Item>>
    decreases |b|
  {
    if b == [] then Some([])
    else
      var kind := ReadKind(b);
      if kind.None? then None else ReadNamed(width, kind.value.0, b[kind.value.1..])
  }

  /** The rest of an item, from its name on, and the items after it. */
  function ReadNamed(width: nat, kind: Kind, b: Bytes): Option<seq<Item>>
    decreases |b|
  {
    var n := UpToNul(b);
    if n + 1 + width > |b| then None
    else
      var tail := ReadItems(width, b[n + 1 + width..]);
      if tail.None? then None else Some([Item(kind, b[..n], b[n + 1..n + 1 + width])] + tail.value)
  }

  lemma {:induction false} NulEnds(name: Bytes, rest: Bytes)
    requires 0 !in name
    ensures UpToNul(name + ([0] + rest)) == |name|
  {
    var b := name + ([0] + rest);
    if name != [] {
      assert b[0] == name[0] && b[1..] == name[1..] + ([0] + rest);
      NulEnds(name[1..], rest);
    }
  }

  /** What a key of a directory stands for. */
  function ItemOf(hash: Hash, dir: Directory, k: Bytes): Item
    requires NamesOk(dir) && KeysOf(dir, [k])
  {
    assert [k][0] == k;
    if IsDirectoryKey(k) then Item(Folder, KeyName(k), TreeOid(hash, dir.directories[KeyName(k)]))
    else Item(if dir.files[k].executable then Executable else Regular, k, BlobOid(hash, dir.files[k].content))
  }

  lemma ModeTexts()
    ensures MODE_DIRECTORY == Ascii("40000 ") && MODE_REGULAR == Ascii("100644 ") && MODE_EXECUTABLE == Ascii("100755 ")
  {
  }

  lemma ModeSpells(hash: Hash, dir: Directory, k: Bytes, rest: Bytes)
    requires NamesOk(dir) && KeysOf(dir, [k])
    ensures ReadKind(ItemMode(dir, k) + rest) == Some((ItemOf(hash, dir, k).kind, |ItemMode(dir, k)|))
  {
    assert [k][0] == k;
    var m, b := ItemMode(dir, k), ItemMode(dir, k) + rest;
    ModeTexts();
    assert m <= b && b[0] == m[0] && b[3] == m[3];
    assert Ascii("40000 ")[0] == 0x34 && Ascii("100644 ")[0] == 0x31 && Ascii("100755 ")[0] == 0x31;
    assert Ascii("100644 ")[3] == 0x36 && Ascii("100755 ")[3] == 0x37;
  }

  lemma {:induction false} ItemsRead(hash: Hash, width: nat, dir: Directory, keys: seq<Bytes>)
    requires FixedLength(hash, width) && NamesOk(dir) && KeysOf(dir, keys)
    ensures ReadItems(width, EncodeItems(hash, dir, keys)) == Some(ItemList(hash, dir, keys))
    decreases |keys|
  {
    if keys != [] {
      assert KeysOf(dir, keys[1..]) && KeysOf(dir, [keys[0]]);
      ItemsRead(hash, width, dir, keys[1..]);
      KeyNameOk(dir, keys[0]);
      OidLength(hash, width, dir, keys[0]);
      ItemRead(hash, width, dir, keys[0], EncodeItems(hash, dir, keys[1..]));
    }
  }

  lemma ItemRead(hash: Hash, width: nat, dir: Directory, k: Bytes, tail: Bytes)
    requires NamesOk(dir) && KeysOf(dir, [k]) && 0 !in KeyName(k) && |ItemOid(hash, dir, k)| == width
    requires ReadItems(width, tail).Some?
    ensures ReadItems(width, ItemMode(dir, k) + KeyName(k) + [0] + ItemOid(hash, dir, k) + tail) ==
      Some([ItemOf(hash, dir, k)] + ReadItems(width, tail).value)
  {
    assert [k][0] == k;
    var mode, name, oid := ItemMode(dir, k), KeyName(k), ItemOid(hash, dir, k);
    ModeSpells(hash, dir, k, name + ([0] + (oid + tail)));
    PartsRead(width, mode, ItemOf(hash, dir, k).kind, name, oid, tail);
    Regrouped(mode, name, oid, tail);
  }

  lemma Regrouped(mode: Bytes, name: Bytes, oid: Bytes, tail: Bytes)
    ensures mode + name + [0] + oid + tail == mode + (name + ([0] + (oid + tail)))
  {
    assert mode + name + [0] + oid + tail == mode + (name + ([0] + (oid + tail)));
  }

  lemma PartsRead(width: nat, mode: Bytes, kind: Kind, name: Bytes, oid: Bytes, tail: Bytes)
    requires ReadKind(mode + (name + ([0] + (oid + tail)))) == Some((kind, |mode|))
    requires 0 !in name && |oid| == width && ReadItems(width, tail).Some? && mode != []
    ensures ReadItems(width, mode + (name + ([0] + (oid + tail)))) ==
      Some([Item(kind, name, oid)] + ReadItems(width, tail).value)
  {
    var rest := name + ([0] + (oid + tail));
    assert (mode + rest)[|mode|..] == rest;
    NamedRead(width, kind, name, oid, tail);
  }

  lemma NamedRead(width: nat, kind: Kind, name: Bytes, oid: Bytes, tail: Bytes)
    requires 0 !in name && |oid| == width && ReadItems(width, tail).Some?
    ensures ReadNamed(width, kind, name + ([0] + (oid + tail))) == Some([Item(kind, name, oid)] + ReadItems(width, tail).value)
  {
    NulEnds(name, oid + tail);
    Cuts(name, oid, tail);
  }

  lemma Cuts(name: Bytes, oid: Bytes, tail: Bytes)
    ensures
      var b, n := name + ([0] + (oid + tail)), |name| + 1;
      |b| == n + |oid| + |tail| && b[..|name|] == name && b[n..n + |oid|] == oid && b[n + |oid|..] == tail
  {
  }

  function ItemList(hash: Hash, dir: Directory, keys: seq<Bytes>): (r: seq<Item>)
    requires NamesOk(dir) && KeysOf(dir, keys)
    ensures |r| == |keys|
    ensures forall i :: 0 <= i < |r| ==> KeysOf(dir, [keys[i]]) && r[i] == ItemOf(hash, dir, keys[i])
  {
    if keys == [] then []
    else
      assert KeysOf(dir, keys[1..]) && KeysOf(dir, [keys[0]]);
      [ItemOf(hash, dir, keys[0])] + ItemList(hash, dir, keys[1..])
  }

  /** Directories compare as if a slash followed their name. */
  function SortKey(x: Item): Bytes { if x.kind.Folder? then x.name + Ascii("/") else x.name }

  /** The item of a file or of a directory. */
  ghost predicate Stands(hash: Hash, dir: Directory, x: Item)
    requires NamesOk(dir)
  {
    if x.kind.Folder? then x.name in dir.directories && x.oid == TreeOid(hash, dir.directories[x.name])
    else
      x.name in dir.files && (x.kind.Executable? <==> dir.files[x.name].executable)
      && x.oid == BlobOid(hash, dir.files[x.name].content)
  }

  lemma KeyIsSortKey(hash: Hash, dir: Directory, k: Bytes)
    requires NamesOk(dir) && KeysOf(dir, [k])
    ensures SortKey(ItemOf(hash, dir, k)) == k && Stands(hash, dir, ItemOf(hash, dir, k))
  {
    assert [k][0] == k && Ascii("/") == [SLASH];
    if IsDirectoryKey(k) { assert k == KeyName(k) + [SLASH]; }
  }

  /** A tree body holds exactly one item for each file and each directory, with its mode as Git spells
      it and its object id, in the order of names in which a directory's ends in a slash. */
  lemma TreeReadsBack(hash: Hash, width: nat, dir: Directory)
    requires FixedLength(hash, width) && NamesOk(dir)
    ensures ReadItems(width, TreeBody(hash, dir)).Some?
    ensures
      var items := ReadItems(width, TreeBody(hash, dir)).value;
      && (forall x :: x in items <==> Stands(hash, dir, x))
      && forall i, j :: 0 <= i < j < |items| ==> Order.Less(SortKey(items[i]), SortKey(items[j]))
  {
    var keys := Items(dir);
    ItemsAreKeys(dir);
    ItemsRead(hash, width, dir, keys);
    var items := ItemList(hash, dir, keys);
    forall i | 0 <= i < |items| ensures SortKey(items[i]) == keys[i] && Stands(hash, dir, items[i]) {
      KeyIsSortKey(hash, dir, keys[i]);
    }
    forall x | Stands(hash, dir, x) ensures x in items { StandsInItems(hash, dir, x); }
  }

  lemma StandsInItems(hash: Hash, dir: Directory, x: Item)
    requires NamesOk(dir) && Stands(hash, dir, x) && KeysOf(dir, Items(dir))
    ensures x in ItemList(hash, dir, Items(dir))
  {
    var keys, k := Items(dir), SortKey(x);
    assert Ascii("/") == [SLASH];
    if x.kind.Folder? { KeyOfDirectory(dir, x.name); } else { KeyOfFile(dir, x.name); }
    var i :| 0 <= i < |keys| && keys[i] == k;
    assert [k][0] == k;
    assert ItemList(hash, dir, keys)[i] == ItemOf(hash, dir, k);
  }

  // Whole objects

  /** Decimal digits of a number. */
  ghost predicate Spells(digits: Bytes, n: nat) {
    && digits != [] && (forall i :: 0 <= i < |digits| ==> 0x30 <= digits[i] < 0x3a)
    && (|digits| > 1 ==> digits[0] != 0x30) && JsonParser.DigitsValue(digits) == n
  }

  /** The object bytes that Git hashes: kind, space, length in decimal, NUL, body. */
  ghost predicate ObjectBytes(bytes: Bytes, kind: string, body: Bytes) {
    exists digits :: Spells(digits, |body|) && bytes == Ascii(kind) + Ascii(" ") + digits + [0] + body
  }

  lemma FrameIsObject(kind: string, prefix: Bytes, body: Bytes)
    requires prefix == Ascii(kind) + Ascii(" ")
    ensures ObjectBytes(Frame(prefix, body), kind, body)
  {
    CanonicalCodec.DecimalValue(|body|);
    assert Spells(DecimalBytes(|body|), |body|);
  }

  /** A file's id hashes the blob of its contents, a directory's the tree of its body. */
  lemma OidsHashObjects(hash: Hash, dir: Directory, content: Bytes)
    requires NamesOk(dir)
    ensures exists bytes :: ObjectBytes(bytes, "blob", content) && BlobOid(hash, content) == hash(bytes)
    ensures exists bytes :: ObjectBytes(bytes, "tree", TreeBody(hash, dir)) && TreeOid(hash, dir) == hash(bytes)
  {
    assert BLOB == Ascii("blob") + Ascii(" ") && TREE == Ascii("tree") + Ascii(" ");
    FrameIsObject("blob", BLOB, content);
    FrameIsObject("tree", TREE, TreeBody(hash, dir));
  }
}
