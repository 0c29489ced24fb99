/** What a Git tree id binds, and the order in which its items list the files. */
module GitBinding {
  import opened Wrappers
  import opened Unicode
  import opened GitPath
  import opened GitTree
  import opened GitObject
  import Order

  // Unambiguous framing

  lemma {:induction false} UntilNul(x: Bytes, r: Bytes, y: Bytes, t: Bytes)
    requires 0 !in x && 0 !in y && x + [0] + r == y + [0] + t
    ensures x == y && r == t
  {
    var s := x + [0] + r;
    assert s[0] == if x == [] then 0 else x[0];
    assert s[0] == if y == [] then 0 else y[0];
    if x == [] && y == [] {
      assert s[1..] == r && s[1..] == t;
    } else if x != [] && y != [] {
      assert s[1..] == x[1..] + [0] + r && s[1..] == y[1..] + [0] + t;
      UntilNul(x[1..], r, y[1..], t);
      assert x == [x[0]] + x[1..] && y == [y[0]] + y[1..];
    }
  }

  lemma FrameInjective(kind: Bytes, a: Bytes, b: Bytes)
    requires kind == BLOB || kind == TREE
    ensures Frame(kind, a) == Frame(kind, b) ==> a == b
  {
    assert forall i :: 0 <= i < |kind| ==> kind[i] != 0;
    if Frame(kind, a) == Frame(kind, b) {
      UntilNul(kind + DecimalBytes(|a|), a, kind + DecimalBytes(|b|), b);
    }
  }

  lemma SameLengthSplit(a: Bytes, r: Bytes, b: Bytes, t: Bytes)
    requires |a| == |b| && a + r == b + t
    ensures a == b && r == t
  {
    assert a == (a + r)[..|a|] && r == (a + r)[|a|..];
    assert b == (b + t)[..|b|] && t == (b + t)[|b|..];
  }

  predicate IsMode(m: Bytes) { m == MODE_DIRECTORY || m == MODE_REGULAR || m == MODE_EXECUTABLE }

  // The first byte of a mode separates directories from files.
  lemma ModeSplit(m: Bytes, r: Bytes, n: Bytes, t: Bytes)
    requires IsMode(m) && IsMode(n)
    requires m + r == n + t
    ensures m == n && r == t
  {
    assert (m + r)[0] == m[0] && (n + t)[0] == n[0];
    SameLengthSplit(m, r, n, t);
  }

  lemma KeyNameOk(dir: Directory, k: Bytes)
    requires NamesOk(dir) && KeysOf(dir, [k])
    ensures 0 !in KeyName(k) && SLASH !in KeyName(k)
    ensures k == if IsDirectoryKey(k) then KeyName(k) + [SLASH] else KeyName(k)
  {
    assert [k][0] == k;
  }

  // One item is self-delimiting: mode, name up to NUL, digest of fixed length.
  lemma ItemSplit(m: Bytes, x: Bytes, o: Bytes, r: Bytes, m': Bytes, x': Bytes, o': Bytes, r': Bytes)
    requires IsMode(m) && IsMode(m')
    requires 0 !in x && 0 !in x' && |o| == |o'|
    requires m + x + [0] + o + r == m' + x' + [0] + o' + r'
    ensures m == m' && x == x' && o == o' && r == r'
  {
    assert m + x + [0] + o + r == m + (x + [0] + (o + r));
    assert m' + x' + [0] + o' + r' == m' + (x' + [0] + (o' + r'));
    ModeSplit(m, x + [0] + (o + r), m', x' + [0] + (o' + r'));
    UntilNul(x, o + r, x', o' + r');
    SameLengthSplit(o, r, o', r');
  }

  /** Equal tree bodies list the same names with the same modes and object ids. */
  lemma {:induction false} ItemsBind(hash: Hash, n: nat, a: Directory, ka: seq<Bytes>, b: Directory, kb: seq<Bytes>)
    requires FixedLength(hash, n) && NamesOk(a) && NamesOk(b) && KeysOf(a, ka) && KeysOf(b, kb)
    requires EncodeItems(hash, a, ka) == EncodeItems(hash, b, kb)
    ensures ka == kb
    ensures forall k :: k in ka ==> SameItem(hash, a, b, k)
    decreases |ka|
  {
    ItemsNotEmpty(hash, a, ka);
    ItemsNotEmpty(hash, b, kb);
    if ka != [] {
      HeadBinds(hash, n, a, ka, b, kb);
      ItemsBind(hash, n, a, ka[1..], b, kb[1..]);
      assert ka == [ka[0]] + ka[1..] && kb == [kb[0]] + kb[1..];
    }
  }

  lemma ItemsNotEmpty(hash: Hash, dir: Directory, keys: seq<Bytes>)
    requires NamesOk(dir) && KeysOf(dir, keys)
    ensures EncodeItems(hash, dir, keys) == [] <==> keys == []
    ensures keys != [] ==> KeysOf(dir, keys[1..])
  {
  }

  lemma HeadBinds(hash: Hash, n: nat, a: Directory, ka: seq<Bytes>, b: Directory, kb: seq<Bytes>)
    requires FixedLength(hash, n) && NamesOk(a) && NamesOk(b) && KeysOf(a, ka) && KeysOf(b, kb)
    requires ka != [] && kb != [] && EncodeItems(hash, a, ka) == EncodeItems(hash, b, kb)
    ensures ka[0] == kb[0] && SameItem(hash, a, b, ka[0])
    ensures EncodeItems(hash, a, ka[1..]) == EncodeItems(hash, b, kb[1..])
  {
    var x, y := ka[0], kb[0];
    assert KeysOf(a, [x]) && KeysOf(b, [y]);
    KeyNameOk(a, x);
    KeyNameOk(b, y);
    OidLength(hash, n, a, x);
    OidLength(hash, n, b, y);
    ItemSplit(ItemMode(a, x), KeyName(x), ItemOid(hash, a, x), EncodeItems(hash, a, ka[1..]),
              ItemMode(b, y), KeyName(y), ItemOid(hash, b, y), EncodeItems(hash, b, kb[1..]));
    ModeTellsKind(a, x);
    ModeTellsKind(b, y);
  }

  lemma ModeTellsKind(dir: Directory, k: Bytes)
    ensures IsDirectoryKey(k) <==> ItemMode(dir, k) == MODE_DIRECTORY
  {
  }

  ghost predicate SameItem(hash: Hash, a: Directory, b: Directory, k: Bytes)
    requires NamesOk(a) && NamesOk(b)
  {
    && KeysOf(a, [k]) && KeysOf(b, [k])
    && ItemMode(a, k) == ItemMode(b, k)
    && ItemOid(hash, a, k) == ItemOid(hash, b, k)
  }

  lemma OidLength(hash: Hash, n: nat, dir: Directory, k: Bytes)
    requires FixedLength(hash, n) && NamesOk(dir) && KeysOf(dir, [k])
    ensures |ItemOid(hash, dir, k)| == n
  {
    assert [k][0] == k;
  }

  /** Every framed object hashed while a tree id is computed. */
  ghost function Objects(hash: Hash, dir: Directory): set<Bytes>
    requires NamesOk(dir)
    decreases dir
  {
    {Frame(TREE, TreeBody(hash, dir))}
    + (set n | n in dir.files :: Frame(BLOB, dir.files[n].content))
    + (set n, x | n in dir.directories && x in Objects(hash, dir.directories[n]) :: x)
  }

  /** Two different hashed objects with one digest, one from each side. */
  ghost predicate Collision(hash: Hash, a: set<Bytes>, b: set<Bytes>) {
    exists x, y :: x in a && y in b && x != y && hash(x) == hash(y)
  }

  lemma CollisionWidens(hash: Hash, a: set<Bytes>, b: set<Bytes>, a': set<Bytes>, b': set<Bytes>)
    requires Collision(hash, a, b) && a <= a' && b <= b'
    ensures Collision(hash, a', b')
  {
  }

  ghost predicate SameItems(hash: Hash, a: Directory, b: Directory)
    requires NamesOk(a) && NamesOk(b)
  {
    && Items(a) == Items(b)
    && forall k :: k in Items(a) ==> SameItem(hash, a, b, k)
  }

  /** Equal tree ids come from equal trees, unless two of the hashed objects collide. */
  lemma {:induction false} TreeBinding(hash: Hash, n: nat, a: Directory, b: Directory)
    requires FixedLength(hash, n) && NamesOk(a) && NamesOk(b)
    requires TreeOid(hash, a) == TreeOid(hash, b)
    ensures a == b || Collision(hash, Objects(hash, a), Objects(hash, b))
    decreases a, 1
  {
    var fa, fb := Frame(TREE, TreeBody(hash, a)), Frame(TREE, TreeBody(hash, b));
    assert fa in Objects(hash, a) && fb in Objects(hash, b);
    assert hash(fa) == hash(fb);
    if fa == fb && !Collision(hash, Objects(hash, a), Objects(hash, b)) {
      BodiesBind(hash, n, a, b);
      AllFilesBind(hash, a, b);
      AllDirectoriesBind(hash, n, a, b);
    }
  }

  lemma AllFilesBind(hash: Hash, a: Directory, b: Directory)
    requires NamesOk(a) && NamesOk(b) && SameItems(hash, a, b)
    requires !Collision(hash, Objects(hash, a), Objects(hash, b))
    ensures a.files == b.files
  {
    forall name | name in a.files || name in b.files
      ensures name in a.files && name in b.files && a.files[name] == b.files[name] {
      FilesBind(hash, a, b, name);
    }
  }

  lemma AllDirectoriesBind(hash: Hash, n: nat, a: Directory, b: Directory)
    requires FixedLength(hash, n) && NamesOk(a) && NamesOk(b) && SameItems(hash, a, b)
    requires !Collision(hash, Objects(hash, a), Objects(hash, b))
    ensures a.directories == b.directories
    decreases a, 0, 1
  {
    forall name | name in a.directories || name in b.directories
      ensures name in a.directories && name in b.directories && a.directories[name] == b.directories[name] {
      KeyOfDirectory(a, name);
      KeyOfDirectory(b, name);
      DirectoriesBind(hash, n, a, b, name);
    }
  }

  lemma BodiesBind(hash: Hash, n: nat, a: Directory, b: Directory)
    requires FixedLength(hash, n) && NamesOk(a) && NamesOk(b)
    requires Frame(TREE, TreeBody(hash, a)) == Frame(TREE, TreeBody(hash, b))
    ensures SameItems(hash, a, b)
  {
    FrameInjective(TREE, TreeBody(hash, a), TreeBody(hash, b));
    ItemsAreKeys(a);
    ItemsAreKeys(b);
    ItemsBind(hash, n, a, Items(a), b, Items(b));
  }

  // Which key stands for a file, and which for a directory.
  lemma KeyOfFile(dir: Directory, name: Bytes)
    requires NamesOk(dir) && name != [] && SLASH !in name
    ensures !IsDirectoryKey(name) && (name in Items(dir) <==> name in dir.files)
  {
    assert name[|name| - 1] in name;
    KeyKind(dir, name);
  }

  lemma KeyOfDirectory(dir: Directory, name: Bytes)
    requires NamesOk(dir)
    ensures var k := name + [SLASH];
      IsDirectoryKey(k) && KeyName(k) == name && (k in Items(dir) <==> name in dir.directories)
  {
    KeyKind(dir, name + [SLASH]);
  }

  lemma FilesBind(hash: Hash, a: Directory, b: Directory, name: Bytes)
    requires NamesOk(a) && NamesOk(b) && SameItems(hash, a, b)
    requires name in a.files || name in b.files
    requires !Collision(hash, Objects(hash, a), Objects(hash, b))
    ensures name in a.files && name in b.files && a.files[name] == b.files[name]
  {
    KeyOfFile(a, name);
    KeyOfFile(b, name);
    assert SameItem(hash, a, b, name);
    FileObject(hash, a, name);
    FileObject(hash, b, name);
    var x, y := a.files[name].content, b.files[name].content;
    FrameInjective(BLOB, x, y);
  }

  lemma FileObject(hash: Hash, dir: Directory, name: Bytes)
    requires NamesOk(dir) && name in dir.files && KeysOf(dir, [name]) && !IsDirectoryKey(name)
    ensures Frame(BLOB, dir.files[name].content) in Objects(hash, dir)
    ensures ItemOid(hash, dir, name) == hash(Frame(BLOB, dir.files[name].content))
  {
  }

  lemma DirectoriesBind(hash: Hash, n: nat, a: Directory, b: Directory, name: Bytes)
    requires FixedLength(hash, n) && NamesOk(a) && NamesOk(b)
    requires name in a.directories && name in b.directories
    requires SameItem(hash, a, b, name + [SLASH])
    requires !Collision(hash, Objects(hash, a), Objects(hash, b))
    ensures a.directories[name] == b.directories[name]
    decreases a, 0, 0
  {
    var k := name + [SLASH];
    assert IsDirectoryKey(k) && KeyName(k) == name;
    var x, y := a.directories[name], b.directories[name];
    assert ItemOid(hash, a, k) == TreeOid(hash, x) && ItemOid(hash, b, k) == TreeOid(hash, y);
    TreeBinding(hash, n, x, y);
    SubtreeObjects(hash, a, name);
    SubtreeObjects(hash, b, name);
  }

  lemma SubtreeObjects(hash: Hash, dir: Directory, name: Bytes)
    requires NamesOk(dir) && name in dir.directories
    ensures Objects(hash, dir.directories[name]) <= Objects(hash, dir)
  {
  }
}
