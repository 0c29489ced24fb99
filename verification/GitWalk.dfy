/** Walking a Git tree in item order, and what a tree id says about an entry list. */
module GitWalk {
  import opened Wrappers
  import opened Unicode
  import opened GitPath
  import opened GitTree
  import opened GitObject
  import opened GitBinding
  import Order

  /** The full paths of the files, directory by directory, in `compareTreeItems` order. */
  function Walk(dir: Directory): seq<Bytes>
    requires NamesOk(dir)
    decreases dir, 1
  {
    ItemsAreKeys(dir);
    WalkItems(dir, Items(dir))
  }

  function WalkItems(dir: Directory, keys: seq<Bytes>): seq<Bytes>
    requires NamesOk(dir) && KeysOf(dir, keys)
    decreases dir, 0, |keys|
  {
    if keys == [] then []
    else
      (if IsDirectoryKey(keys[0]) then Under(keys[0], Walk(dir.directories[KeyName(keys[0])])) else [keys[0]])
        + WalkItems(dir, keys[1..])
  }

  function Under(prefix: Bytes, paths: seq<Bytes>): (r: seq<Bytes>)
    ensures |r| == |paths| && forall i :: 0 <= i < |r| ==> r[i] == prefix + paths[i]
  {
    if paths == [] then [] else [prefix + paths[0]] + Under(prefix, paths[1..])
  }

  /** p is listed by the item with key k. */
  ghost predicate ListedBy(dir: Directory, k: Bytes, p: Bytes)
    requires NamesOk(dir) && KeysOf(dir, [k])
  {
    assert [k][0] == k;
    if IsDirectoryKey(k) then k <= p && p[|k|..] in Walk(dir.directories[KeyName(k)]) else p == k
  }

  lemma UnderHas(prefix: Bytes, paths: seq<Bytes>, p: Bytes)
    ensures p in Under(prefix, paths) <==> prefix <= p && p[|prefix|..] in paths
  {
    var r := Under(prefix, paths);
    if p in r {
      var i :| 0 <= i < |r| && r[i] == p;
      assert p[|prefix|..] == paths[i];
    }
    if prefix <= p && p[|prefix|..] in paths {
      var i :| 0 <= i < |paths| && paths[i] == p[|prefix|..];
      assert r[i] == p;
    }
  }

  lemma {:induction false} WalkItemsHas(dir: Directory, keys: seq<Bytes>, p: Bytes)
    requires NamesOk(dir) && KeysOf(dir, keys)
    ensures p in WalkItems(dir, keys)
       <==> exists i :: 0 <= i < |keys| && KeysOf(dir, [keys[i]]) && ListedBy(dir, keys[i], p)
    decreases |keys|
  {
    if keys != [] {
      WalkItemsHas(dir, keys[1..], p);
      var k := keys[0];
      assert KeysOf(dir, [k]);
      if IsDirectoryKey(k) { UnderHas(k, Walk(dir.directories[KeyName(k)]), p); }
      assert p in WalkItems(dir, keys) <==> ListedBy(dir, k, p) || p in WalkItems(dir, keys[1..]);
      assert forall i :: 0 <= i < |keys[1..]| ==> keys[1..][i] == keys[i + 1];
      assert forall i :: 1 <= i < |keys| ==> keys[i] == keys[1..][i - 1];
    }
  }

  // Order

  lemma IncreasingConcat(a: seq<Bytes>, b: seq<Bytes>)
    requires Order.Increasing(a) && Order.Increasing(b)
    requires forall p, q :: p in a && q in b ==> Order.Less(p, q)
    ensures Order.Increasing(a + b)
  {
  }

  lemma IncreasingUnder(prefix: Bytes, paths: seq<Bytes>)
    requires Order.Increasing(paths)
    ensures Order.Increasing(Under(prefix, paths))
  {
    forall i, j | 0 <= i < j < |paths| ensures Order.Less(prefix + paths[i], prefix + paths[j]) {
      Order.LessAfterPrefix(prefix, paths[i], paths[j]);
    }
  }

  lemma SlashOnlyAtEnd(dir: Directory, k: Bytes, k': Bytes)
    requires NamesOk(dir) && KeysOf(dir, [k'])
    ensures IsDirectoryKey(k) && k <= k' ==> k == k'
  {
    KeyNameOk(dir, k');
    var name := KeyName(k');
    assert forall i :: 0 <= i < |name| ==> k'[i] == name[i] && name[i] in name;
  }

  // Extensions of two keys are in the order of the keys, if the first is not extended over the second.
  lemma ExtensionsLess(k: Bytes, k': Bytes, p: Bytes, p': Bytes)
    requires Order.Less(k, k') && k <= p && k' <= p' && (k <= k' ==> p == k)
    ensures Order.Less(p, p')
  {
    Order.LessAsymmetric(k, k');
    if k <= k' {
      Order.PrefixIsLess(p, p');
    } else {
      Order.LessExtend(k, k', p[|k|..], p'[|k'|..]);
      assert p == k + p[|k|..] && p' == k' + p'[|k'|..];
    }
  }

  // Whatever one item lists comes before whatever a later item lists.
  lemma ItemsSeparate(dir: Directory, k: Bytes, k': Bytes, p: Bytes, p': Bytes)
    requires NamesOk(dir) && KeysOf(dir, [k]) && KeysOf(dir, [k'])
    requires Order.Less(k, k') && ListedBy(dir, k, p) && ListedBy(dir, k', p')
    ensures Order.Less(p, p')
  {
    SlashOnlyAtEnd(dir, k, k');
    Order.LessAsymmetric(k, k');
    ExtensionsLess(k, k', p, p');
  }

  /** Walking the items in order lists the full paths in strictly increasing byte order. */
  lemma {:induction false} WalkIncreasing(dir: Directory)
    requires NamesOk(dir)
    ensures Order.Increasing(Walk(dir))
    decreases dir, 1
  {
    ItemsAreKeys(dir);
    WalkItemsIncreasing(dir, Items(dir));
  }

  lemma {:induction false} WalkItemsIncreasing(dir: Directory, keys: seq<Bytes>)
    requires NamesOk(dir) && KeysOf(dir, keys) && Order.Increasing(keys)
    ensures Order.Increasing(WalkItems(dir, keys))
    decreases dir, 0, |keys|
  {
    if keys != [] {
      var k := keys[0];
      assert KeysOf(dir, [k]);
      var head := if IsDirectoryKey(k) then Under(k, Walk(dir.directories[KeyName(k)])) else [k];
      var tail := WalkItems(dir, keys[1..]);
      if IsDirectoryKey(k) {
        WalkIncreasing(dir.directories[KeyName(k)]);
        IncreasingUnder(k, Walk(dir.directories[KeyName(k)]));
      }
      WalkItemsIncreasing(dir, keys[1..]);
      forall p, q | p in head && q in tail ensures Order.Less(p, q) {
        if IsDirectoryKey(k) { UnderHas(k, Walk(dir.directories[KeyName(k)]), p); }
        WalkItemsHas(dir, keys[1..], q);
        var i :| 0 <= i < |keys[1..]| && KeysOf(dir, [keys[1..][i]]) && ListedBy(dir, keys[1..][i], q);
        assert Order.Less(keys[0], keys[i + 1]);
        ItemsSeparate(dir, k, keys[1..][i], p, q);
      }
      IncreasingConcat(head, tail);
    }
  }

  /** The walk lists exactly the files of the tree. */
  lemma {:induction false} WalkHas(dir: Directory, p: Bytes)
    requires NamesOk(dir)
    ensures p in Walk(dir) <==> Lookup(dir, Split(p)).Some?
    decreases dir
  {
    ItemsAreKeys(dir);
    var keys := Items(dir);
    WalkItemsHas(dir, keys, p);
    if p in Walk(dir) {
      var i :| 0 <= i < |keys| && KeysOf(dir, [keys[i]]) && ListedBy(dir, keys[i], p);
      if IsDirectoryKey(keys[i]) { WalkHas(dir.directories[KeyName(keys[i])], p[|keys[i]|..]); }
      ListedIsFound(dir, keys[i], p);
    }
    if Lookup(dir, Split(p)).Some? {
      var parts := Split(p);
      if |parts| > 1 {
        SplitOfJoin(parts[1..]);
        WalkHas(dir.directories[parts[0]], Join(parts[1..]));
      }
      var k := FoundIsListed(dir, p);
      WalkItemsHas(dir, keys, p);
    }
  }

  lemma ListedIsFound(dir: Directory, k: Bytes, p: Bytes)
    requires NamesOk(dir) && KeysOf(dir, [k]) && ListedBy(dir, k, p)
    requires IsDirectoryKey(k) ==>
      KeyName(k) in dir.directories && Lookup(dir.directories[KeyName(k)], Split(p[|k|..])).Some?
    ensures Lookup(dir, Split(p)).Some?
  {
    KeyNameOk(dir, k);
    assert [k][0] == k;
    if IsDirectoryKey(k) {
      var rest := p[|k|..];
      assert p == KeyName(k) + [SLASH] + rest;
      SplitAfterSlash(KeyName(k), rest);
      assert Split(p)[1..] == Split(rest);
    } else {
      SplitPlain(p);
    }
  }

  lemma FoundIsListed(dir: Directory, p: Bytes) returns (k: Bytes)
    requires NamesOk(dir) && Lookup(dir, Split(p)).Some?
    requires |Split(p)| > 1 ==> Join(Split(p)[1..]) in Walk(dir.directories[Split(p)[0]])
    ensures k in Items(dir) && KeysOf(dir, [k]) && ListedBy(dir, k, p)
  {
    var parts := Split(p);
    JoinOfSplit(p);
    if |parts| == 1 {
      KeyOfFile(dir, parts[0]);
      k := parts[0];
    } else {
      k := parts[0] + [SLASH];
      KeyOfDirectory(dir, parts[0]);
      assert p == k + Join(parts[1..]);
      assert p[|k|..] == Join(parts[1..]);
    }
  }
}
