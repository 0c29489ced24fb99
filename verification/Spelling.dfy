/** How a walk spells the path of an entry: its names joined by slashes, and then every backslash
    turned into a slash (filesystem.ts, pipeline.ts, artifact.ts). */
module Spelling {
  import opened Wrappers
  import opened Unicode
  import opened GitPath

  const BACKSLASH_BYTE: Byte := 0x5c

  type Parts = seq<Bytes>

  /** What a file system guarantees of a name in a directory. */
  predicate PosixName(name: Bytes) { name !in {[], [DOT], [DOT, DOT]} && SLASH !in name && 0 !in name }

  predicate PosixParts(parts: Parts) {
    parts != [] && forall i :: 0 <= i < |parts| ==> PosixName(parts[i])
  }

  /** `path.replace(/\\/g, "/")` on the bytes of a path. */
  function Replaced(path: Bytes): (r: Bytes)
    ensures |r| == |path|
    ensures BACKSLASH_BYTE !in r
    ensures BACKSLASH_BYTE !in path ==> r == path
  {
    seq(|path|, i requires 0 <= i < |path| => if path[i] == BACKSLASH_BYTE then SLASH else path[i])
  }

  /** `relative(root, absolute).replace(/\\/g, "/")`: the key of an entry. */
  function Spelled(parts: Parts): Bytes { Replaced(Join(parts)) }

  predicate Unescaped(parts: Parts) { forall i :: 0 <= i < |parts| ==> BACKSLASH_BYTE !in parts[i] }

  lemma {:induction false} JoinPlain(parts: Parts)
    requires Unescaped(parts)
    ensures BACKSLASH_BYTE !in Join(parts)
  {
    if |parts| > 1 { JoinPlain(parts[1..]); }
  }

  /** Without backslashes, a key splits into the names it was spelled from. */
  lemma SplitOfSpelled(parts: Parts)
    requires PosixParts(parts) && Unescaped(parts)
    ensures Spelled(parts) == Join(parts) && Split(Spelled(parts)) == parts
  {
    JoinPlain(parts);
    SplitOfJoin(parts);
  }

  lemma SpelledInjective(a: Parts, b: Parts)
    requires PosixParts(a) && Unescaped(a) && PosixParts(b) && Unescaped(b) && Spelled(a) == Spelled(b)
    ensures a == b
  {
    SplitOfSpelled(a);
    SplitOfSpelled(b);
  }

  // Twins: other paths with the same key

  /** One name that is spelled like the whole path: its names joined by backslashes. */
  function Flattened(parts: Parts): (r: Bytes)
    ensures |r| == |Join(parts)|
  {
    seq(|Join(parts)|, i requires 0 <= i < |Join(parts)| => if Join(parts)[i] == SLASH then BACKSLASH_BYTE else Join(parts)[i])
  }

  lemma JoinOne(name: Bytes)
    ensures Join([name]) == name
  {
  }

  lemma FlattenedSpells(parts: Parts)
    ensures Spelled([Flattened(parts)]) == Spelled(parts)
  {
    JoinOne(Flattened(parts));
  }

  lemma {:induction false} JoinNotNul(parts: Parts)
    requires forall i :: 0 <= i < |parts| ==> 0 !in parts[i]
    ensures 0 !in Join(parts)
  {
    if |parts| > 1 { JoinNotNul(parts[1..]); }
  }

  /** The flattened name is one that a file system allows, and it holds a backslash. */
  lemma FlattenedIsName(parts: Parts)
    requires PosixParts(parts) && |parts| >= 2
    ensures PosixName(Flattened(parts)) && BACKSLASH_BYTE in Flattened(parts)
  {
    JoinNotNul(parts);
    var n := |parts[0]|;
    assert Join(parts) == parts[0] + [SLASH] + Join(parts[1..]);
    assert Join(parts)[n] == SLASH && Flattened(parts)[n] == BACKSLASH_BYTE;
    assert Flattened(parts) != [DOT] && Flattened(parts) != [DOT, DOT];
    forall i | 0 <= i < |Join(parts)| ensures Flattened(parts)[i] != SLASH && Flattened(parts)[i] != 0 {
      assert Join(parts)[i] in Join(parts);
    }
  }

  /** Where a key holds a slash, its path has two names or a backslash. */
  lemma SpelledSlash(parts: Parts)
    requires parts != []
    ensures |parts| > 1 || BACKSLASH_BYTE in parts[0] ==> SLASH in Spelled(parts)
  {
    JoinOne(parts[0]);
    if |parts| > 1 {
      assert Join(parts) == parts[0] + [SLASH] + Join(parts[1..]);
      assert Spelled(parts)[|parts[0]|] == SLASH;
    } else if BACKSLASH_BYTE in parts[0] {
      var i :| 0 <= i < |parts[0]| && parts[0][i] == BACKSLASH_BYTE;
      assert Spelled(parts)[i] == SLASH;
    }
  }

  /** A single name without a backslash has no twin. */
  lemma NoTwin(name: Bytes, parts: Parts)
    requires PosixName(name) && parts != [] && Spelled(parts) == name
    ensures parts == [name]
  {
    SpelledSlash(parts);
    JoinOne(parts[0]);
  }

  // Keys of nested paths

  lemma {:induction false} JoinLast(parts: Parts, last: Bytes)
    ensures Join(parts + [last]) == if parts == [] then last else Join(parts) + ([SLASH] + last)
    decreases |parts|
  {
    if parts != [] {
      assert (parts + [last])[1..] == parts[1..] + [last];
      JoinLast(parts[1..], last);
      if |parts| > 1 { Regroup(parts[0] + [SLASH], Join(parts[1..]), [SLASH] + last); }
    }
  }

  lemma Regroup<T>(a: seq<T>, b: seq<T>, c: seq<T>)
    ensures a + (b + c) == a + b + c
  {
  }

  /** What is appended to the last name is appended to the path. */
  lemma JoinTail(dir: Parts, x: Bytes, rest: Bytes)
    ensures Join(dir + [x + rest]) == Join(dir + [x]) + rest
  {
    JoinLast(dir, x);
    JoinLast(dir, x + rest);
    if dir != [] {
      Regroup([SLASH], x, rest);
      Regroup(Join(dir), [SLASH] + x, rest);
    }
  }

  lemma ReplacedAround(a: Bytes, c: Byte, b: Bytes)
    ensures Replaced(a + ([c] + b)) == Replaced(a) + ([if c == BACKSLASH_BYTE then SLASH else c] + Replaced(b))
  {
  }

  /** A backslash in a name spells like a slash between two. */
  lemma TwinSpelled(dir: Parts, x: Bytes, y: Bytes)
    ensures Spelled(dir + [x, y]) == Spelled(dir + [x + ([BACKSLASH_BYTE] + y)])
    ensures Spelled(dir + [x, y]) == Spelled(dir + [x]) + ([SLASH] + Replaced(y))
  {
    assert dir + [x, y] == (dir + [x]) + [y];
    JoinLast(dir + [x], y);
    JoinTail(dir, x, [BACKSLASH_BYTE] + y);
    ReplacedAround(Join(dir + [x]), SLASH, y);
    ReplacedAround(Join(dir + [x]), BACKSLASH_BYTE, y);
  }

  lemma Prepended(x: Bytes, rest: seq<Bytes>, tail: seq<Bytes>)
    requires rest != []
    ensures [x] + (rest + tail) == [x] + rest + tail
    ensures [x + (rest + tail)[0]] + (rest + tail)[1..] == [x + rest[0]] + rest[1..] + tail
  {
  }

  lemma {:induction false} SplitConcat(a: Bytes, b: Bytes)
    ensures Split(a + ([SLASH] + b)) == Split(a) + Split(b)
    decreases |a|
  {
    var path := a + ([SLASH] + b);
    if a == [] {
      assert path == [SLASH] + b && path[1..] == b;
    } else {
      assert path[1..] == a[1..] + ([SLASH] + b) && path[0] == a[0];
      SplitConcat(a[1..], b);
      Prepended([], Split(a[1..]), Split(b));
      Prepended([a[0]], Split(a[1..]), Split(b));
    }
  }

  lemma ScalarBeforeSlash(a: Bytes, b: Bytes)
    requires a != [] && DecodeScalar(a + ([SLASH] + b)).Some?
    ensures DecodeScalar(a) == DecodeScalar(a + ([SLASH] + b))
  {
    var all := a + ([SLASH] + b);
    assert !Continuation(SLASH) && all[|a|] == SLASH;
    assert forall i :: 0 <= i < |a| ==> all[i] == a[i];
    var n := DecodeScalar(all).value.1;
    assert forall i :: 0 < i < n ==> Continuation(all[i]);
  }

  lemma {:induction false} DecodesBefore(a: Bytes, b: Bytes)
    requires DecodeUtf8(a + ([SLASH] + b)).Some?
    ensures DecodeUtf8(a).Some?
    decreases |a|
  {
    if a != [] {
      ScalarBeforeSlash(a, b);
      var n := DecodeScalar(a).value.1;
      assert (a + ([SLASH] + b))[n..] == a[n..] + ([SLASH] + b);
      DecodesBefore(a[n..], b);
    }
  }

  lemma {:induction false} DecodesAfter(a: Bytes, b: Bytes)
    requires DecodeUtf8(a + ([SLASH] + b)).Some?
    ensures DecodeUtf8(b).Some?
    decreases |a|
  {
    var all := a + ([SLASH] + b);
    if a == [] {
      assert DecodeScalar(all) == Some((0x2f, 1)) && all[1..] == b;
    } else {
      ScalarBeforeSlash(a, b);
      var n := DecodeScalar(a).value.1;
      assert all[n..] == a[n..] + ([SLASH] + b);
      DecodesAfter(a[n..], b);
    }
  }

  // Names that are UTF-8

  predicate Utf8Parts(parts: Parts) { forall i :: 0 <= i < |parts| ==> DecodeUtf8(parts[i]).Some? }

  lemma {:induction false} JoinDecodes(parts: Parts)
    requires Utf8Parts(parts)
    ensures DecodeUtf8(Join(parts)).Some?
  {
    if |parts| > 1 {
      JoinDecodes(parts[1..]);
      AsciiSlash();
      DecodeConcat(parts[0], [SLASH]);
      DecodeConcat(parts[0] + [SLASH], Join(parts[1..]));
    }
  }

  lemma AsciiSlash()
    ensures DecodeUtf8([SLASH]).Some?
  {
    assert DecodeScalar([SLASH]) == Some((0x2f, 1)) && [SLASH][1..] == [];
  }

  /** The key of a path of UTF-8 names is UTF-8. */
  lemma SpelledDecodes(parts: Parts)
    requires Utf8Parts(parts)
    ensures DecodeUtf8(Spelled(parts)).Some?
  {
    JoinDecodes(parts);
    DecodeAsciiChanged(Join(parts), Spelled(parts));
  }

  lemma FlattenedDecodes(parts: Parts)
    requires Utf8Parts(parts)
    ensures DecodeUtf8(Flattened(parts)).Some?
  {
    JoinDecodes(parts);
    DecodeAsciiChanged(Join(parts), Flattened(parts));
  }

  /** A name is read as a name, and one that is no UTF-8 shows U+FFFD. */
  lemma LossyIsName(name: Bytes)
    requires PosixName(name)
    ensures PosixName(Lossy(name)) && (BACKSLASH_BYTE in Lossy(name) <==> BACKSLASH_BYTE in name)
    ensures DecodeUtf8(Lossy(name)).Some? && (DecodeUtf8(name).Some? ==> Lossy(name) == name)
    ensures DecodeUtf8(name).None? ==> HasMark(Lossy(name))
  {
    LossyAscii(name, SLASH);
    LossyAscii(name, 0);
    LossyAscii(name, BACKSLASH_BYTE);
    LossyDecodes(name);
    if DecodeUtf8(name).Some? { LossyOfUtf8(name); }
    assert !HasMark([DOT]) && !HasMark([DOT, DOT]) by {
      assert [DOT, DOT][1..] == [DOT] && [DOT][1..] == [];
    }
  }

  /** Skipped names are read from themselves alone. */
  lemma LossyKeeps(name: Bytes, plain: Bytes)
    requires Legible(plain)
    ensures Lossy(name) == plain <==> name == plain
  {
    LossyOfUtf8(plain);
    if Lossy(name) == plain { LegibleAlone(name, plain); }
  }

  lemma {:induction false} AsciiLegible(b: Bytes)
    requires forall i :: 0 <= i < |b| ==> b[i] < 0x80
    ensures Legible(b)
  {
    if b != [] {
      assert DecodeScalar(b) == Some((b[0], 1)) && b[..1] != REPLACEMENT;
      AsciiLegible(b[1..]);
    }
  }

  lemma BrokenIsName(name: Bytes)
    requires PosixName(name) && HasMark(name)
    ensures PosixName(Broken(name)) && DecodeUtf8(Broken(name)).None? && Lossy(Broken(name)) == Lossy(name)
    ensures BACKSLASH_BYTE !in name ==> BACKSLASH_BYTE !in Broken(name)
  {
    BrokenReads(name);
    assert 0xff !in [DOT] && 0xff !in [DOT, DOT];
  }
}
