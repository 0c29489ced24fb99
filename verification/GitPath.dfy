/** Repository paths as the UTF-8 bytes of their text, and their components. */
module GitPath {
  import opened Wrappers
  import opened Unicode

  const MAX_GIT_PATH_BYTES := 4096
  const MAX_GIT_TREE_DEPTH := 64
  const SLASH: Byte := 0x2f
  const DOT: Byte := 0x2e
  const GIT: Bytes := [0x2e, 0x67, 0x69, 0x74]
  const NODE_MODULES: Bytes := [0x6e, 0x6f, 0x64, 0x65, 0x5f, 0x6d, 0x6f, 0x64, 0x75, 0x6c, 0x65, 0x73]

  /** `path.split("/")`. */
  function Split(path: Bytes): (parts: seq<Bytes>)
    ensures |parts| > 0 && forall i :: 0 <= i < |parts| ==> SLASH !in parts[i]
  {
    if path == [] then [[]]
    else
      var rest := Split(path[1..]);
      if path[0] == SLASH then [[]] + rest else [[path[0]] + rest[0]] + rest[1..]
  }

  function Join(parts: seq<Bytes>): Bytes {
    if parts == [] then []
    else if |parts| == 1 then parts[0]
    else parts[0] + [SLASH] + Join(parts[1..])
  }

  function LowerAscii(name: Bytes): Bytes {
    if name == [] then []
    else [if 0x41 <= name[0] <= 0x5a then name[0] + 0x20 else name[0]] + LowerAscii(name[1..])
  }

  predicate ValidComponent(name: Bytes) {
    && name != [] && name != [DOT] && name != [DOT, DOT]
    && LowerAscii(name) != GIT && LowerAscii(name) != NODE_MODULES
  }

  /** The check of `validateGitPath`. Lower-casing is ASCII here: no other letter
      lowers to the letters of the two forbidden names. */
  predicate ValidGitPath(path: Bytes) {
    && 0 < |path| <= MAX_GIT_PATH_BYTES
    && path[0] != SLASH
    && (forall i :: 0 <= i < |path| ==> path[i] >= 0x20 && path[i] != 0x7f && path[i] != 0x5c)
    && DecodeUtf8(path).Some?
    && |Split(path)| <= MAX_GIT_TREE_DEPTH
    && (forall i :: 0 <= i < |Split(path)| ==> ValidComponent(Split(path)[i]))
  }

  lemma {:induction false} JoinOfSplit(path: Bytes)
    ensures Join(Split(path)) == path
  {
    if path != [] {
      JoinOfSplit(path[1..]);
      var rest := Split(path[1..]);
      assert path == [path[0]] + path[1..];
      if path[0] == SLASH {
        assert Split(path)[1..] == rest;
      } else if |rest| > 1 {
        assert Split(path)[1..] == rest[1..];
      }
    }
  }

  lemma {:induction false} SplitPlain(name: Bytes)
    requires SLASH !in name
    ensures Split(name) == [name]
  {
    if name != [] {
      SplitPlain(name[1..]);
      assert name == [name[0]] + name[1..];
    }
  }

  lemma {:induction false} SplitAfterSlash(name: Bytes, rest: Bytes)
    requires SLASH !in name
    ensures Split(name + [SLASH] + rest) == [name] + Split(rest)
  {
    var path := name + [SLASH] + rest;
    if name == [] {
      assert path[1..] == rest;
    } else {
      assert path[1..] == name[1..] + [SLASH] + rest;
      SplitAfterSlash(name[1..], rest);
      assert name == [name[0]] + name[1..];
      assert ([name[1..]] + Split(rest))[1..] == Split(rest);
    }
  }

  lemma {:induction false} SplitOfJoin(parts: seq<Bytes>)
    requires parts != [] && forall i :: 0 <= i < |parts| ==> SLASH !in parts[i]
    ensures Split(Join(parts)) == parts
  {
    if |parts| == 1 {
      SplitPlain(parts[0]);
    } else {
      SplitOfJoin(parts[1..]);
      SplitAfterSlash(parts[0], Join(parts[1..]));
      assert parts == [parts[0]] + parts[1..];
    }
  }

  // Which paths are valid

  /** The same letters, whatever their case. */
  predicate SameLetters(name: Bytes, small: Bytes) {
    |name| == |small| && forall i :: 0 <= i < |name| ==>
      name[i] == small[i] || (0x61 <= small[i] <= 0x7a && name[i] == small[i] - 0x20)
  }

  lemma {:induction false} LowerIs(name: Bytes, small: Bytes)
    requires forall i :: 0 <= i < |small| ==> !(0x41 <= small[i] <= 0x5a)
    ensures LowerAscii(name) == small <==> SameLetters(name, small)
  {
    if name != [] && small != [] {
      LowerIs(name[1..], small[1..]);
      assert small == [small[0]] + small[1..];
      assert forall i :: 0 < i < |name| ==> name[i] == name[1..][i - 1];
      assert forall i :: 0 < i < |small| ==> small[i] == small[1..][i - 1];
    }
  }

  /** A component is visible ASCII or not ASCII, without a backslash, and none of the refused names. */
  predicate PortablePart(part: Bytes) {
    && part != Ascii("") && part != Ascii(".") && part != Ascii("..")
    && !SameLetters(part, Ascii(".git")) && !SameLetters(part, Ascii("node_modules"))
    && forall b :: b in part ==> b >= 0x20 && b != 0x7f && b != 0x5c && b != 0x2f
  }

  lemma PartIs(part: Bytes)
    requires SLASH !in part
    ensures PortablePart(part) <==>
      ValidComponent(part) && forall b :: b in part ==> b >= 0x20 && b != 0x7f && b != 0x5c
  {
    assert Ascii("") == [] && Ascii(".") == [DOT] && Ascii("..") == [DOT, DOT];
    assert Ascii(".git") == GIT && Ascii("node_modules") == NODE_MODULES;
    LowerIs(part, GIT);
    LowerIs(part, NODE_MODULES);
  }

  lemma {:induction false} JoinHas(parts: seq<Bytes>, b: Byte)
    requires parts != []
    ensures b in Join(parts) <==> (b == SLASH && |parts| > 1) || exists i :: 0 <= i < |parts| && b in parts[i]
  {
    if |parts| > 1 {
      JoinHas(parts[1..], b);
      if i :| 0 <= i < |parts[1..]| && b in parts[1..][i] { assert b in parts[i + 1]; }
      if i :| 0 < i < |parts| && b in parts[i] { assert b in parts[1..][i - 1]; }
    }
  }

  predicate Portable(b: Byte) { b >= 0x20 && b != 0x7f && b != 0x5c }

  lemma BytesPortable(parts: seq<Bytes>)
    requires parts != []
    ensures (forall i :: 0 <= i < |Join(parts)| ==> Portable(Join(parts)[i])) <==>
      forall i, b :: 0 <= i < |parts| && b in parts[i] ==> Portable(b)
  {
    var path := Join(parts);
    if forall i :: 0 <= i < |path| ==> Portable(path[i]) {
      forall i, b | 0 <= i < |parts| && b in parts[i] ensures Portable(b) {
        JoinHas(parts, b);
        var k :| 0 <= k < |path| && path[k] == b;
      }
    }
    if forall i, b :: 0 <= i < |parts| && b in parts[i] ==> Portable(b) {
      forall i | 0 <= i < |path| ensures Portable(path[i]) { JoinHas(parts, path[i]); }
    }
  }

  /** A path is valid exactly when it is the join of at most 64 portable components, in at most 4096
      bytes of UTF-8. */
  lemma ValidExactly(parts: seq<Bytes>)
    requires parts != [] && forall i :: 0 <= i < |parts| ==> SLASH !in parts[i]
    ensures ValidGitPath(Join(parts)) <==>
      && |Join(parts)| <= 4096 && |parts| <= 64 && DecodeUtf8(Join(parts)).Some?
      && forall i :: 0 <= i < |parts| ==> PortablePart(parts[i])
  {
    var path := Join(parts);
    SplitOfJoin(parts);
    BytesPortable(parts);
    forall i | 0 <= i < |parts|
      ensures PortablePart(parts[i]) <==> ValidComponent(parts[i]) && forall b :: b in parts[i] ==> Portable(b) {
      PartIs(parts[i]);
    }
    assert parts[0] != [] ==> path != [] && path[0] == parts[0][0] && path[0] in parts[0];
    assert ValidGitPath(path) <==>
      && 0 < |path| <= 4096 && path[0] != SLASH && (forall i :: 0 <= i < |path| ==> Portable(path[i]))
      && DecodeUtf8(path).Some? && |parts| <= 64 && forall i :: 0 <= i < |parts| ==> ValidComponent(parts[i]);
  }
}
