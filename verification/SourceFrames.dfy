/** Reading framed entries back by absolute offsets. */
module SourceFrames {
  import opened Wrappers
  import opened Unicode
  import opened BigEndian
  import opened GitPath
  import opened GitTree
  import opened SourceHeader
  import opened SourceBundle
  import Order

  /** The frame at the front of b and its length. */
  function DecodeFrame(b: Bytes): Option<(Entry, nat)> {
    if |b| < FRAME_PREFIX_BYTES then None
    else
      var path, content := Read32(b[..4]), Read64(b[5..13]);
      if path == 0 || path > MAX_GIT_PATH_BYTES || b[4] > 1 || content > MAX_SOURCE_FILE_BYTES then None
      else if 13 + path + content > |b| then None
      else Some((Entry(b[13..13 + path], File(b[4] == 1, b[13 + path..13 + path + content])), 13 + path + content))
  }

  lemma DecodeOfFrame(e: Entry, rest: Bytes)
    requires FrameFits(e)
    ensures DecodeFrame(Frame(e) + rest) == Some((e, |Frame(e)|))
  {
    var b := Frame(e) + rest;
    Read32OfU32(|e.path|);
    Read64OfU64(|e.file.content|);
    assert b[..4] == U32(|e.path|) && b[5..13] == U64(|e.file.content|);
    assert b[4] == if e.file.executable then 1 else 0;
    assert b[13..13 + |e.path|] == e.path;
    assert b[13 + |e.path|..13 + |e.path| + |e.file.content|] == e.file.content;
  }

  lemma FrameOfDecode(b: Bytes)
    requires DecodeFrame(b).Some?
    ensures var (e, n) := DecodeFrame(b).value;
      FrameFits(e) && n <= |b| && Frame(e) == b[..n]
  {
    var (e, n) := DecodeFrame(b).value;
    U32OfRead32(b[..4]);
    U64OfRead64(b[5..13]);
    assert b[..n] == b[..4] + [b[4]] + b[5..13] + e.path + e.file.content;
  }

  /** `checkedEnd`. */
  method CheckedEnd(offset: nat, length: nat, available: nat) returns (r: Option<nat>)
    ensures r == if offset + length > available then None else Some(offset + length)
  {
    var end := offset + length;
    if end > available {
      return None;
    }
    r := Some(end);
  }

  /** One turn of the entry loop, at an absolute offset; it never reads past the end. */
  method ReadFrame(bytes: Bytes, start: nat) returns (r: Option<(Entry, nat)>)
    requires start <= |bytes|
    ensures r == match DecodeFrame(bytes[start..])
                 case None => None
                 case Some(frame) => Some((frame.0, start + frame.1))
  {
    var b := bytes[start..];
    var prefixEnd := CheckedEnd(start, FRAME_PREFIX_BYTES, |bytes|);
    if prefixEnd.None? {
      return None;
    }
    var offset := start;
    assert bytes[offset..offset + 4] == b[..4] && bytes[offset + 5..offset + 13] == b[5..13];
    var pathLength := Read32(bytes[offset..offset + 4]);
    offset := offset + 4;
    var modeByte := bytes[offset];
    offset := offset + 1;
    var contentLength := Read64(bytes[offset..offset + 8]);
    if pathLength == 0 || pathLength > MAX_GIT_PATH_BYTES {
      return None;
    }
    if modeByte != 0 && modeByte != 1 {
      return None;
    }
    if contentLength > MAX_SOURCE_FILE_BYTES {
      return None;
    }
    var pathEnd := CheckedEnd(prefixEnd.value, pathLength, |bytes|);
    if pathEnd.None? {
      return None;
    }
    var path := bytes[prefixEnd.value..pathEnd.value];
    var contentEnd := CheckedEnd(pathEnd.value, contentLength, |bytes|);
    if contentEnd.None? {
      return None;
    }
    var content := bytes[pathEnd.value..contentEnd.value];
    assert path == b[13..13 + pathLength] && content == b[13 + pathLength..13 + pathLength + contentLength];
    r := Some((Entry(path, File(modeByte == 1, content)), contentEnd.value));
  }

  /** Entries a bundle may hold, for any path check. */
  predicate Listable(entries: seq<Entry>, valid: Bytes -> bool) {
    && AllFit(entries) && ByteOrdered(entries) && TotalBytes(entries) <= MAX_SOURCE_TOTAL_BYTES
    && forall i :: 0 <= i < |entries| ==> valid(entries[i].path)
  }

  /** The bytes from `start` are the frames of these entries, and then `rest`. */
  ghost predicate Spelled(bytes: Bytes, start: nat, valid: Bytes -> bool, entries: seq<Entry>, rest: Bytes) {
    start <= |bytes| && Listable(entries, valid) && bytes[start..] == Frames(entries) + rest
  }

  lemma {:induction false} FramesSnoc(entries: seq<Entry>, e: Entry)
    requires AllFit(entries) && FrameFits(e)
    ensures AllFit(entries + [e]) && Frames(entries + [e]) == Frames(entries) + Frame(e)
    ensures TotalBytes(entries + [e]) == TotalBytes(entries) + |e.file.content|
  {
    if entries == [] {
      assert entries + [e] == [e] && [e][1..] == [];
      assert Frames([e]) == Frame(e);
    } else {
      FramesSnoc(entries[1..], e);
      assert (entries + [e])[1..] == entries[1..] + [e];
    }
  }

  lemma {:induction false} TotalOfPrefix(entries: seq<Entry>, k: nat)
    requires k <= |entries|
    ensures TotalBytes(entries[..k]) <= TotalBytes(entries)
  {
    if k > 0 {
      assert entries[..k][1..] == entries[1..][..k - 1];
      TotalOfPrefix(entries[1..], k - 1);
    }
  }

  /** The position after k entries of a spelled list. */
  ghost predicate At(bytes: Bytes, offset: nat, entries: seq<Entry>, k: nat, rest: Bytes) {
    k <= |entries| && offset <= |bytes| && AllFit(entries) && bytes[offset..] == Frames(entries[k..]) + rest
  }

  // At a spelled position the next frame decodes to the next entry.
  lemma NextEntry(bytes: Bytes, offset: nat, entries: seq<Entry>, k: nat, rest: Bytes)
    requires At(bytes, offset, entries, k, rest) && k < |entries|
    ensures DecodeFrame(bytes[offset..]) == Some((entries[k], |Frame(entries[k])|))
    ensures At(bytes, offset + |Frame(entries[k])|, entries, k + 1, rest)
  {
    var b, frame := bytes[offset..], Frame(entries[k]);
    assert entries[k..][0] == entries[k] && entries[k..][1..] == entries[k + 1..];
    assert b == frame + (Frames(entries[k + 1..]) + rest);
    DecodeOfFrame(entries[k], Frames(entries[k + 1..]) + rest);
    assert bytes[offset + |frame|..] == b[|frame|..];
  }

  /** Every spelled list of this many entries agrees with what was read so far. */
  ghost predicate Agrees(bytes: Bytes, start: nat, valid: Bytes -> bool, count: nat, entries: seq<Entry>, offset: nat) {
    forall es, rest :: Spelled(bytes, start, valid, es, rest) && |es| == count ==>
      |entries| <= count && es[..|entries|] == entries && At(bytes, offset, es, |entries|, rest)
  }

  lemma AgreesAtStart(bytes: Bytes, start: nat, valid: Bytes -> bool, count: nat)
    requires start <= |bytes|
    ensures Agrees(bytes, start, valid, count, [], start)
  {
    forall es, rest | Spelled(bytes, start, valid, es, rest) && |es| == count ensures At(bytes, start, es, 0, rest) {
      assert es[0..] == es;
    }
  }

  // If some list is spelled, the loop accepts its next entry.
  lemma AgreesStep(bytes: Bytes, start: nat, valid: Bytes -> bool, count: nat, entries: seq<Entry>, offset: nat,
                   es: seq<Entry>, rest: Bytes)
    requires Agrees(bytes, start, valid, count, entries, offset) && |entries| < count && offset <= |bytes|
    requires Spelled(bytes, start, valid, es, rest) && |es| == count
    ensures var e := es[|entries|];
      && DecodeFrame(bytes[offset..]) == Some((e, |Frame(e)|))
      && valid(e.path)
      && (entries != [] ==> Order.Less(entries[|entries| - 1].path, e.path))
      && TotalBytes(entries) + |e.file.content| <= MAX_SOURCE_TOTAL_BYTES
      && es[..|entries| + 1] == entries + [e]
      && At(bytes, offset + |Frame(e)|, es, |entries| + 1, rest)
  {
    NextEntry(bytes, offset, es, |entries|, rest);
    ListedNext(es, valid, entries);
  }

  lemma ListedNext(es: seq<Entry>, valid: Bytes -> bool, entries: seq<Entry>)
    requires Listable(es, valid) && |entries| < |es| && es[..|entries|] == entries
    ensures var e := es[|entries|];
      && valid(e.path)
      && (entries != [] ==> Order.Less(entries[|entries| - 1].path, e.path))
      && TotalBytes(entries) + |e.file.content| <= MAX_SOURCE_TOTAL_BYTES
      && es[..|entries| + 1] == entries + [e]
  {
    var k := |entries|;
    assert es[..k + 1] == entries + [es[k]];
    TotalSnoc(entries, es[k]);
    TotalOfPrefix(es, k + 1);
    if k > 0 { assert entries[k - 1] == es[k - 1]; }
  }

  lemma ListableSnoc(entries: seq<Entry>, valid: Bytes -> bool, e: Entry)
    requires Listable(entries, valid) && FrameFits(e) && valid(e.path)
    requires entries != [] ==> Order.Less(entries[|entries| - 1].path, e.path)
    requires TotalBytes(entries) + |e.file.content| <= MAX_SOURCE_TOTAL_BYTES
    ensures Listable(entries + [e], valid)
    ensures Frames(entries + [e]) == Frames(entries) + Frame(e)
    ensures TotalBytes(entries + [e]) == TotalBytes(entries) + |e.file.content|
  {
    FramesSnoc(entries, e);
    OrderedSnoc(entries, e);
    ValidSnoc(entries, valid, e);
  }

  lemma ValidSnoc(entries: seq<Entry>, valid: Bytes -> bool, e: Entry)
    requires valid(e.path) && forall i :: 0 <= i < |entries| ==> valid(entries[i].path)
    ensures forall i :: 0 <= i < |entries + [e]| ==> valid((entries + [e])[i].path)
  {
    assert forall i :: 0 <= i < |entries| ==> (entries + [e])[i] == entries[i];
  }

  lemma OrderedSnoc(entries: seq<Entry>, e: Entry)
    requires ByteOrdered(entries)
    requires entries != [] ==> Order.Less(entries[|entries| - 1].path, e.path)
    ensures ByteOrdered(entries + [e])
  {
    var all := entries + [e];
    forall i | 0 < i < |all| ensures Order.Less(all[i - 1].path, all[i].path) {
      if i < |entries| { assert Order.Less(entries[i - 1].path, entries[i].path); }
    }
  }

  /** The checks one turn of the loop makes on the frame it decoded. */
  predicate Accepts(frame: Option<(Entry, nat)>, valid: Bytes -> bool, entries: seq<Entry>) {
    && frame.Some?
    && valid(frame.value.0.path)
    && (entries != [] ==> Order.Less(entries[|entries| - 1].path, frame.value.0.path))
    && TotalBytes(entries) + |frame.value.0.file.content| <= MAX_SOURCE_TOTAL_BYTES
  }

  /** What the loop knows after some entries. */
  ghost predicate Reading(bytes: Bytes, start: nat, valid: Bytes -> bool, count: nat, entries: seq<Entry>, offset: nat) {
    && start <= offset <= |bytes| && |entries| <= count
    && Listable(entries, valid)
    && bytes[start..offset] == Frames(entries)
    && Agrees(bytes, start, valid, count, entries, offset)
  }

  ghost predicate NothingSpelled(bytes: Bytes, start: nat, valid: Bytes -> bool, count: nat) {
    forall es, rest :: Spelled(bytes, start, valid, es, rest) ==> |es| != count
  }

  lemma ReadingAccepts(bytes: Bytes, start: nat, valid: Bytes -> bool, count: nat, entries: seq<Entry>, offset: nat,
                       e: Entry, n: nat)
    requires Reading(bytes, start, valid, count, entries, offset) && |entries| < count
    requires DecodeFrame(bytes[offset..]) == Some((e, n)) && Accepts(Some((e, n)), valid, entries)
    ensures Reading(bytes, start, valid, count, entries + [e], offset + n)
  {
    FrameOfDecode(bytes[offset..]);
    ListableSnoc(entries, valid, e);
    MorePrefix(bytes, start, offset, n);
    AgreesSnoc(bytes, start, valid, count, entries, offset, e, n);
  }

  lemma MorePrefix(bytes: Bytes, start: nat, offset: nat, n: nat)
    requires start <= offset && offset + n <= |bytes|
    ensures bytes[start..offset + n] == bytes[start..offset] + bytes[offset..][..n]
  {
  }

  lemma ReadingRejects(bytes: Bytes, start: nat, valid: Bytes -> bool, count: nat, entries: seq<Entry>, offset: nat,
                       frame: Option<(Entry, nat)>)
    requires Reading(bytes, start, valid, count, entries, offset) && |entries| < count
    requires DecodeFrame(bytes[offset..]) == frame && !Accepts(frame, valid, entries)
    ensures NothingSpelled(bytes, start, valid, count)
  {
    forall es, rest | Spelled(bytes, start, valid, es, rest) ensures |es| != count {
      if |es| == count { AgreesStep(bytes, start, valid, count, entries, offset, es, rest); }
    }
  }

  lemma AgreesSnoc(bytes: Bytes, start: nat, valid: Bytes -> bool, count: nat, entries: seq<Entry>, offset: nat,
                   e: Entry, n: nat)
    requires Agrees(bytes, start, valid, count, entries, offset) && |entries| < count && offset <= |bytes|
    requires DecodeFrame(bytes[offset..]) == Some((e, n))
    ensures Agrees(bytes, start, valid, count, entries + [e], offset + n)
  {
    forall es, rest | Spelled(bytes, start, valid, es, rest) && |es| == count
      ensures es[..|entries| + 1] == entries + [e] && At(bytes, offset + n, es, |entries| + 1, rest)
    {
      AgreesStep(bytes, start, valid, count, entries, offset, es, rest);
    }
  }

  lemma ReadingDone(bytes: Bytes, start: nat, valid: Bytes -> bool, count: nat, entries: seq<Entry>, offset: nat)
    requires Reading(bytes, start, valid, count, entries, offset) && |entries| == count
    ensures Spelled(bytes, start, valid, entries, bytes[offset..])
    ensures forall es, rest :: Spelled(bytes, start, valid, es, rest) && |es| == count ==>
      es == entries && bytes[offset..] == rest
  {
    assert bytes[start..] == bytes[start..offset] + bytes[offset..];
    forall es, rest | Spelled(bytes, start, valid, es, rest) && |es| == count
      ensures es == entries && bytes[offset..] == rest {
      assert At(bytes, offset, es, count, rest);
      assert es[..count] == es && es[count..] == [];
    }
  }

  /** The entry loop: it returns the spelled list of `count` entries, if there is one. */
  method ReadFrames(bytes: Bytes, start: nat, count: nat, valid: Bytes -> bool)
    returns (r: Option<(seq<Entry>, nat)>)
    requires start <= |bytes|
    ensures r.Some? ==>
      && r.value.1 <= |bytes| && |r.value.0| == count
      && Spelled(bytes, start, valid, r.value.0, bytes[r.value.1..])
    ensures forall es, rest :: Spelled(bytes, start, valid, es, rest) && |es| == count ==>
      r.Some? && r.value.0 == es && bytes[r.value.1..] == rest
  {
    var offset := start;
    var entries: seq<Entry> := [];
    var totalFileBytes := 0;
    var previousPath: Option<Bytes> := None;
    AgreesAtStart(bytes, start, valid, count);
    for index := 0 to count
      invariant |entries| == index
      invariant Reading(bytes, start, valid, count, entries, offset)
      invariant totalFileBytes == TotalBytes(entries)
      invariant previousPath == if index == 0 then None else Some(entries[index - 1].path)
    {
      ghost var decoded := DecodeFrame(bytes[offset..]);
      if !Accepts(decoded, valid, entries) {
        ReadingRejects(bytes, start, valid, count, entries, offset, decoded);
      }
      var frame := ReadFrame(bytes, offset);
      if frame.None? {
        return None;
      }
      var (entry, end) := frame.value;
      if !valid(entry.path) {
        return None;
      }
      if previousPath.Some? && !Order.Less(previousPath.value, entry.path) {
        return None;
      }
      previousPath := Some(entry.path);
      totalFileBytes := totalFileBytes + |entry.file.content|;
      if totalFileBytes > MAX_SOURCE_TOTAL_BYTES {
        return None;
      }
      TotalSnoc(entries, entry);
      ReadingAccepts(bytes, start, valid, count, entries, offset, entry, end - offset);
      entries := entries + [entry];
      offset := end;
    }
    ReadingDone(bytes, start, valid, count, entries, offset);
    r := Some((entries, offset));
  }

  lemma {:induction false} TotalSnoc(entries: seq<Entry>, e: Entry)
    ensures TotalBytes(entries + [e]) == TotalBytes(entries) + |e.file.content|
  {
    if entries == [] {
      assert entries + [e] == [e] && [e][1..] == [];
    } else {
      TotalSnoc(entries[1..], e);
      assert (entries + [e])[1..] == entries[1..] + [e];
    }
  }
}
