/** What is listed twice is read twice, and collected as if it were read once (filesystem.ts). */
module TreeRepeats {
  import opened Wrappers
  import opened Unicode
  import opened Spelling
  import opened TreeListing
  import opened TreeCollect
  import opened TreeEntries
  import opened TreeWalk

  /** The same entries, and no more bytes counted. */
  ghost predicate Ahead(s: Collected, t: Collected) {
    s.entries == t.entries && t.total <= s.total && DistinctKeys(s.entries)
  }

  lemma StepAhead(digest: Digest, s: Collected, t: Collected, v: Visit)
    requires Ahead(s, t) && Step(digest, Some(s), v).Some?
    ensures Step(digest, Some(t), v).Some? && Ahead(Step(digest, Some(s), v).value, Step(digest, Some(t), v).value)
    ensures s.total <= Step(digest, Some(s), v).value.total
  {
    if v.node.File? { PutKeys(s.entries, Spelled(v.path), EntryOf(digest, v.node)); }
  }

  lemma {:induction false} FoldAhead(digest: Digest, s: Collected, t: Collected, visits: seq<Visit>)
    requires Ahead(s, t) && Fold(digest, Some(s), visits).Some?
    ensures Fold(digest, Some(t), visits).Some?
    ensures Ahead(Fold(digest, Some(s), visits).value, Fold(digest, Some(t), visits).value)
    ensures s.total <= Fold(digest, Some(s), visits).value.total
    decreases |visits|
  {
    if visits != [] {
      if Step(digest, Some(s), visits[0]).None? { FoldNone(digest, visits[1..]); }
      StepAhead(digest, s, t, visits[0]);
      FoldAhead(digest, Step(digest, Some(s), visits[0]).value, Step(digest, Some(t), visits[0]).value, visits[1..]);
    }
  }

  // What visits put, as a map

  function Puts(digest: Digest, visits: seq<Visit>): map<Bytes, Entry> {
    if visits == [] then map[]
    else
      var n := |visits| - 1;
      if visits[n].node.File? then Puts(digest, visits[..n])[Spelled(visits[n].path) := EntryOf(digest, visits[n].node)]
      else Puts(digest, visits[..n])
  }

  lemma StepPuts(digest: Digest, s: Collected, v: Visit)
    requires DistinctKeys(s.entries) && Step(digest, Some(s), v).Some?
    ensures
      var after := Step(digest, Some(s), v).value.entries;
      && DistinctKeys(after)
      && Values(after) == (if v.node.File? then Values(s.entries)[Spelled(v.path) := EntryOf(digest, v.node)] else Values(s.entries))
      && ((v.node.File? ==> Spelled(v.path) in Values(s.entries)) ==> Keys(after) == Keys(s.entries))
  {
    if v.node.File? {
      PutKeys(s.entries, Spelled(v.path), EntryOf(digest, v.node));
      PutValues(s.entries, Spelled(v.path), EntryOf(digest, v.node));
      ValuesKeys(s.entries, Spelled(v.path));
    }
  }

  lemma {:induction false} FoldPuts(digest: Digest, s: Collected, visits: seq<Visit>)
    requires DistinctKeys(s.entries) && Fold(digest, Some(s), visits).Some?
    ensures
      var end := Fold(digest, Some(s), visits).value;
      && DistinctKeys(end.entries) && Values(end.entries) == Values(s.entries) + Puts(digest, visits)
      && (Puts(digest, visits).Keys <= Values(s.entries).Keys ==> Keys(end.entries) == Keys(s.entries))
    decreases |visits|
  {
    if visits != [] {
      var n := |visits| - 1;
      assert visits == visits[..n] + [visits[n]];
      FoldOne(digest, Some(s), visits[..n], visits[n]);
      FoldPuts(digest, s, visits[..n]);
      StepPuts(digest, Fold(digest, Some(s), visits[..n]).value, visits[n]);
      if visits[n].node.File? {
        Overrides(Values(s.entries), Puts(digest, visits[..n]), Spelled(visits[n].path), EntryOf(digest, visits[n].node));
      }
    }
  }

  lemma Overrides<K, V>(a: map<K, V>, b: map<K, V>, k: K, v: V)
    ensures a + b[k := v] == (a + b)[k := v]
    ensures b.Keys <= b[k := v].Keys && k in b[k := v].Keys
  {
  }

  /** The visits have been made, and nothing has changed their entries since. */
  ghost predicate Held(digest: Digest, s: Collected, visits: seq<Visit>) {
    DistinctKeys(s.entries) && Values(s.entries) + Puts(digest, visits) == Values(s.entries)
  }

  lemma FoldHolds(digest: Digest, s: Collected, visits: seq<Visit>)
    requires DistinctKeys(s.entries) && Fold(digest, Some(s), visits).Some?
    ensures Held(digest, Fold(digest, Some(s), visits).value, visits)
  {
    FoldPuts(digest, s, visits);
  }

  /** Making the same visits again changes no entry. */
  lemma FoldHeld(digest: Digest, s: Collected, visits: seq<Visit>)
    requires Held(digest, s, visits) && Fold(digest, Some(s), visits).Some?
    ensures Fold(digest, Some(s), visits).value.entries == s.entries
  {
    FoldPuts(digest, s, visits);
    assert Puts(digest, visits).Keys <= (Values(s.entries) + Puts(digest, visits)).Keys;
    SameEntries(Fold(digest, Some(s), visits).value.entries, s.entries);
  }

  // Repeats

  function Blocks(times: nat, block: seq<Visit>): seq<Visit> {
    if times == 0 then [] else block + Blocks(times - 1, block)
  }

  lemma {:induction false} BlocksHeld(digest: Digest, s: Collected, t: Collected, times: nat, block: seq<Visit>)
    requires Held(digest, s, block) && Ahead(s, t) && Fold(digest, Some(s), Blocks(times, block)).Some?
    ensures Ahead(Fold(digest, Some(s), Blocks(times, block)).value, t)
    decreases times
  {
    if times > 0 {
      FoldParts(digest, s, block, Blocks(times - 1, block));
      FoldHeld(digest, s, block);
      FoldAhead(digest, s, t, block);
      BlocksHeld(digest, Fold(digest, Some(s), block).value, t, times - 1, block);
    }
  }

  /** Wherever the visits u are collected, so are the visits v, with the same entries. */
  ghost predicate Bridges(digest: Digest, u: seq<Visit>, v: seq<Visit>) {
    forall s, t :: Ahead(s, t) && Fold(digest, Some(s), u).Some? ==>
      Fold(digest, Some(t), v).Some? && Ahead(Fold(digest, Some(s), u).value, Fold(digest, Some(t), v).value)
  }

  lemma BridgesItself(digest: Digest, visits: seq<Visit>)
    ensures Bridges(digest, visits, visits)
  {
    forall s, t | Ahead(s, t) && Fold(digest, Some(s), visits).Some?
      ensures Fold(digest, Some(t), visits).Some?
      ensures Ahead(Fold(digest, Some(s), visits).value, Fold(digest, Some(t), visits).value)
    {
      FoldAhead(digest, s, t, visits);
    }
  }

  lemma FoldParts(digest: Digest, s: Collected, a: seq<Visit>, b: seq<Visit>)
    requires Fold(digest, Some(s), a + b).Some?
    ensures Fold(digest, Some(s), a).Some?
    ensures Fold(digest, Some(s), a + b) == Fold(digest, Some(Fold(digest, Some(s), a).value), b)
  {
    FoldConcat(digest, Some(s), a, b);
    if Fold(digest, Some(s), a).None? { FoldNone(digest, b); }
  }

  lemma BridgesConcat(digest: Digest, a: seq<Visit>, b: seq<Visit>, c: seq<Visit>, d: seq<Visit>)
    requires Bridges(digest, a, c) && Bridges(digest, b, d)
    ensures Bridges(digest, a + b, c + d)
  {
    forall s, t | Ahead(s, t) && Fold(digest, Some(s), a + b).Some?
      ensures Fold(digest, Some(t), c + d).Some?
      ensures Ahead(Fold(digest, Some(s), a + b).value, Fold(digest, Some(t), c + d).value)
    {
      FoldParts(digest, s, a, b);
      FoldConcat(digest, Some(t), c, d);
      assert Ahead(Fold(digest, Some(s), a).value, Fold(digest, Some(t), c).value);
    }
  }

  lemma BlocksAfter(digest: Digest, s: Collected, once: Collected, t: Collected, times: nat, block: seq<Visit>)
    requires times > 0 && DistinctKeys(s.entries) && Fold(digest, Some(s), block) == Some(once) && Ahead(once, t)
    requires Fold(digest, Some(s), Blocks(times, block)).Some?
    ensures Ahead(Fold(digest, Some(s), Blocks(times, block)).value, t)
  {
    FoldParts(digest, s, block, Blocks(times - 1, block));
    FoldHolds(digest, s, block);
    BlocksHeld(digest, once, t, times - 1, block);
  }

  lemma BridgesBlocks(digest: Digest, times: nat, u: seq<Visit>, v: seq<Visit>)
    requires times > 0 && Bridges(digest, u, v)
    ensures Bridges(digest, Blocks(times, u), v)
  {
    forall s, t | Ahead(s, t) && Fold(digest, Some(s), Blocks(times, u)).Some?
      ensures Fold(digest, Some(t), v).Some?
      ensures Ahead(Fold(digest, Some(s), Blocks(times, u)).value, Fold(digest, Some(t), v).value)
    {
      FoldParts(digest, s, u, Blocks(times - 1, u));
      BlocksAfter(digest, s, Fold(digest, Some(s), u).value, Fold(digest, Some(t), v).value, times, u);
    }
  }

  // The walk

  lemma ReadOnce(children: map<Bytes, Raw>, name: Bytes)
    requires name in ReadNames(children)
    ensures |ReadAs(children, name)| > 0
  {
    var n :| n in children && Lossy(n) == name;
    assert n in ReadAs(children, name);
  }

  lemma {:induction false} BlocksOfOne(times: nat, v: Visit)
    ensures |Blocks(times, [v])| == times && forall i :: 0 <= i < times ==> Blocks(times, [v])[i] == v
  {
    if times > 0 { BlocksOfOne(times - 1, v); }
  }

  lemma RepeatedEntries(prefix: Path, children: map<Bytes, Node>, times: nat, name: Bytes)
    requires name in children
    ensures TreeListing.Entries(prefix, children, Repeated(times, name)) ==
      Blocks(times, TreeListing.Entries(prefix, children, [name]))
  {
    var names := Repeated(times, name);
    assert TreeListing.Entries(prefix, children, [name]) == [Visit(prefix + [name], children[name])];
    BlocksOfOne(times, Visit(prefix + [name], children[name]));
    assert forall i :: 0 <= i < times ==> names[i] in names;
  }

  lemma {:induction false} RepeatedBelow(prefix: Path, dir: Folder, times: nat, name: Bytes)
    requires name in Seen(dir).children
    ensures RawBelow(prefix, dir, Repeated(times, name)) == Blocks(times, Inside(prefix, dir, name))
    decreases times
  {
    if times > 0 {
      assert Repeated(times, name)[..times - 1] == Repeated(times - 1, name);
      RepeatedBelow(prefix, dir, times - 1, name);
    }
  }

  lemma {:induction false} RawBelowConcat(prefix: Path, dir: Folder, a: seq<Bytes>, b: seq<Bytes>)
    requires (forall n :: n in a ==> n in Seen(dir).children) && forall n :: n in b ==> n in Seen(dir).children
    ensures RawBelow(prefix, dir, a + b) == RawBelow(prefix, dir, b) + RawBelow(prefix, dir, a)
    decreases |b|
  {
    if b == [] {
      assert a + b == a && [] + RawBelow(prefix, dir, a) == RawBelow(prefix, dir, a);
    } else {
      var n := |b| - 1;
      RawBelowConcat(prefix, dir, a, b[..n]);
      assert (a + b)[..|a + b| - 1] == a + b[..n] && (a + b)[|a + b| - 1] == b[n];
      Regroup(Inside(prefix, dir, b[n]), RawBelow(prefix, dir, b[..n]), RawBelow(prefix, dir, a));
    }
  }

  lemma {:induction false} EntriesBridge(digest: Digest, prefix: Path, dir: Folder, names: seq<Bytes>)
    requires forall n :: n in names ==> n in Seen(dir).children
    ensures Bridges(digest, TreeListing.Entries(prefix, Seen(dir).children, Spread(dir.children, names)),
                    TreeListing.Entries(prefix, Seen(dir).children, names))
    decreases |names|
  {
    if names == [] {
      BridgesItself(digest, []);
    } else {
      var n := |names| - 1;
      EntriesBridge(digest, prefix, dir, names[..n]);
      assert names == names[..n] + [names[n]];
      LastBridges(digest, prefix, dir, Spread(dir.children, names[..n]), names[..n], names[n]);
    }
  }

  lemma LastBridges(digest: Digest, prefix: Path, dir: Folder, spread: seq<Bytes>, names: seq<Bytes>, last: Bytes)
    requires (forall n :: n in names ==> n in Seen(dir).children) && last in Seen(dir).children
    requires forall n :: n in spread ==> n in Seen(dir).children
    requires Bridges(digest, TreeListing.Entries(prefix, Seen(dir).children, spread),
                     TreeListing.Entries(prefix, Seen(dir).children, names))
    ensures Bridges(digest, TreeListing.Entries(prefix, Seen(dir).children, spread + Repeated(|ReadAs(dir.children, last)|, last)),
                    TreeListing.Entries(prefix, Seen(dir).children, names + [last]))
  {
    var children, times := Seen(dir).children, |ReadAs(dir.children, last)|;
    var visit := TreeListing.Entries(prefix, children, [last]);
    ReadOnce(dir.children, last);
    BridgesItself(digest, visit);
    BridgesBlocks(digest, times, visit, visit);
    RepeatedEntries(prefix, children, times, last);
    EntriesLast(prefix, children, spread, Repeated(times, last));
    EntriesLast(prefix, children, names, [last]);
    BridgesConcat(digest, TreeListing.Entries(prefix, children, spread), Blocks(times, visit),
                  TreeListing.Entries(prefix, children, names), visit);
  }

  lemma EntriesLast(prefix: Path, children: map<Bytes, Node>, a: seq<Bytes>, b: seq<Bytes>)
    requires (forall n :: n in a ==> n in children) && forall n :: n in b ==> n in children
    ensures TreeListing.Entries(prefix, children, a + b) ==
      TreeListing.Entries(prefix, children, a) + TreeListing.Entries(prefix, children, b)
  {
  }

  lemma {:induction false} BelowBridges(digest: Digest, prefix: Path, dir: Folder, names: seq<Bytes>)
    requires forall n :: n in names ==> n in Seen(dir).children
    ensures Bridges(digest, RawBelow(prefix, dir, Spread(dir.children, names)), Below(prefix, Seen(dir), names))
    decreases dir, 0, |names|
  {
    if names == [] {
      BridgesItself(digest, []);
    } else {
      var n := |names| - 1;
      var last, times := names[n], |ReadAs(dir.children, names[n])|;
      var node := Seen(dir).children[last];
      var block := if node.Dir? then Listing(prefix + [last], node) else [];
      InsideBridges(digest, prefix, dir, last);
      BelowBridges(digest, prefix, dir, names[..n]);
      ReadOnce(dir.children, last);
      BridgesBlocks(digest, times, Inside(prefix, dir, last), block);
      RepeatedBelow(prefix, dir, times, last);
      RawBelowConcat(prefix, dir, Spread(dir.children, names[..n]), Repeated(times, last));
      BridgesConcat(digest, Blocks(times, Inside(prefix, dir, last)), RawBelow(prefix, dir, Spread(dir.children, names[..n])),
                    block, Below(prefix, Seen(dir), names[..n]));
    }
  }

  lemma {:induction false} InsideBridges(digest: Digest, prefix: Path, dir: Folder, name: Bytes)
    requires name in Seen(dir).children
    ensures
      var node := Seen(dir).children[name];
      Bridges(digest, Inside(prefix, dir, name), if node.Dir? then Listing(prefix + [name], node) else [])
    decreases dir, 0, 0
  {
    if Look(dir, name).Dir? {
      ListingBridges(digest, prefix + [name], dir.children[name]);
    } else {
      BridgesItself(digest, []);
    }
  }

  lemma {:induction false} ListingBridges(digest: Digest, prefix: Path, dir: Folder)
    ensures Bridges(digest, RawListing(prefix, dir), Listing(prefix, Seen(dir)))
    decreases dir, 1
  {
    var names := Names(Seen(dir).children);
    EntriesBridge(digest, prefix, dir, names);
    BelowBridges(digest, prefix, dir, names);
    BridgesConcat(digest, Scan(prefix, dir), RawBelow(prefix, dir, Listed(dir)),
                  TreeListing.Entries(prefix, Seen(dir).children, names), Below(prefix, Seen(dir), names));
  }

  /** A walk that does not fail collects what one that reads every name once would collect. */
  lemma RepeatsUnseen(digest: Digest, root: Folder)
    requires RawCollect(digest, root).Some?
    ensures Collect(digest, Seen(root)).Some?
    ensures Collect(digest, Seen(root)).value.entries == RawCollect(digest, root).value.entries
    ensures Collect(digest, Seen(root)).value.total <= RawCollect(digest, root).value.total
    ensures DistinctKeys(RawCollect(digest, root).value.entries)
  {
    ListingBridges(digest, [], root);
    assert Ahead(START.value, START.value);
  }
}
