/** Collected entries as an insertion-ordered map (filesystem.ts). */
module TreeEntries {
  import opened Wrappers
  import opened Unicode
  import opened TreeListing
  import opened TreeCollect

  predicate HasKey(entries: Entries, key: Bytes) { exists i :: 0 <= i < |entries| && entries[i].0 == key }

  predicate DistinctKeys(entries: Entries) { forall i, j :: 0 <= i < j < |entries| ==> entries[i].0 != entries[j].0 }

  lemma {:induction false} PutKeys(entries: Entries, key: Bytes, entry: Entry)
    requires DistinctKeys(entries)
    ensures DistinctKeys(Put(entries, key, entry)) && (key, entry) in Put(entries, key, entry)
    ensures forall k :: HasKey(Put(entries, key, entry), k) <==> HasKey(entries, k) || k == key
    ensures |entries| <= |Put(entries, key, entry)|
  {
    var put := Put(entries, key, entry);
    if entries == [] {
      assert put[0] == (key, entry);
    } else {
      assert DistinctKeys(entries[1..]);
      PutKeys(entries[1..], key, entry);
      forall k ensures HasKey(entries, k) <==> entries[0].0 == k || HasKey(entries[1..], k) { HasKeyStep(entries, k); }
      forall k ensures HasKey(put, k) <==> put[0].0 == k || HasKey(put[1..], k) { HasKeyStep(put, k); }
      if entries[0].0 == key {
        assert put[1..] == entries[1..] && put[0] == (key, entry);
      } else {
        assert put[1..] == Put(entries[1..], key, entry);
        forall j | 0 < j < |put| ensures put[j].0 != put[0].0 {
          assert put[1..][j - 1] == put[j];
          assert HasKey(put[1..], put[j].0);
          assert forall i :: 0 <= i < |entries[1..]| ==> entries[1..][i] == entries[i + 1];
        }
      }
    }
  }

  lemma HasKeyStep(entries: Entries, key: Bytes)
    requires entries != []
    ensures HasKey(entries, key) <==> entries[0].0 == key || HasKey(entries[1..], key)
  {
    if HasKey(entries[1..], key) {
      var i :| 0 <= i < |entries[1..]| && entries[1..][i].0 == key;
      assert entries[i + 1].0 == key;
    }
    if HasKey(entries, key) && entries[0].0 != key {
      var i :| 0 <= i < |entries| && entries[i].0 == key;
      assert entries[1..][i - 1].0 == key;
    }
  }

  /** Putting what is there changes nothing. */
  lemma {:induction false} PutSame(entries: Entries, key: Bytes, entry: Entry)
    requires DistinctKeys(entries) && (key, entry) in entries
    ensures Put(entries, key, entry) == entries
  {
    if entries[0].0 == key {
      assert entries[0] == (key, entry);
    } else {
      assert (key, entry) in entries[1..] && DistinctKeys(entries[1..]);
      PutSame(entries[1..], key, entry);
    }
    assert entries == [entries[0]] + entries[1..];
  }

  // Putting the same visits again

  function Keys(entries: Entries): (r: seq<Bytes>)
    ensures |r| == |entries| && forall i :: 0 <= i < |r| ==> r[i] == entries[i].0
  {
    seq(|entries|, i requires 0 <= i < |entries| => entries[i].0)
  }

  function Values(entries: Entries): map<Bytes, Entry> {
    if entries == [] then map[] else Values(entries[1..])[entries[0].0 := entries[0].1]
  }

  lemma {:induction false} ValuesAt(entries: Entries, i: nat)
    requires DistinctKeys(entries) && i < |entries|
    ensures entries[i].0 in Values(entries) && Values(entries)[entries[i].0] == entries[i].1
    decreases |entries|
  {
    if i > 0 {
      assert entries[1..][i - 1] == entries[i];
      ValuesAt(entries[1..], i - 1);
    }
  }

  lemma {:induction false} ValuesKeys(entries: Entries, key: Bytes)
    ensures key in Values(entries) <==> HasKey(entries, key)
  {
    if entries != [] {
      ValuesKeys(entries[1..], key);
      HasKeyStep(entries, key);
    }
  }

  lemma SameEntries(a: Entries, b: Entries)
    requires DistinctKeys(a) && DistinctKeys(b) && Keys(a) == Keys(b) && Values(a) == Values(b)
    ensures a == b
  {
    assert |a| == |Keys(a)| == |b|;
    forall i | 0 <= i < |a| ensures a[i] == b[i] {
      assert Keys(a)[i] == Keys(b)[i];
      ValuesAt(a, i);
      ValuesAt(b, i);
    }
  }

  lemma {:induction false} PutValues(entries: Entries, key: Bytes, entry: Entry)
    requires DistinctKeys(entries)
    ensures Values(Put(entries, key, entry)) == Values(entries)[key := entry]
    ensures HasKey(entries, key) ==> Keys(Put(entries, key, entry)) == Keys(entries)
  {
    if entries == [] {
      assert [(key, entry)][1..] == [];
    } else if entries[0].0 == key {
      assert ([(key, entry)] + entries[1..])[1..] == entries[1..];
      assert Keys(Put(entries, key, entry)) == Keys(entries);
    } else {
      assert DistinctKeys(entries[1..]);
      PutValues(entries[1..], key, entry);
      HasKeyStep(entries, key);
      var put := Put(entries, key, entry);
      assert put[1..] == Put(entries[1..], key, entry) && put[0] == entries[0];
      if HasKey(entries, key) {
        assert Keys(put)[1..] == Keys(put[1..]) && Keys(entries)[1..] == Keys(entries[1..]);
        assert Keys(put) == [put[0].0] + Keys(put)[1..] && Keys(entries) == [entries[0].0] + Keys(entries)[1..];
      }
    }
  }
}
