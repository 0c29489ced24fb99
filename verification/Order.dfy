/** Lexicographic order on sequences of small integers.

    `Buffer.compare` orders byte strings this way, and `Array.prototype.sort`
    orders JavaScript strings this way over UTF-16 code units. */
module Order {
  type Word = seq<int>

  predicate Less(a: Word, b: Word) {
    if a == [] then b != []
    else b != [] && (a[0] < b[0] || (a[0] == b[0] && Less(a[1..], b[1..])))
  }

  /** The words first differ here, and a has the smaller number. */
  predicate SmallerAt(a: Word, b: Word, i: nat) {
    i < |a| && i < |b| && a[..i] == b[..i] && a[i] < b[i]
  }

  /** A word is less than another when it is a proper prefix of it, or has the smaller number where they
      first differ. */
  lemma {:induction false} LessExactly(a: Word, b: Word)
    ensures Less(a, b) <==> (a < b || exists i: nat :: SmallerAt(a, b, i))
  {
    if a != [] && b != [] && a[0] == b[0] {
      LessExactly(a[1..], b[1..]);
      assert a == [a[0]] + a[1..] && b == [b[0]] + b[1..];
      if i: nat :| SmallerAt(a, b, i) {
        assert a[1..][..i - 1] == a[..i][1..] && b[1..][..i - 1] == b[..i][1..];
        assert SmallerAt(a[1..], b[1..], i - 1);
      }
      if i: nat :| SmallerAt(a[1..], b[1..], i) {
        assert a[..i + 1] == [a[0]] + a[1..][..i] && b[..i + 1] == [b[0]] + b[1..][..i];
        assert SmallerAt(a, b, i + 1);
      }
    } else if a != [] && b != [] && a[0] < b[0] {
      assert SmallerAt(a, b, 0);
    }
  }

  ghost predicate Increasing(s: seq<Word>) {
    forall i, j :: 0 <= i < j < |s| ==> Less(s[i], s[j])
  }

  lemma {:induction false} LessIrreflexive(a: Word)
    ensures !Less(a, a)
  {
    if a != [] { LessIrreflexive(a[1..]); }
  }

  lemma {:induction false} LessTransitive(a: Word, b: Word, c: Word)
    requires Less(a, b) && Less(b, c)
    ensures Less(a, c)
  {
    if a != [] && a[0] == b[0] && b[0] == c[0] {
      LessTransitive(a[1..], b[1..], c[1..]);
    }
  }

  lemma {:induction false} LessTotal(a: Word, b: Word)
    ensures Less(a, b) || a == b || Less(b, a)
  {
    if a != [] && b != [] && a[0] == b[0] {
      LessTotal(a[1..], b[1..]);
      assert a == [a[0]] + a[1..] && b == [b[0]] + b[1..];
    }
  }

  lemma LessAsymmetric(a: Word, b: Word)
    requires Less(a, b)
    ensures a != b && !Less(b, a)
  {
    LessIrreflexive(a);
    if Less(b, a) { LessTransitive(a, b, a); }
  }

  // A common prefix does not matter.
  lemma {:induction false} LessAfterPrefix(p: Word, a: Word, b: Word)
    ensures Less(p + a, p + b) <==> Less(a, b)
  {
    if p == [] {
      assert p + a == a && p + b == b;
    } else {
      assert (p + a)[1..] == p[1..] + a && (p + b)[1..] == p[1..] + b;
      LessAfterPrefix(p[1..], a, b);
    }
  }

  // Once two words differ at a position inside both, what follows is irrelevant.
  lemma {:induction false} LessExtend(a: Word, b: Word, x: Word, y: Word)
    requires Less(a, b)
    requires !(a <= b)
    ensures Less(a + x, b + y)
  {
    if a[0] == b[0] {
      assert a == [a[0]] + a[1..] && b == [b[0]] + b[1..];
      LessExtend(a[1..], b[1..], x, y);
    }
    assert (a + x)[1..] == a[1..] + x && (b + y)[1..] == b[1..] + y;
  }

  lemma {:induction false} PrefixIsLess(a: Word, b: Word)
    requires a <= b && a != b
    ensures Less(a, b)
  {
    if a != [] {
      assert a == [a[0]] + a[1..] && b == [b[0]] + b[1..];
      PrefixIsLess(a[1..], b[1..]);
    }
  }

  /** Sorting a finite set: the least element first. */
  function Sorted(s: set<Word>): (r: seq<Word>)
    ensures Increasing(r) && (forall k :: k in r <==> k in s)
  {
    if s == {} then []
    else
      LeastExists(s);
      LeastUnique(s);
      var least :| least in s && IsLeast(least, s);
      var rest := Sorted(s - {least});
      assert forall j :: 0 <= j < |rest| ==> rest[j] in s - {least};
      [least] + rest
  }

  predicate IsLeast(k: Word, s: set<Word>) {
    k in s && forall j :: j in s ==> j == k || Less(k, j)
  }

  lemma {:induction false} LeastExists(s: set<Word>)
    requires s != {}
    ensures exists k :: IsLeast(k, s)
    decreases |s|
  {
    var x :| x in s;
    var rest := s - {x};
    if rest == {} {
      assert s == {x};
      assert IsLeast(x, s);
    } else {
      LeastExists(rest);
      var y :| IsLeast(y, rest);
      LessTotal(x, y);
      if Less(x, y) {
        forall j | j in s && j != x ensures Less(x, j) {
          assert j in rest;
          if j != y { LessTransitive(x, y, j); }
        }
        assert IsLeast(x, s);
      } else {
        assert y in rest;
        forall j | j in s && j != y ensures Less(y, j) {
          if j != x { assert j in rest; }
        }
        assert IsLeast(y, s);
      }
    }
  }

  lemma LeastUnique(s: set<Word>)
    ensures forall x, y :: x in s && y in s && IsLeast(x, s) && IsLeast(y, s) ==> x == y
  {
    forall x, y | x in s && y in s && IsLeast(x, s) && IsLeast(y, s) ensures x == y {
      if x != y { LessAsymmetric(x, y); }
    }
  }

  // A strictly increasing sequence is determined by its elements.
  lemma {:induction false} IncreasingUnique(a: seq<Word>, b: seq<Word>)
    requires Increasing(a) && Increasing(b)
    requires forall k :: k in a <==> k in b
    ensures a == b
  {
    assert |a| > 0 ==> a[0] in a;
    assert |b| > 0 ==> b[0] in b;
    if a != [] && b != [] {
      assert a[0] == b[0] by {
        assert a[0] in b && b[0] in a;
        var i :| 0 <= i < |b| && b[i] == a[0];
        var j :| 0 <= j < |a| && a[j] == b[0];
        if i != 0 && j != 0 { LessAsymmetric(a[0], a[j]); }
      }
      forall k ensures k in a[1..] <==> k in b[1..] {
        IncreasingTail(a, k);
        IncreasingTail(b, k);
      }
      IncreasingUnique(a[1..], b[1..]);
      assert a == [a[0]] + a[1..] && b == [b[0]] + b[1..];
    }
  }

  lemma IncreasingTail(a: seq<Word>, k: Word)
    requires Increasing(a) && a != []
    ensures k in a[1..] <==> k in a && k != a[0]
  {
    if k in a[1..] {
      var i :| 0 <= i < |a[1..]| && a[1..][i] == k;
      LessAsymmetric(a[0], a[i + 1]);
    }
    if k in a && k != a[0] {
      var i :| 0 <= i < |a| && a[i] == k;
      assert a[1..][i - 1] == k;
    }
  }

  /** Where a word stands, or would stand, among increasing ones. */
  lemma Place(words: seq<Word>, word: Word) returns (k: nat)
    requires Increasing(words)
    ensures k <= |words|
    ensures forall i :: 0 <= i < k ==> Less(words[i], word)
    ensures forall i :: k <= i < |words| ==> !Less(words[i], word)
  {
    k := 0;
    while k < |words| && Less(words[k], word)
      invariant 0 <= k <= |words| && forall i :: 0 <= i < k ==> Less(words[i], word)
    {
      k := k + 1;
    }
    forall i | k <= i < |words| ensures !Less(words[i], word) {
      if i > k && Less(words[i], word) { LessTransitive(words[k], words[i], word); }
    }
  }

  /** A new word finds its place among increasing ones. */
  lemma Inserted(words: seq<Word>, word: Word) returns (k: nat)
    requires Increasing(words) && word !in words
    ensures k <= |words| && Increasing(words[..k] + [word] + words[k..])
    ensures forall n :: n in words[..k] + [word] + words[k..] <==> n in words || n == word
  {
    k := Place(words, word);
    forall i | k <= i < |words| ensures Less(word, words[i]) {
      assert words[i] in words;
      LessTotal(word, words[i]);
    }
    assert words == words[..k] + words[k..];
  }
}
