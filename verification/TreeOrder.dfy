/** The walk order of `collectRegularTree`, stated on paths alone. */
module TreeOrder {
  import opened Wrappers
  import opened Unicode
  import opened TreeListing
  import Order

  /** A directory's files come before anything below its directories, by name; its
      directories come last name first. */
  predicate Before(p: Path, q: Path)
    decreases |p|
  {
    && p != [] && q != []
    && if |p| == 1 then |q| > 1 || Order.Less(p[0], q[0])
       else |q| > 1 && (Order.Less(q[0], p[0]) || (p[0] == q[0] && Before(p[1..], q[1..])))
  }

  lemma {:induction false} BeforeAsymmetric(p: Path, q: Path)
    requires Before(p, q)
    ensures p != q && !Before(q, p)
    decreases |p|
  {
    Order.LessIrreflexive(p[0]);
    if |p| == 1 {
      if |q| == 1 { Order.LessAsymmetric(p[0], q[0]); }
    } else if p[0] == q[0] {
      BeforeAsymmetric(p[1..], q[1..]);
    } else {
      Order.LessAsymmetric(q[0], p[0]);
    }
  }

  /** u comes before v, seen from depth k. */
  predicate Comes(k: nat, u: Visit, v: Visit) {
    |u.path| > k && |v.path| > k && Before(u.path[k..], v.path[k..])
  }

  /** Files of the walk, seen from depth k, are in this order. */
  ghost predicate Ordered(k: nat, visits: seq<Visit>) {
    && (forall i :: 0 <= i < |visits| ==> |visits[i].path| > k)
    && forall i, j :: 0 <= i < j < |visits| && visits[i].node.File? && visits[j].node.File? ==> Comes(k, visits[i], visits[j])
  }

  lemma OrderedConcat(k: nat, a: seq<Visit>, b: seq<Visit>)
    requires Ordered(k, a) && Ordered(k, b)
    requires forall u, v :: u in a && v in b && u.node.File? && v.node.File? ==> Comes(k, u, v)
    ensures Ordered(k, a + b)
  {
    var all := a + b;
    forall i, j | 0 <= i < j < |all| && all[i].node.File? && all[j].node.File? ensures Comes(k, all[i], all[j]) {
      if i < |a| && j >= |a| { assert all[i] in a && all[j] in b; }
    }
  }

  // One level up, inside one directory.
  lemma OrderedUp(k: nat, name: Bytes, visits: seq<Visit>)
    requires Ordered(k + 1, visits)
    requires forall v :: v in visits ==> v.path[k] == name
    ensures Ordered(k, visits)
  {
    forall i, j | 0 <= i < j < |visits| && visits[i].node.File? && visits[j].node.File?
      ensures Comes(k, visits[i], visits[j]) {
      var p, q := visits[i].path, visits[j].path;
      assert visits[i] in visits && visits[j] in visits;
      assert p[k..][1..] == p[k + 1..] && q[k..][1..] == q[k + 1..];
      assert Comes(k + 1, visits[i], visits[j]);
    }
  }

  lemma EntriesOrdered(prefix: Path, children: map<Bytes, Node>, names: seq<Bytes>)
    requires (forall n :: n in names ==> n in children) && Order.Increasing(names)
    ensures Ordered(|prefix|, Entries(prefix, children, names))
  {
    var r := Entries(prefix, children, names);
    forall i, j | 0 <= i < j < |r| ensures Comes(|prefix|, r[i], r[j]) {
      assert r[i].path[|prefix|..] == [names[i]] && r[j].path[|prefix|..] == [names[j]];
    }
  }

  /** The walk of any directory is in order. */
  lemma {:induction false} ListingOrdered(prefix: Path, dir: Node)
    requires dir.Dir?
    ensures Ordered(|prefix|, Listing(prefix, dir))
    decreases dir, 1
  {
    var k, names := |prefix|, Names(dir.children);
    var a, b := Entries(prefix, dir.children, names), Below(prefix, dir, names);
    EntriesOrdered(prefix, dir.children, names);
    BelowOrdered(prefix, dir, names);
    forall u, v | u in a && v in b ensures Comes(k, u, v) {
      EntriesHas(prefix, dir, u);
      BelowHas(prefix, dir, names, v);
    }
    OrderedConcat(k, a, b);
  }

  // What is below the last name comes before what is below the others.
  lemma BlockFirst(prefix: Path, dir: Node, names: seq<Bytes>, last: Bytes, u: Visit, v: Visit)
    requires dir.Dir? && (forall n :: n in names ==> n in dir.children && !Skipped(n))
    requires last in dir.children && dir.children[last].Dir? && forall n :: n in names ==> Order.Less(n, last)
    requires u in Listing(prefix + [last], dir.children[last]) && v in Below(prefix, dir, names)
    ensures Comes(|prefix|, u, v)
  {
    ListingHas(prefix + [last], dir.children[last], u);
    BelowHas(prefix, dir, names, v);
  }

  lemma {:induction false} BelowOrdered(prefix: Path, dir: Node, names: seq<Bytes>)
    requires dir.Dir? && (forall n :: n in names ==> n in dir.children && !Skipped(n)) && Order.Increasing(names)
    ensures Ordered(|prefix|, Below(prefix, dir, names))
    decreases dir, 0, |names|
  {
    if names != [] {
      var n := |names| - 1;
      var last, lower, child := names[n], names[..n], dir.children[names[n]];
      BelowOrdered(prefix, dir, lower);
      if child.Dir? {
        ListingOrdered(prefix + [last], child);
        BlockOrdered(prefix, dir, lower, last, Listing(prefix + [last], child), Below(prefix, dir, lower));
      } else {
        assert [] + Below(prefix, dir, lower) == Below(prefix, dir, lower);
      }
    }
  }

  lemma BlockOrdered(prefix: Path, dir: Node, names: seq<Bytes>, last: Bytes, block: seq<Visit>, rest: seq<Visit>)
    requires dir.Dir? && (forall n :: n in names ==> n in dir.children && !Skipped(n))
    requires last in dir.children && dir.children[last].Dir? && forall n :: n in names ==> Order.Less(n, last)
    requires block == Listing(prefix + [last], dir.children[last]) && rest == Below(prefix, dir, names)
    requires Ordered(|prefix| + 1, block) && Ordered(|prefix|, rest)
    ensures Ordered(|prefix|, block + rest)
  {
    forall u | u in block ensures u.path[|prefix|] == last {
      ListingHas(prefix + [last], dir.children[last], u);
    }
    OrderedUp(|prefix|, last, block);
    forall u, v | u in block && v in rest ensures Comes(|prefix|, u, v) {
      BlockFirst(prefix, dir, names, last, u, v);
    }
    OrderedConcat(|prefix|, block, rest);
  }
}
