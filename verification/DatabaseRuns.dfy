/** Whole runs of the database next to the hierarchy: it stays a faithful grouping, lookups stay
    unambiguous, and no key outgrows the limit.
 */
module DatabaseRuns {
  import opened Hierarchy
  import opened Moves
  import opened Listings
  import opened SliceRemoval
  import opened NamespaceDB
  import opened Grouping

  // ---------- listing a subtree ----------

  ghost function BelowAny(t: Tree, kids: seq<Name>): set<Name>
    requires IsTree(t)
  {
    set x | x in t.Nodes() && exists i :: 0 <= i < |kids| && Under(t, kids[i], x)
  }

  lemma BelowAnyStep(t: Tree, n: Name, kids: seq<Name>, i: nat)
    requires IsTree(t) && n in t.Nodes() && Lists(kids, t.Children(n)) && i < |kids|
    ensures BelowAny(t, kids[..i + 1]) == BelowAny(t, kids[..i]) + Subtree(t, kids[i])
    ensures BelowAny(t, kids[..i]) !! Subtree(t, kids[i])
  {
    hide IsTree, Path;
    forall x | x in t.Nodes() && Under(t, kids[i], x)
      ensures forall j :: 0 <= j < i ==> !Under(t, kids[j], x)
    {
      assert kids[i] in t.Children(n);
      PathStep(t, kids[i]);
      ChildSubtree(t, kids[i]);
      assert kids[i] in Subtree(t, n);
      UnderTransitive(t, n, kids[i], x);
      assert n != x by {
        assert n !in Subtree(t, kids[i]);
      }
      var c := UnderViaChild(t, n, x);
      assert forall j :: 0 <= j < |kids| ==> kids[j] in t.Children(n);
    }
    forall x ensures x in BelowAny(t, kids[..i + 1]) <==> x in BelowAny(t, kids[..i]) || x in Subtree(t, kids[i]) {
      if x in Subtree(t, kids[i]) {
        assert kids[..i + 1][i] == kids[i];
      }
      if x in BelowAny(t, kids[..i]) {
        var j :| 0 <= j < i && Under(t, kids[..i][j], x);
        assert kids[..i + 1][j] == kids[j];
      }
    }
  }

  lemma SubtreeIsSelfAndBelow(t: Tree, n: Name, kids: seq<Name>)
    requires IsTree(t) && n in t.Nodes() && Lists(kids, t.Children(n))
    ensures Subtree(t, n) == {n} + BelowAny(t, kids) && n !in BelowAny(t, kids)
  {
    hide IsTree, Path;
    UnderSelf(t, n);
    forall x ensures x in Subtree(t, n) <==> x == n || x in BelowAny(t, kids) {
      if x in Subtree(t, n) && x != n {
        var c := UnderViaChild(t, n, x);
        var i :| 0 <= i < |kids| && kids[i] == c;
      }
      if x in BelowAny(t, kids) {
        var i :| 0 <= i < |kids| && Under(t, kids[i], x);
        assert kids[i] in t.Children(n);
        ChildSubtree(t, kids[i]);
        assert x in Subtree(t, kids[i]);
      }
    }
    if n in BelowAny(t, kids) {
      var i :| 0 <= i < |kids| && Under(t, kids[i], n);
      assert kids[i] in t.Children(n);
      ChildSubtree(t, kids[i]);
      assert false;
    }
  }

  /** The namespace and all its descendants, parents before children, each exactly once. */
  method GetAllChildren(t: Tree, n: Name) returns (all: seq<Name>)
    requires IsTree(t) && n in t.Nodes()
    ensures Lists(all, Subtree(t, n)) && |all| > 0 && all[0] == n
    decreases Subtree(t, n)
  {
    hide IsTree, Path, Under, Subtree;
    var kids := ListNames(t.Children(n));
    var below: seq<Name> := [];
    for i := 0 to |kids|
      invariant Lists(below, BelowAny(t, kids[..i]))
    {
      assert kids[i] in t.Children(n);
      ChildSubtree(t, kids[i]);
      var sub := GetAllChildren(t, kids[i]);
      BelowAnyStep(t, n, kids, i);
      JoinListings(below, sub, BelowAny(t, kids[..i]), Subtree(t, kids[i]));
      below := below + sub;
    }
    assert kids[..|kids|] == kids;
    SubtreeIsSelfAndBelow(t, n, kids);
    JoinListings([n], below, {n}, BelowAny(t, kids));
    all := [n] + below;
  }

  // ---------- how long the lists get ----------

  ghost predicate Bounded(f: Forest, max: nat) {
    forall k :: k in f ==> |f[k]| <= max
  }

  /** Moving between two different lists adds every moved namespace; moving within one list adds none. */
  lemma {:induction false} MovedCount(f: Forest, from: Name, to: Name, ns: Name, children: seq<Name>)
    requires Movable(f, from, to, ns, children) && to != ""
    requires from == to != ns ==> forall c :: c in children ==> c in f[to]
    ensures MovedAll(f, from, to, ns, children).Keys == f.Keys
    ensures |MovedAll(f, from, to, ns, children)[to]| == |f[to]| + (if from == to != ns then 0 else |children|)
    ensures forall k :: k in f && k != to ==> |MovedAll(f, from, to, ns, children)[k]| <= |f[k]|
  {
    if children != [] {
      var front, c := children[..|children| - 1], children[|children| - 1];
      assert children == front + [c];
      assert Movable(f, from, to, ns, front) by {
        assert forall i :: 0 <= i < |front| ==> front[i] == children[i];
      }
      assert c !in front by {
        assert forall i :: 0 <= i < |front| ==> children[i] == front[i];
      }
      MovedCount(f, from, to, ns, front);
      MovedAllLists(f, from, to, ns, front);
      MovedOneCount(f, MovedAll(f, from, to, ns, front), from, to, ns, front, c);
    }
  }

  lemma MovedOneCount(f: Forest, g: Forest, from: Name, to: Name, ns: Name, front: seq<Name>, c: Name)
    requires IsMoved(f, g, from, to, ns, front) && to != "" && to in f && (from != "" ==> from in f) && c != to && c !in front
    requires from == to != ns ==> c in f[to]
    ensures MovedOne(g, from, to, ns, c).Keys == g.Keys
    ensures |MovedOne(g, from, to, ns, c)[to]| == |g[to]| + (if from == to != ns then 0 else 1)
    ensures forall k :: k in f && k != to ==> |MovedOne(g, from, to, ns, c)[k]| <= |g[k]|
  {
    if from != "" && from != ns {
      WithoutDistinct(g[from], c);
      assert c in g[from] <==> Belongs(f, from, to, ns, front, from, c);
    }
  }

  // ---------- runs ----------

  /** `listed` is how many namespaces the CRQ of the migrated namespace lists. */
  datatype Op =
    | Create(name: Name, under: Name, isRq: bool, hasCrq: bool)
    | Sync(name: Name, isRq: bool, hasCrq: bool)
    | Delete(name: Name)
    | Migrate(name: Name, to: Name, children: seq<Name>, listed: nat)

  datatype State = State(tree: Tree, forest: Forest)

  ghost function Count(f: Forest, k: Name): nat {
    if k in f then |f[k]| else 0
  }

  /** The create check: the branch of the parent is not full. */
  ghost predicate CreateHasRoom(s: State, max: nat, p: Name) {
    KeyOf(s.forest, p) != "" ==> Count(s.forest, KeyOf(s.forest, p)) < max
  }

  /** The migration check, made only when both ends have a key. */
  ghost predicate MigrateHasRoom(s: State, max: nat, n: Name, to: Name, listed: nat) {
    KeyOf(s.forest, n) != "" && KeyOf(s.forest, to) != "" ==> Count(s.forest, KeyOf(s.forest, to)) + listed < max
  }

  /** Admitted operations, each atomic with its database update.  Migrations are those that leave the
      database in step and do not bring a subtree into it from outside. */
  ghost predicate Step(rq: nat, max: nat, s: State, op: Op, s': State)
    requires Grouped(s.forest, s.tree, rq)
  {
    match op
    case Create(n, p, isRq, hasCrq) =>
      && n != "" && n !in s.tree.Nodes() && p in s.tree.Nodes()
      && QuotaKindFits(rq, Depth(s.tree, p) + 1, isRq, hasCrq) && CreateHasRoom(s, max, p)
      && s' == State(Attach(s.tree, n, p), Ensured(s.forest, n, p, isRq, hasCrq))
    case Sync(n, isRq, hasCrq) =>
      && n in s.tree.parent && n in s.tree.Nodes() && QuotaKindFits(rq, Depth(s.tree, n), isRq, hasCrq)
      && s' == State(s.tree, Ensured(s.forest, n, s.tree.parent[n], isRq, hasCrq))
    case Delete(n) =>
      && n in s.tree.parent && s.tree.Children(n) == {}
      && s' == State(RemoveLeaf(s.tree, n), Removed(s.forest, n))
    case Migrate(n, to, children, listed) =>
      && CanMove(s.forest, s.tree, rq, n, to, children) && MoveFits(s.tree, rq, n, to)
      && (Depth(s.tree, n) <= rq ==> Depth(s.tree, to) <= rq)
      && listed >= |children| && MigrateHasRoom(s, max, n, to, listed)
      && s' == State(Attach(s.tree, n, to), AfterMove(s.forest, n, to, children))
  }

  lemma CreateBounded(s: State, rq: nat, max: nat, n: Name, p: Name, isRq: bool, hasCrq: bool)
    requires Grouped(s.forest, s.tree, rq) && Bounded(s.forest, max) && CreateHasRoom(s, max, p)
    ensures Bounded(Ensured(s.forest, n, p, isRq, hasCrq), max)
  {
    hide Grouped;
  }

  lemma DeleteBounded(f: Forest, max: nat, n: Name)
    requires Bounded(f, max)
    ensures Bounded(Removed(f, n), max)
  {
  }

  /** A key-to-key move keeps the bound exactly when it stays within one list or the new list has room. */
  lemma MoveBoundedIff(f: Forest, t: Tree, rq: nat, max: nat, n: Name, to: Name, children: seq<Name>)
    requires CanMove(f, t, rq, n, to, children) && Bounded(f, max) && Depth(t, n) > rq + 1 && Depth(t, to) > rq
    ensures KeyOf(f, to) in f
    ensures Bounded(AfterMove(f, n, to, children), max) <==>
            KeyOf(f, n) == KeyOf(f, to) || |f[KeyOf(f, to)]| + |children| <= max
  {
    hide IsTree, Path, Depth, Under;
    var from, key := KeyOf(f, n), KeyOf(f, to);
    GroupedDisjoint(f, t, rq);
    MoveIsMovable(f, t, rq, n, to, children);
    KeyOfIs(f, t, rq, n);
    KeyOfIs(f, t, rq, to);
    KeyAboveIs(t, rq, key, to);
    KeyAboveIs(t, rq, from, n);
    if from == key {
      assert GroupedAt(f, t, key);
      forall c | c in children ensures c in f[key] {
        assert c in Subtree(t, n);
        UnderTransitive(t, key, n, c);
        if c == key {
          assert false;
        }
      }
    }
    MovedCount(f, from, key, n, children);
  }

  lemma MoveBounded(s: State, rq: nat, max: nat, n: Name, to: Name, children: seq<Name>, listed: nat)
    requires CanMove(s.forest, s.tree, rq, n, to, children) && Bounded(s.forest, max) && MoveFits(s.tree, rq, n, to)
    requires (Depth(s.tree, n) <= rq ==> Depth(s.tree, to) <= rq)
    requires listed >= |children| && MigrateHasRoom(s, max, n, to, listed)
    ensures Bounded(AfterMove(s.forest, n, to, children), max)
  {
    hide IsTree, Path, Depth, Under, Grouped;
    var f, t := s.forest, s.tree;
    GroupedDisjoint(f, t, rq);
    KeyOfIs(f, t, rq, n);
    KeyOfIs(f, t, rq, to);
    if Depth(t, n) > rq + 1 && Depth(t, to) > rq {
      MoveBoundedIff(f, t, rq, max, n, to, children);
      KeyAboveIs(t, rq, KeyOf(f, n), n);
      HoldsIff(f, t, rq, KeyOf(f, n), n);
    } else {
      NothingAdded(f, KeyOf(f, n), n, children, max);
    }
  }

  lemma {:induction false} NothingAdded(f: Forest, from: Name, n: Name, children: seq<Name>, max: nat)
    requires Bounded(f, max)
    ensures Bounded(MovedAll(f, from, "", n, children), max)
  {
    if children != [] {
      NothingAdded(f, from, n, children[..|children| - 1], max);
    }
  }

  // ---------- how tight the checks are ----------

  /** A key lists everything below it. */
  lemma ListSize(f: Forest, t: Tree, rq: nat, k: Name)
    requires Grouped(f, t, rq) && k in f
    ensures |f[k]| == |Subtree(t, k)| - 1
  {
    hide IsTree, Path, Under;
    assert GroupedAt(f, t, k);
    UnderSelf(t, k);
    ListingSize(f[k], Subtree(t, k) - {k});
  }

  lemma KeyListed(f: Forest, t: Tree, rq: nat, x: Name)
    requires Grouped(f, t, rq) && x in t.Nodes() && Depth(t, x) > rq
    ensures KeyOf(f, x) == KeyAbove(t, rq, x) != "" && KeyOf(f, x) in f
  {
    hide IsTree, Path, Depth, Under;
    KeyOfIs(f, t, rq, x);
    KeyAboveIs(t, rq, KeyOf(f, x), x);
  }

  /** The create check in terms of the hierarchy: below rq-depth the branch has at most `max` namespaces, its
      key included. */
  lemma CreateRoomIff(s: State, rq: nat, max: nat, p: Name)
    requires Grouped(s.forest, s.tree, rq) && p in s.tree.Nodes()
    ensures CreateHasRoom(s, max, p) <==> Depth(s.tree, p) <= rq || |Subtree(s.tree, KeyAbove(s.tree, rq, p))| <= max
  {
    hide IsTree, Path, Depth, Under, Grouped, Subtree;
    if Depth(s.tree, p) <= rq {
      KeyOfIs(s.forest, s.tree, rq, p);
    } else {
      KeyListed(s.forest, s.tree, rq, p);
      ListSize(s.forest, s.tree, rq, KeyOf(s.forest, p));
    }
  }

  /** It denies no create too many: below a key it passes exactly when the lists stay within the limit. */
  lemma CreateRoomExact(s: State, rq: nat, max: nat, n: Name, p: Name, hasCrq: bool)
    requires Grouped(s.forest, s.tree, rq) && Bounded(s.forest, max) && p in s.tree.Nodes() && Depth(s.tree, p) > rq
    requires n !in s.tree.Nodes()
    ensures CreateHasRoom(s, max, p) <==> Bounded(Ensured(s.forest, n, p, false, hasCrq), max)
  {
    hide IsTree, Path, Depth, Under, Grouped;
    KeyOfOutside(s.forest, s.tree, rq, n);
    KeyListed(s.forest, s.tree, rq, p);
    NotItsOwnKey(s.forest, s.tree, rq, n, p);
    var k, g := KeyOf(s.forest, p), Ensured(s.forest, n, p, false, hasCrq);
    assert g == s.forest[k := s.forest[k] + [n]];
    assert k in g && |g[k]| == |s.forest[k]| + 1;
  }

  lemma NotItsOwnKey(f: Forest, t: Tree, rq: nat, n: Name, p: Name)
    requires Grouped(f, t, rq) && p in t.Nodes() && n !in t.Nodes() && KeyOf(f, p) in f
    ensures KeyOf(f, p) != n
  {
    hide IsTree, Path, Depth, Under;
    assert IsKey(t, rq, KeyOf(f, p));
  }

  /** The migration check in terms of the hierarchy: it denies exactly from where the destination's branch and
      the listed namespaces together exceed the limit. */
  lemma MigrateRoomIff(s: State, rq: nat, max: nat, n: Name, to: Name, listed: nat)
    requires Grouped(s.forest, s.tree, rq) && n in s.tree.Nodes() && to in s.tree.Nodes()
    ensures MigrateHasRoom(s, max, n, to, listed) <==>
            || Depth(s.tree, n) <= rq || Depth(s.tree, to) <= rq
            || |Subtree(s.tree, KeyAbove(s.tree, rq, to))| + listed <= max
  {
    hide IsTree, Path, Depth, Under, Grouped, Subtree;
    KeyOfIs(s.forest, s.tree, rq, n);
    KeyOfIs(s.forest, s.tree, rq, to);
    if Depth(s.tree, n) > rq && Depth(s.tree, to) > rq {
      KeyListed(s.forest, s.tree, rq, n);
      KeyListed(s.forest, s.tree, rq, to);
      ListSize(s.forest, s.tree, rq, KeyOf(s.forest, to));
    }
  }

  /** Between two keys, counting exactly what moves, it asks for one more than the limit does: it passes
      exactly when the destination's list ends up below the limit. */
  lemma MigrateRoomStrict(s: State, rq: nat, max: nat, n: Name, to: Name, children: seq<Name>)
    requires CanMove(s.forest, s.tree, rq, n, to, children) && n in s.tree.Nodes()
    requires Depth(s.tree, n) > rq + 1 && Depth(s.tree, to) > rq && KeyOf(s.forest, n) != KeyOf(s.forest, to)
    ensures KeyOf(s.forest, to) in AfterMove(s.forest, n, to, children)
    ensures MigrateHasRoom(s, max, n, to, |children|) <==>
            |AfterMove(s.forest, n, to, children)[KeyOf(s.forest, to)]| < max
  {
    hide IsTree, Path, Depth, Under, Grouped;
    KeyListed(s.forest, s.tree, rq, n);
    KeyListed(s.forest, s.tree, rq, to);
    MoveIsMovable(s.forest, s.tree, rq, n, to, children);
    MovedCount(s.forest, KeyOf(s.forest, n), KeyOf(s.forest, to), n, children);
  }

  lemma StepKeeps(rq: nat, max: nat, s: State, op: Op, s': State)
    requires Grouped(s.forest, s.tree, rq) && Bounded(s.forest, max) && Step(rq, max, s, op, s')
    ensures Grouped(s'.forest, s'.tree, rq) && Bounded(s'.forest, max)
  {
    hide IsTree, Path, Depth, Under, Grouped, Bounded, MoveFits, CanMove, Ensured, Removed, AfterMove, MigrateHasRoom;
    match op
    case Create(n, p, isRq, hasCrq) =>
      CreateGrouped(s.forest, s.tree, rq, n, p, isRq, hasCrq);
      CreateBounded(s, rq, max, n, p, isRq, hasCrq);
    case Sync(n, isRq, hasCrq) =>
      ResyncUnchanged(s.forest, s.tree, rq, n, isRq, hasCrq);
    case Delete(n) =>
      DeleteGrouped(s.forest, s.tree, rq, n);
      DeleteBounded(s.forest, max, n);
    case Migrate(n, to, children, listed) =>
      FittingMoveGrouped(s.forest, s.tree, rq, n, to, children);
      MoveBounded(s, rq, max, n, to, children, listed);
  }

  ghost predicate Run(rq: nat, max: nat, ss: seq<State>, ops: seq<Op>) {
    && |ss| == |ops| + 1
    && forall i :: 0 <= i < |ops| && Grouped(ss[i].forest, ss[i].tree, rq) ==> Step(rq, max, ss[i], ops[i], ss[i + 1])
  }

  /** Over every run, the database is the grouping of the hierarchy, every list is free of duplicates,
      lookups do not depend on map iteration order, and no key exceeds the limit. */
  lemma {:induction false} RunKeepsDatabase(rq: nat, max: nat, ss: seq<State>, ops: seq<Op>, k: nat)
    requires Run(rq, max, ss, ops) && k < |ss|
    requires Grouped(ss[0].forest, ss[0].tree, rq) && Bounded(ss[0].forest, max)
    ensures Grouped(ss[k].forest, ss[k].tree, rq) && Bounded(ss[k].forest, max)
    ensures ListsDistinct(ss[k].forest) && Disjoint(ss[k].forest)
    ensures forall o1, o2, ns :: Lists(o1, ss[k].forest.Keys) && Lists(o2, ss[k].forest.Keys) ==>
                                   SameKey(ss[k].forest, o1, o2, ns)
  {
    hide Grouped, Bounded, Step, SameKey, Lists, Disjoint;
    if k > 0 {
      RunKeepsDatabase(rq, max, ss, ops, k - 1);
      StepKeeps(rq, max, ss[k - 1], ops[k - 1], ss[k]);
    }
    GroupedDisjoint(ss[k].forest, ss[k].tree, rq);
    KeyOrderIrrelevantIff(ss[k].forest);
  }
}
