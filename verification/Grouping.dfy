/** What the database caches: the grouping of the hierarchy by the ancestor at depth rq-depth + 1, and
    which operations keep the two in step.
 */
module Grouping {
  import opened Hierarchy
  import opened Moves
  import opened Listings
  import opened SliceRemoval
  import opened NamespaceDB

  ghost predicate IsKey(t: Tree, rq: nat, k: Name)
    requires IsTree(t)
  {
    k in t.Nodes() && Depth(t, k) == rq + 1
  }

  ghost predicate GroupedAt(f: Forest, t: Tree, k: Name)
    requires k in f && IsTree(t)
  {
    NoDuplicates(f[k]) && forall x :: x in f[k] <==> x != k && Under(t, k, x)
  }

  /** The keys are the namespaces at depth rq + 1, and each lists its descendants once. */
  ghost predicate Grouped(f: Forest, t: Tree, rq: nat)
    ensures Grouped(f, t, rq) ==> IsTree(t)
  {
    && IsTree(t) && "" !in t.Nodes()
    && (forall k :: k in f <==> IsKey(t, rq, k))
    && forall k :: k in f ==> GroupedAt(f, t, k)
  }

  // ---------- keys ----------

  /** The only key above `x`. */
  ghost function KeyAbove(t: Tree, rq: nat, x: Name): (k: Name)
    requires IsTree(t) && x in t.Nodes() && Depth(t, x) > rq
  {
    Path(t, x)[rq + 1]
  }

  lemma KeyAboveIs(t: Tree, rq: nat, k: Name, x: Name)
    requires IsTree(t) && x in t.Nodes()
    ensures IsKey(t, rq, k) && Under(t, k, x) <==> Depth(t, x) > rq && k == KeyAbove(t, rq, x)
  {
    hide IsTree;
    if IsKey(t, rq, k) && Under(t, k, x) {
      UnderPrefix(t, k, x);
    }
    if Depth(t, x) > rq && k == KeyAbove(t, rq, x) {
      PrefixIsPath(t, x, rq + 1);
    }
  }

  lemma HoldsIff(f: Forest, t: Tree, rq: nat, k: Name, x: Name)
    requires Grouped(f, t, rq)
    ensures Holds(f, k, x) <==> IsKey(t, rq, k) && Under(t, k, x)
  {
    hide IsTree, Path;
    if k in f {
      assert GroupedAt(f, t, k);
      UnderSelf(t, k);
    }
  }

  lemma GroupedDisjoint(f: Forest, t: Tree, rq: nat)
    requires Grouped(f, t, rq)
    ensures Disjoint(f) && ListsDistinct(f) && "" !in f
  {
    hide IsTree, Path;
    forall k, l, x | Holds(f, k, x) && Holds(f, l, x) ensures k == l {
      HoldsIff(f, t, rq, k, x);
      HoldsIff(f, t, rq, l, x);
      KeyAboveIs(t, rq, k, x);
      KeyAboveIs(t, rq, l, x);
    }
    forall k | k in f ensures NoDuplicates(f[k]) {
      assert GroupedAt(f, t, k);
    }
  }

  /** The lookup returns the ancestor at depth rq + 1, or nothing for shallower namespaces. */
  lemma KeyOfIs(f: Forest, t: Tree, rq: nat, x: Name)
    requires Grouped(f, t, rq) && x in t.Nodes()
    ensures KeyOf(f, x) == if Depth(t, x) > rq then KeyAbove(t, rq, x) else ""
  {
    hide IsTree, Path;
    GroupedDisjoint(f, t, rq);
    var k := KeyOf(f, x);
    if k != "" {
      HoldsIff(f, t, rq, k, x);
      KeyAboveIs(t, rq, k, x);
    }
    if Depth(t, x) > rq {
      HoldsIff(f, t, rq, KeyAbove(t, rq, x), x);
      KeyAboveIs(t, rq, KeyAbove(t, rq, x), x);
    }
  }

  lemma KeyOfOutside(f: Forest, t: Tree, rq: nat, x: Name)
    requires Grouped(f, t, rq) && x !in t.Nodes()
    ensures KeyOf(f, x) == ""
  {
    hide IsTree, Path;
    if KeyOf(f, x) != "" {
      HoldsIff(f, t, rq, KeyOf(f, x), x);
      assert false;
    }
  }

  // ---------- create and delete ----------

  lemma AttachUnder(t: Tree, n: Name, p: Name, a: Name, x: Name)
    requires IsTree(t) && n !in t.Nodes() && p in t.Nodes()
    ensures IsTree(Attach(t, n, p))
    ensures Under(Attach(t, n, p), a, x) <==> if x == n then a == n || Under(t, a, p) else Under(t, a, x)
  {
    hide IsTree;
    AddLeafPaths(t, n, p);
  }

  lemma AttachDepth(t: Tree, n: Name, p: Name, x: Name)
    requires IsTree(t) && n !in t.Nodes() && p in t.Nodes()
    ensures IsTree(Attach(t, n, p)) && Attach(t, n, p).Nodes() == t.Nodes() + {n}
    ensures x in t.Nodes() ==> Depth(Attach(t, n, p), x) == Depth(t, x)
    ensures x == n ==> Depth(Attach(t, n, p), x) == Depth(t, p) + 1
  {
    hide IsTree;
    AddLeafPaths(t, n, p);
  }

  /** The quota kind decides whether a namespace belongs in the database, and a key has a CRQ. */
  ghost predicate QuotaKindFits(rq: nat, depth: nat, isRq: bool, hasCrq: bool) {
    (isRq <==> depth <= rq) && (depth == rq + 1 ==> hasCrq)
  }

  lemma CreateGrouped(f: Forest, t: Tree, rq: nat, n: Name, p: Name, isRq: bool, hasCrq: bool)
    requires Grouped(f, t, rq) && n !in t.Nodes() && n != "" && p in t.Nodes()
    requires QuotaKindFits(rq, Depth(t, p) + 1, isRq, hasCrq)
    ensures Grouped(Ensured(f, n, p, isRq, hasCrq), Attach(t, n, p), rq)
  {
    hide IsTree, Path, Depth, Under;
    var t', g := Attach(t, n, p), Ensured(f, n, p, isRq, hasCrq);
    KeyOfOutside(f, t, rq, n);
    KeyOfIs(f, t, rq, p);
    AttachDepth(t, n, p, n);
    forall k ensures k in g <==> IsKey(t', rq, k) {
      AttachDepth(t, n, p, k);
      KeyAboveIs(t, rq, KeyOf(f, p), p);
    }
    forall k | k in g ensures GroupedAt(g, t', k) {
      CreateGroupedAt(f, t, rq, n, p, isRq, hasCrq, k);
    }
  }

  /** Syncing a namespace again leaves the database as it is. */
  lemma ResyncUnchanged(f: Forest, t: Tree, rq: nat, n: Name, isRq: bool, hasCrq: bool)
    requires Grouped(f, t, rq) && n in t.parent && n in t.Nodes() && QuotaKindFits(rq, Depth(t, n), isRq, hasCrq)
    ensures Ensured(f, n, t.parent[n], isRq, hasCrq) == f
  {
    hide IsTree, Path, Under;
    GroupedDisjoint(f, t, rq);
    if Depth(t, n) > rq {
      var k := KeyAbove(t, rq, n);
      KeyAboveIs(t, rq, k, n);
      HoldsIff(f, t, rq, k, n);
      HeldStays(f, n, t.parent[n], isRq, hasCrq);
    }
  }

  lemma CreateGroupedAt(f: Forest, t: Tree, rq: nat, n: Name, p: Name, isRq: bool, hasCrq: bool, k: Name)
    requires Grouped(f, t, rq) && n !in t.Nodes() && n != "" && p in t.Nodes()
    requires QuotaKindFits(rq, Depth(t, p) + 1, isRq, hasCrq)
    requires k in Ensured(f, n, p, isRq, hasCrq)
    ensures IsTree(Attach(t, n, p))
    ensures GroupedAt(Ensured(f, n, p, isRq, hasCrq), Attach(t, n, p), k)
  {
    hide IsTree, Path, Under;
    var t', g := Attach(t, n, p), Ensured(f, n, p, isRq, hasCrq);
    KeyOfOutside(f, t, rq, n);
    KeyOfIs(f, t, rq, p);
    AttachDepth(t, n, p, n);
    AttachUnder(t, n, p, k, n);
    if k in f {
      assert GroupedAt(f, t, k);
      KeyAboveIs(t, rq, k, p);
      assert n !in f[k] by {
        hide Depth;
        NotUnderOutside(t, k, n);
      }
      forall x ensures x in g[k] <==> x != k && Under(t', k, x) {
        AttachUnder(t, n, p, k, x);
      }
    } else {
      forall x ensures x in g[k] <==> x != k && Under(t', k, x) {
        AttachUnder(t, n, p, n, x);
        NobodyUnderOutside(t, n, x);
        NobodyUnderOutside(t, n, p);
      }
    }
  }

  lemma NotUnderOutside(t: Tree, k: Name, n: Name)
    requires IsTree(t) && n !in t.Nodes()
    ensures !Under(t, k, n)
  {
  }

  lemma NobodyUnderOutside(t: Tree, n: Name, x: Name)
    requires IsTree(t) && n !in t.Nodes()
    ensures !Under(t, n, x)
  {
    hide IsTree;
    if Under(t, n, x) {
      UnderPrefix(t, n, x);
      assert false;
    }
  }

  lemma RemoveUnder(t: Tree, n: Name, a: Name, x: Name)
    requires IsTree(t) && n in t.parent && t.Children(n) == {}
    ensures IsTree(RemoveLeaf(t, n))
    ensures Under(RemoveLeaf(t, n), a, x) <==> x != n && Under(t, a, x)
  {
    hide IsTree;
    RemoveLeafPaths(t, n);
  }

  lemma RemoveDepth(t: Tree, n: Name, x: Name)
    requires IsTree(t) && n in t.parent && t.Children(n) == {}
    ensures IsTree(RemoveLeaf(t, n)) && RemoveLeaf(t, n).Nodes() == t.Nodes() - {n}
    ensures x in t.Nodes() && x != n ==> Depth(RemoveLeaf(t, n), x) == Depth(t, x)
  {
    hide IsTree;
    RemoveLeafPaths(t, n);
  }

  lemma DeleteGrouped(f: Forest, t: Tree, rq: nat, n: Name)
    requires Grouped(f, t, rq) && n in t.parent && t.Children(n) == {}
    ensures Grouped(Removed(f, n), RemoveLeaf(t, n), rq)
  {
    hide IsTree, Path, Depth, Under;
    var t', g := RemoveLeaf(t, n), Removed(f, n);
    KeyOfIs(f, t, rq, n);
    RemoveDepth(t, n, n);
    KeyAboveIs(t, rq, KeyOf(f, n), n);
    KeyAboveIs(t, rq, n, n);
    UnderSelf(t, n);
    forall k ensures k in g <==> IsKey(t', rq, k) {
      RemoveDepth(t, n, k);
    }
    forall k | k in g ensures GroupedAt(g, t', k) {
      assert GroupedAt(f, t, k);
      WithoutDistinct(f[k], n);
      KeyAboveIs(t, rq, k, n);
      forall x ensures x in g[k] <==> x != k && Under(t', k, x) {
        RemoveUnder(t, n, k, x);
      }
    }
  }

  // ---------- migration ----------

  /** Everything in the subtree is at depth rq or less, once shifted by the given number of levels. */
  ghost predicate AllShallow(t: Tree, rq: nat, n: Name, shift: int)
    requires IsTree(t)
  {
    forall x :: Under(t, n, x) ==> Depth(t, x) + shift <= rq
  }

  /** The moves after which the database still matches the hierarchy, told by depths alone: key to key;
      or nothing of the subtree belongs in the database where the update does not put it. */
  ghost predicate MoveFits(t: Tree, rq: nat, n: Name, to: Name)
    requires IsTree(t) && n in t.Nodes() && to in t.Nodes()
  {
    var d, e := Depth(t, n), Depth(t, to);
    var shift := e + 1 - d;
    if d > rq + 1 then e > rq || AllShallow(t, rq, n, shift)
    else if d == rq + 1 then e == rq
    else if e > rq then AllShallow(t, rq, n, 0)
    else shift == 0 || (AllShallow(t, rq, n, 0) && AllShallow(t, rq, n, shift))
  }

  ghost predicate CanMove(f: Forest, t: Tree, rq: nat, n: Name, to: Name, children: seq<Name>)
    ensures CanMove(f, t, rq, n, to, children) ==> IsTree(t) && n in t.parent && to in t.Nodes()
  {
    && Grouped(f, t, rq) && n in t.parent && to in t.Nodes() && !Under(t, n, to)
    && Lists(children, Subtree(t, n))
  }

  ghost function AfterMove(f: Forest, n: Name, to: Name, children: seq<Name>): Forest {
    MovedAll(f, KeyOf(f, n), KeyOf(f, to), n, children)
  }

  /** No key of the destination is in the moved subtree, and no other key lists any of it. */
  lemma MoveIsMovable(f: Forest, t: Tree, rq: nat, n: Name, to: Name, children: seq<Name>)
    requires CanMove(f, t, rq, n, to, children)
    ensures Movable(f, KeyOf(f, n), KeyOf(f, to), n, children)
  {
    hide IsTree, Path, Depth, Under;
    GroupedDisjoint(f, t, rq);
    KeyOfIs(f, t, rq, n);
    KeyOfIs(f, t, rq, to);
    var k := KeyOf(f, to);
    if k != "" {
      KeyAboveIs(t, rq, k, to);
      if k in children {
        assert Under(t, n, k);
        UnderTransitive(t, n, k, to);
        assert false;
      }
      forall c | c in children && c in f[k] ensures KeyOf(f, n) == k != n {
        assert c in Subtree(t, n);
        HoldsIff(f, t, rq, k, c);
        OneAboveTheOther(t, n, k, c);
        if Under(t, n, k) {
          UnderTransitive(t, n, k, to);
          assert false;
        }
        KeyAboveIs(t, rq, k, n);
        UnderSelf(t, n);
      }
    }
  }

  /** Depth and ancestry of `x` after the move. */
  lemma MovedNode(t: Tree, n: Name, to: Name, a: Name, x: Name)
    requires IsTree(t) && n in t.parent && to in t.Nodes() && !Under(t, n, to) && x in t.Nodes() && a in t.Nodes()
    ensures IsTree(Attach(t, n, to)) && Attach(t, n, to).Nodes() == t.Nodes()
    ensures Depth(Attach(t, n, to), x) ==
            if Under(t, n, x) then Depth(t, x) - Depth(t, n) + Depth(t, to) + 1 else Depth(t, x)
    ensures Under(Attach(t, n, to), a, x) <==>
            if Under(t, n, x) && !Under(t, n, a) then Under(t, a, to) else Under(t, a, x)
  {
    hide IsTree, Path, Depth, Under;
    ReparentUnder(t, n, to);
    if Under(t, n, a) && Under(t, a, x) {
      UnderTransitive(t, n, a, x);
    }
    ReparentDepth(t, n, to, x);
  }

  lemma ReparentDepth(t: Tree, n: Name, to: Name, x: Name)
    requires IsTree(t) && n in t.parent && to in t.Nodes() && !Under(t, n, to) && x in t.Nodes()
    ensures IsTree(Attach(t, n, to)) && Attach(t, n, to).Nodes() == t.Nodes()
    ensures Depth(Attach(t, n, to), x) ==
            if Under(t, n, x) then Depth(t, x) - Depth(t, n) + Depth(t, to) + 1 else Depth(t, x)
  {
    hide IsTree;
    ReparentUnder(t, n, to);
  }

  lemma FittingMoveKeepsKeys(t: Tree, rq: nat, n: Name, to: Name, k: Name)
    requires IsTree(t) && n in t.parent && to in t.Nodes() && !Under(t, n, to) && MoveFits(t, rq, n, to)
    ensures IsTree(Attach(t, n, to))
    ensures IsKey(t, rq, k) <==> IsKey(Attach(t, n, to), rq, k)
  {
    hide IsTree, Path, Depth, Under;
    ReparentIsTree(t, n, to);
    if k in t.Nodes() {
      ReparentDepth(t, n, to, k);
      if Under(t, n, k) {
        UnderIsDeeper(t, n, k);
      }
    }
  }

  /** Where a member list differs from the new hierarchy, the key is inside the moved subtree. */
  lemma MovedMember(f: Forest, t: Tree, rq: nat, n: Name, to: Name, children: seq<Name>, k: Name, x: Name)
    requires CanMove(f, t, rq, n, to, children) && k in f && (Under(t, n, k) ==> !Under(t, n, x))
    ensures IsTree(Attach(t, n, to))
    ensures Belongs(f, KeyOf(f, n), KeyOf(f, to), n, children, k, x) <==> x != k && Under(Attach(t, n, to), k, x)
  {
    hide IsTree, Path, Depth, Under;
    ReparentIsTree(t, n, to);
    assert GroupedAt(f, t, k);
    assert x in children <==> x in Subtree(t, n);
    KeyOfIs(f, t, rq, n);
    KeyOfIs(f, t, rq, to);
    KeyAboveIs(t, rq, k, to);
    UnderSelf(t, n);
    if x in t.Nodes() {
      MovedNode(t, n, to, k, x);
    } else {
      NotUnderOutside(t, k, x);
      NotUnderOutside(t, n, x);
      NotUnderOutside(Attach(t, n, to), k, x);
    }
    if Under(t, n, x) {
      KeyAboveIs(t, rq, k, n);
      if Under(t, k, x) {
        OneAboveTheOther(t, k, n, x);
      }
    }
  }

  /** A key inside the moved subtree keeps its list when the move fits. */
  lemma InnerKeyKeepsList(f: Forest, t: Tree, rq: nat, n: Name, to: Name, children: seq<Name>, k: Name, x: Name)
    requires CanMove(f, t, rq, n, to, children) && MoveFits(t, rq, n, to) && k in f && Under(t, n, k)
    ensures IsTree(Attach(t, n, to))
    ensures Belongs(f, KeyOf(f, n), KeyOf(f, to), n, children, k, x) <==> x != k && Under(Attach(t, n, to), k, x)
  {
    hide IsTree, Path, Depth, Under;
    ReparentIsTree(t, n, to);
    if !Under(t, n, x) {
      MovedMember(f, t, rq, n, to, children, k, x);
    } else {
      assert GroupedAt(f, t, k);
      KeyOfIs(f, t, rq, n);
      KeyOfIs(f, t, rq, to);
      UnderIsDeeper(t, n, k);
      KeyAboveIs(t, rq, KeyOf(f, n), n);
      KeyAboveIs(t, rq, n, n);
      UnderSelf(t, n);
      MovedNode(t, n, to, k, x);
    }
  }

  lemma FittingMoveGrouped(f: Forest, t: Tree, rq: nat, n: Name, to: Name, children: seq<Name>)
    requires CanMove(f, t, rq, n, to, children) && MoveFits(t, rq, n, to)
    ensures Grouped(AfterMove(f, n, to, children), Attach(t, n, to), rq)
  {
    hide IsTree, Path, Depth, Under, MoveFits;
    var g, t' := AfterMove(f, n, to, children), Attach(t, n, to);
    ReparentIsTree(t, n, to);
    MoveIsMovable(f, t, rq, n, to, children);
    MovedAllLists(f, KeyOf(f, n), KeyOf(f, to), n, children);
    forall k ensures k in g <==> IsKey(t', rq, k) {
      FittingMoveKeepsKeys(t, rq, n, to, k);
    }
    forall k | k in g ensures GroupedAt(g, t', k) {
      forall x ensures x in g[k] <==> x != k && Under(t', k, x) {
        if Under(t, n, k) {
          InnerKeyKeepsList(f, t, rq, n, to, children, k, x);
        } else {
          MovedMember(f, t, rq, n, to, children, k, x);
        }
        assert x in g[k] <==> Belongs(f, KeyOf(f, n), KeyOf(f, to), n, children, k, x);
      }
    }
  }

  /** A deep namespace below a shallow one has its key below it too. */
  lemma KeyBetween(t: Tree, rq: nat, n: Name, x: Name) returns (k: Name)
    requires IsTree(t) && Under(t, n, x) && n in t.Nodes() && Depth(t, n) <= rq + 1 && Depth(t, x) > rq
    ensures IsKey(t, rq, k) && Under(t, n, k)
  {
    hide IsTree, Path, Depth, Under;
    k := KeyAbove(t, rq, x);
    KeyAboveIs(t, rq, k, x);
    OneAboveTheOther(t, n, k, x);
    if Under(t, k, n) {
      UnderIsDeeper(t, k, n);
      UnderSelf(t, n);
    }
  }

  lemma GroupedMoveFits(f: Forest, t: Tree, rq: nat, n: Name, to: Name, children: seq<Name>)
    requires CanMove(f, t, rq, n, to, children)
    requires Grouped(AfterMove(f, n, to, children), Attach(t, n, to), rq)
    ensures MoveFits(t, rq, n, to)
  {
    hide IsTree, Path, Depth, Under;
    var g, t' := AfterMove(f, n, to, children), Attach(t, n, to);
    MoveIsMovable(f, t, rq, n, to, children);
    MovedAllLists(f, KeyOf(f, n), KeyOf(f, to), n, children);
    var d, e := Depth(t, n), Depth(t, to);
    var shift := e + 1 - d;
    forall k ensures IsKey(t, rq, k) <==> IsKey(t', rq, k) {
      assert k in f <==> k in g;
    }
    UnderSelf(t, n);
    ReparentDepth(t, n, to, n);
    assert IsKey(t, rq, n) <==> IsKey(t', rq, n);
    if d <= rq && shift != 0 {
      forall x | Under(t, n, x) ensures Depth(t, x) + 0 <= rq {
        if Depth(t, x) > rq {
          var k := KeyBetween(t, rq, n, x);
          ReparentDepth(t, n, to, k);
          assert false;
        }
      }
    }
    if e <= rq && (d > rq + 1 || shift != 0) {
      forall x | Under(t, n, x) ensures Depth(t, x) + shift <= rq {
        NewKeyNeeded(t, rq, n, to, x);
      }
    }
  }

  /** If the keys did not change, nothing of a moved subtree can have become deep below a shallow spot. */
  lemma NewKeyNeeded(t: Tree, rq: nat, n: Name, to: Name, x: Name)
    requires IsTree(t) && n in t.parent && to in t.Nodes() && !Under(t, n, to) && Under(t, n, x)
    requires IsTree(Attach(t, n, to)) && forall k :: IsKey(t, rq, k) <==> IsKey(Attach(t, n, to), rq, k)
    requires Depth(t, to) <= rq && (Depth(t, n) > rq + 1 || Depth(t, to) + 1 != Depth(t, n))
    ensures Depth(t, x) + (Depth(t, to) + 1 - Depth(t, n)) <= rq
  {
    hide IsTree, Path, Depth, Under;
    var t' := Attach(t, n, to);
    UnderSelf(t, n);
    ReparentDepth(t, n, to, n);
    MovedNode(t, n, to, n, x);
    if Depth(t', x) > rq {
      var k := KeyBetween(t', rq, n, x);
      MovedNode(t, n, to, n, k);
      UnderIsDeeper(t, n, k);
      assert false;
    }
  }

  /** After updating the database for a migration it matches the new hierarchy if and only if the move
      fits; otherwise keys are missing or left behind. */
  lemma MoveGroupedIff(f: Forest, t: Tree, rq: nat, n: Name, to: Name, children: seq<Name>)
    requires CanMove(f, t, rq, n, to, children)
    ensures Grouped(AfterMove(f, n, to, children), Attach(t, n, to), rq) <==> MoveFits(t, rq, n, to)
  {
    hide IsTree, Path, Depth, Under, MoveFits, CanMove, Grouped;
    if MoveFits(t, rq, n, to) {
      FittingMoveGrouped(f, t, rq, n, to, children);
    }
    if Grouped(AfterMove(f, n, to, children), Attach(t, n, to), rq) {
      GroupedMoveFits(f, t, rq, n, to, children);
    }
  }
}
