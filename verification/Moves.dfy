/** The three ways the hierarchy changes: a namespace is created under a parent, a childless
    namespace is deleted, and a subtree is migrated under a new parent.  Each lemma gives the
    root-to-node paths afterwards in terms of the paths before.
 */
module Moves {
  import opened Hierarchy

  /** Sets the parent of `n`: creation when `n` is new, migration when it already has a parent. */
  function Attach(t: Tree, n: Name, p: Name): Tree {
    t.(parent := t.parent[n := p])
  }

  function RemoveLeaf(t: Tree, n: Name): Tree {
    t.(parent := t.parent - {n})
  }

  lemma PathsAre(t: Tree, p: map<Name, seq<Name>>)
    requires PathsOf(t, p)
    ensures IsTree(t)
    ensures forall x :: x in t.Nodes() ==> Path(t, x) == p[x]
  {
    PathsUnique(t, p, Paths(t));
  }

  lemma AddLeafPaths(t: Tree, n: Name, p: Name)
    requires IsTree(t) && n !in t.Nodes() && p in t.Nodes()
    ensures IsTree(Attach(t, n, p))
    ensures Attach(t, n, p).Nodes() == t.Nodes() + {n}
    ensures Path(Attach(t, n, p), n) == Path(t, p) + [n]
    ensures forall x :: x in t.Nodes() ==> Path(Attach(t, n, p), x) == Path(t, x)
  {
    hide IsTree;
    var t' := Attach(t, n, p);
    var q := Paths(t)[n := Path(t, p) + [n]];
    forall x | x in t'.parent ensures Extends(t', q, x) {
      if x != n {
        assert Extends(t, Paths(t), x);
      }
    }
    assert PathsOf(t', q);
    PathsAre(t', q);
  }

  lemma RemoveLeafPaths(t: Tree, n: Name)
    requires IsTree(t) && n in t.parent && t.Children(n) == {}
    ensures IsTree(RemoveLeaf(t, n))
    ensures RemoveLeaf(t, n).Nodes() == t.Nodes() - {n}
    ensures forall x :: x in t.Nodes() && x != n ==> Path(RemoveLeaf(t, n), x) == Path(t, x)
  {
    var t' := RemoveLeaf(t, n);
    var q := Paths(t) - {n};
    PathStep(t, t.root);
    forall x | x in t'.parent ensures Extends(t', q, x) {
      assert Extends(t, Paths(t), x);
      assert t.parent[x] == n ==> x in t.Children(n);
    }
    assert PathsOf(t', q);
    PathsAre(t', q);
  }

  /** The path of `x` once `n` has moved under `to`: the part above `n` is replaced. */
  ghost function MovedPath(t: Tree, n: Name, to: Name, x: Name): seq<Name>
    requires IsTree(t) && n in t.Nodes() && to in t.Nodes() && x in t.Nodes()
    requires Under(t, n, x) ==> Depth(t, n) <= Depth(t, x)
  {
    if Under(t, n, x) then Path(t, to) + Path(t, x)[Depth(t, n)..] else Path(t, x)
  }

  lemma MovedPathStep(t: Tree, n: Name, to: Name, x: Name)
    requires IsTree(t) && n in t.parent && to in t.Nodes() && x in t.parent && x != n
    ensures t.parent[x] in t.Nodes()
    ensures Under(t, n, x) <==> Under(t, n, t.parent[x])
    ensures Under(t, n, x) ==> Depth(t, n) <= Depth(t, t.parent[x])
    ensures Under(t, n, x) ==> Depth(t, n) <= Depth(t, x)
    ensures MovedPath(t, n, to, x) == MovedPath(t, n, to, t.parent[x]) + [x]
  {
    PathStep(t, x);
    var p := t.parent[x];
    if Under(t, n, x) {
      UnderPrefix(t, n, x);
      UnderPrefix(t, n, p);
      var d := Depth(t, n);
      assert Path(t, x)[d..] == Path(t, p)[d..] + [x];
    }
  }

  lemma ReparentPaths(t: Tree, n: Name, to: Name)
    requires IsTree(t) && n in t.parent && to in t.Nodes() && !Under(t, n, to)
    ensures IsTree(Attach(t, n, to)) && Attach(t, n, to).Nodes() == t.Nodes()
    ensures forall x :: x in t.Nodes() ==>
              && (Under(t, n, x) ==> Depth(t, n) <= Depth(t, x))
              && Path(Attach(t, n, to), x) == MovedPath(t, n, to, x)
  {
    var t' := Attach(t, n, to);
    forall x | x in t.Nodes() && Under(t, n, x) ensures Depth(t, n) <= Depth(t, x) {
      UnderPrefix(t, n, x);
    }
    var q := map x | x in t.Nodes() :: MovedPath(t, n, to, x);
    PathShape(t, t.root);
    PathStep(t, t.root);
    PathStep(t, n);
    UnderSelf(t, n);
    forall x | x in t'.parent ensures Extends(t', q, x) {
      if x != n {
        MovedPathStep(t, n, to, x);
      } else {
        assert Path(t, n)[Depth(t, n)..] == [n];
      }
    }
    assert t'.Nodes() == t.Nodes();
    assert q[t.root] == [t.root];
    assert PathsOf(t', q);
    PathsAre(t', q);
  }

  lemma ReparentIsTree(t: Tree, n: Name, to: Name)
    requires IsTree(t) && n in t.parent && to in t.Nodes() && !Under(t, n, to)
    ensures IsTree(Attach(t, n, to)) && Attach(t, n, to).Nodes() == t.Nodes()
  {
    ReparentPaths(t, n, to);
  }

  /** Where the subtree of `n` ends up: same members, depths shifted by the move, nothing else moves. */
  lemma ReparentUnder(t: Tree, n: Name, to: Name)
    requires IsTree(t) && n in t.parent && to in t.Nodes() && !Under(t, n, to)
    ensures IsTree(Attach(t, n, to)) && Attach(t, n, to).Nodes() == t.Nodes()
    ensures forall x :: x in t.Nodes() && Under(t, n, x) ==>
                          Depth(Attach(t, n, to), x) == Depth(t, x) - Depth(t, n) + Depth(t, to) + 1
    ensures forall x :: x in t.Nodes() && !Under(t, n, x) ==> Path(Attach(t, n, to), x) == Path(t, x)
    ensures forall a, x :: a in t.Nodes() && x in t.Nodes() && Under(t, n, a) ==>
                             (Under(Attach(t, n, to), a, x) <==> Under(t, a, x))
    ensures forall a, x :: a in t.Nodes() && x in t.Nodes() && !Under(t, n, a) ==>
                             (Under(Attach(t, n, to), a, x) <==> if Under(t, n, x) then Under(t, a, to) else Under(t, a, x))
  {
    ReparentPaths(t, n, to);
    forall a, x | a in t.Nodes() && x in t.Nodes()
      ensures Under(Attach(t, n, to), a, x) <==>
              if Under(t, n, x) then (if Under(t, n, a) then Under(t, a, x) else Under(t, a, to)) else Under(t, a, x)
      ensures Under(t, n, a) && !Under(t, n, x) ==> !Under(t, a, x)
    {
      ReparentUnderOne(t, n, to, a, x);
    }
  }

  lemma ReparentUnderOne(t: Tree, n: Name, to: Name, a: Name, x: Name)
    requires IsTree(t) && n in t.parent && to in t.Nodes() && !Under(t, n, to)
    requires a in t.Nodes() && x in t.Nodes()
    requires IsTree(Attach(t, n, to)) && Attach(t, n, to).Nodes() == t.Nodes()
    requires (Under(t, n, x) ==> Depth(t, n) <= Depth(t, x)) && Path(Attach(t, n, to), x) == MovedPath(t, n, to, x)
    ensures Under(Attach(t, n, to), a, x) <==>
            if Under(t, n, x) then (if Under(t, n, a) then Under(t, a, x) else Under(t, a, to)) else Under(t, a, x)
    ensures Under(t, n, a) && !Under(t, n, x) ==> !Under(t, a, x)
  {
    if Under(t, n, a) && Under(t, a, x) {
      UnderTransitive(t, n, a, x);
    }
    if Under(t, n, x) {
      var d := Depth(t, n);
      var tail := Path(t, x)[d..];
      assert a in Path(t, to) + tail <==> a in Path(t, to) || a in tail;
      if Under(t, n, a) {
        if Under(t, a, to) {
          UnderTransitive(t, n, a, to);
        }
        if Under(t, a, x) {
          UnderPrefix(t, a, x);
          UnderPrefix(t, n, a);
          assert tail[Depth(t, a) - d] == a;
        }
        assert a in tail ==> a in Path(t, x);
      } else if a in tail {
        TailIsUnder(t, n, x, a);
        assert false;
      }
    }
  }

  /** Whatever is on the path of `x` from `n` on is below `n`. */
  lemma TailIsUnder(t: Tree, n: Name, x: Name, a: Name)
    requires IsTree(t) && n in t.Nodes() && Under(t, n, x) && Depth(t, n) <= Depth(t, x)
    requires a in Path(t, x)[Depth(t, n)..]
    ensures Under(t, n, a)
  {
    var d := Depth(t, n);
    var i :| d <= i < |Path(t, x)| && Path(t, x)[i] == a;
    UnderPrefix(t, n, x);
    PrefixIsPath(t, x, i);
    assert Path(t, a)[d] == n;
  }

  /** Moving `n` under `to` leaves a tree exactly when `to` is outside the subtree of `n`. */
  lemma ReparentTreeIff(t: Tree, n: Name, to: Name)
    requires IsTree(t) && n in t.parent && to in t.Nodes()
    ensures IsTree(Attach(t, n, to)) <==> !Under(t, n, to)
  {
    if !Under(t, n, to) {
      ReparentPaths(t, n, to);
    } else if IsTree(Attach(t, n, to)) {
      var t' := Attach(t, n, to);
      UnderPrefix(t, n, to);
      LinksBelowKeepLength(t, n, to, to);
      PathStep(t', n);
      assert false;
    }
  }

  /** If the re-parented links were still a tree, every namespace below `n` would stay as far below it. */
  lemma {:induction false} LinksBelowKeepLength(t: Tree, n: Name, to: Name, x: Name)
    requires IsTree(t) && n in t.parent && to in t.Nodes() && Under(t, n, x)
    requires IsTree(Attach(t, n, to)) && Attach(t, n, to).Nodes() == t.Nodes()
    ensures n in t.Nodes() && Depth(t, n) <= Depth(t, x)
    ensures Depth(Attach(t, n, to), x) - Depth(Attach(t, n, to), n) == Depth(t, x) - Depth(t, n)
    decreases Depth(t, x)
  {
    UnderPrefix(t, n, x);
    if x != n {
      MovedPathStep(t, n, to, x) by {
        PathStep(t, x);
        PathStep(t, n);
        UnderPrefix(t, n, x);
      }
      PathStep(t, x);
      PathStep(Attach(t, n, to), x);
      LinksBelowKeepLength(t, n, to, t.parent[x]);
    }
  }

  // ---------- small hierarchies ----------

  lemma RootAlone(root: Name)
    ensures var t := Tree(root, map[]); IsTree(t) && t.Nodes() == {root} && Path(t, root) == [root]
  {
    var t := Tree(root, map[]);
    assert PathsOf(t, map[root := [root]]);
    PathStep(t, root);
  }

  lemma DepthOfRoot(t: Tree)
    requires IsTree(t)
    ensures t.root in t.Nodes() && Depth(t, t.root) == 0
  {
    PathStep(t, t.root);
  }
}
