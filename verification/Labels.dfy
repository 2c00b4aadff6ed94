/** The hierarchy annotations of a namespace - display name, depth and CRQ selectors - as they are
    derived from the parent at creation and rewritten over a whole subtree by a migration.

    A rewrite only adds and overwrites annotations, so selectors of levels that a namespace no longer
    has stay behind.
 */
module Labels {
  import opened Hierarchy
  import opened Moves
  import opened Listings
  import opened DisplayName
  import opened Grouping

  /** `selectors[k]` is the crq-selector-k annotation. */
  datatype Annotations = Annotations(display: string, depth: nat, selectors: map<nat, Name>)

  type Annotated = map<Name, Annotations>

  function BasedOnParent(parent: Annotations, n: Name): Annotations {
    Annotations(parent.display + "/" + n, parent.depth + 1, parent.selectors[parent.depth + 1 := n])
  }

  /** Appending overwrites what is given and leaves the rest. */
  function Append(held: Annotations, given: Annotations): Annotations {
    Annotations(given.display, given.depth, held.selectors + given.selectors)
  }

  // ---------- agreement with the hierarchy ----------

  ghost predicate AgreesAt(t: Tree, ann: Annotated, x: Name)
    requires IsTree(t) && x in t.Nodes() && x in ann
  {
    var p := Path(t, x);
    && ann[x].display == Join(p)
    && ann[x].depth == |p| - 1
    && forall k: nat :: k < |p| ==> k in ann[x].selectors && ann[x].selectors[k] == p[k]
  }

  ghost predicate Agrees(t: Tree, ann: Annotated)
    ensures Agrees(t, ann) ==> IsTree(t) && ann.Keys == t.Nodes()
  {
    && IsTree(t) && ann.Keys == t.Nodes()
    && (forall x :: x in ann ==> '/' !in x)
    && forall x :: x in ann ==> AgreesAt(t, ann, x)
  }

  /** No selector of a level below the namespace's own. */
  ghost predicate Tidy(t: Tree, ann: Annotated)
    requires Agrees(t, ann)
  {
    forall x, k: nat :: x in ann && k in ann[x].selectors ==> k <= Depth(t, x)
  }

  /** The annotations of a child whose parent agrees, agree. */
  lemma BasedAgrees(t: Tree, ann: Annotated, parent: Annotations, x: Name)
    requires IsTree(t) && x in t.parent && x in ann && t.parent[x] in t.Nodes()
    requires AgreesAt(t, map[t.parent[x] := parent], t.parent[x])
    requires ann[x].display == BasedOnParent(parent, x).display && ann[x].depth == BasedOnParent(parent, x).depth
    requires forall k :: k in BasedOnParent(parent, x).selectors ==>
                           k in ann[x].selectors && ann[x].selectors[k] == BasedOnParent(parent, x).selectors[k]
    ensures x in t.Nodes() && AgreesAt(t, ann, x)
  {
    hide IsTree;
    PathStep(t, x);
    var p, q := Path(t, x), Path(t, t.parent[x]);
    assert p[..|p| - 1] == q;
    forall k: nat | k < |p| ensures k in ann[x].selectors && ann[x].selectors[k] == p[k] {
      assert k < |q| ==> k in parent.selectors && parent.selectors[k] == q[k];
      assert k in BasedOnParent(parent, x).selectors;
    }
  }

  lemma CreateAgrees(t: Tree, ann: Annotated, n: Name, p: Name)
    requires Agrees(t, ann) && n !in t.Nodes() && p in t.Nodes() && '/' !in n
    ensures Agrees(Attach(t, n, p), ann[n := BasedOnParent(ann[p], n)])
    ensures Tidy(t, ann) ==> Tidy(Attach(t, n, p), ann[n := BasedOnParent(ann[p], n)])
  {
    hide IsTree, Join;
    AddLeafPaths(t, n, p);
    var t', ann' := Attach(t, n, p), ann[n := BasedOnParent(ann[p], n)];
    forall x | x in ann' ensures AgreesAt(t', ann', x) {
      if x == n {
        assert AgreesAt(t, ann, p);
        BasedAgrees(t', ann', ann[p], n);
      } else {
        assert AgreesAt(t, ann, x);
      }
    }
    assert AgreesAt(t, ann, p);
  }

  /** The annotations that spell out the hierarchy, with no selector too many. */
  ghost function AnnotationsOf(t: Tree): Annotated
    requires IsTree(t)
  {
    map x | x in t.Nodes() :: Spelled(Path(t, x))
  }

  ghost function Spelled(path: seq<Name>): Annotations
    requires |path| > 0
  {
    Annotations(Join(path), |path| - 1, map k: nat | k < |path| :: path[k])
  }

  lemma AnnotationsOfAgree(t: Tree)
    requires IsTree(t) && forall x :: x in t.Nodes() ==> '/' !in x
    ensures Agrees(t, AnnotationsOf(t)) && Tidy(t, AnnotationsOf(t))
  {
    hide IsTree, Join;
    forall x | x in t.Nodes() ensures AgreesAt(t, AnnotationsOf(t), x) {
    }
  }

  lemma DeleteAgrees(t: Tree, ann: Annotated, n: Name)
    requires Agrees(t, ann) && n in t.parent && t.Children(n) == {}
    ensures Agrees(RemoveLeaf(t, n), ann - {n})
    ensures Tidy(t, ann) ==> Tidy(RemoveLeaf(t, n), ann - {n})
  {
    hide IsTree, Join;
    RemoveLeafPaths(t, n);
    forall x | x in ann && x != n ensures AgreesAt(RemoveLeaf(t, n), ann - {n}, x) {
      assert AgreesAt(t, ann, x);
    }
  }

  // ---------- the recursive rewrite ----------

  /** What `x`, at or below `p`, carries once everything strictly below `p` has been rewritten. */
  ghost function Rewritten(t: Tree, ann: Annotated, p: Name, x: Name): Annotations
    requires IsTree(t) && ann.Keys == t.Nodes() && x in t.Nodes()
    decreases Depth(t, x)
  {
    PathStep(t, x);
    if x == p || x == t.root then ann[x]
    else Append(ann[x], BasedOnParent(Rewritten(t, ann, p, t.parent[x]), x))
  }

  class Relabeller {
    const tree: Tree
    var ann: Annotated

    constructor (tree: Tree, ann: Annotated)
      ensures this.tree == tree && this.ann == ann
    {
      this.tree, this.ann := tree, ann;
    }

    ghost predicate Usable()
      reads this
    {
      IsTree(tree) && ann.Keys == tree.Nodes()
    }

    method UpdateBasedOnParent(p: Name, c: Name)
      requires Usable() && p in ann && c in ann
      modifies this
      ensures Usable() && ann == old(ann)[c := Append(old(ann)[c], BasedOnParent(old(ann)[p], c))]
    {
      var given := BasedOnParent(ann[p], c);
      ann := ann[c := Append(ann[c], given)];
    }

    /** Rewrites every namespace strictly below `p`, parents first, and nothing else. */
    method UpdateAllChildren(p: Name)
      requires Usable() && p in ann
      modifies this
      ensures Usable()
      ensures forall x :: x in ann ==> ann[x] == if Under(tree, p, x) then Rewritten(tree, old(ann), p, x) else old(ann)[x]
      decreases Subtree(tree, p)
    {
      hide IsTree, Path, Depth, Under, Rewritten, Append, BasedOnParent;
      var kids := ListNames(tree.Children(p));
      ghost var start := ann;
      NothingRewritten(tree, start, p);
      for i := 0 to |kids|
        invariant Usable()
        invariant forall x :: x in ann ==> ann[x] == if BelowFirst(tree, kids, i, x) then Rewritten(tree, start, p, x) else start[x]
      {
        var c := kids[i];
        assert c in tree.Children(p);
        ChildSubtree(tree, c);
        ChildFresh(tree, p, kids, i);
        UpdateBasedOnParent(p, c);
        ghost var mid := ann;
        UpdateAllChildren(c);
        forall x | x in ann
          ensures ann[x] == if BelowFirst(tree, kids, i + 1, x) then Rewritten(tree, start, p, x) else start[x]
        {
          BelowNext(tree, kids, i, x);
          if Under(tree, c, x) {
            SameBelowChild(tree, start, mid, p, c, x);
          } else {
            UnderSelf(tree, c);
          }
        }
      }
      AllBelow(tree, p, kids);
      RewrittenSelf(tree, start, p);
    }
  }

  ghost predicate BelowFirst(t: Tree, kids: seq<Name>, i: nat, x: Name)
    requires IsTree(t) && i <= |kids|
  {
    exists j :: 0 <= j < i && Under(t, kids[j], x)
  }

  lemma NothingRewritten(t: Tree, ann: Annotated, p: Name)
    requires IsTree(t) && ann.Keys == t.Nodes() && p in ann
    ensures forall x :: x in ann ==> !BelowFirst(t, [], 0, x)
  {
  }

  /** Before its turn a child and everything below it is untouched, and so is the parent. */
  lemma ChildFresh(t: Tree, p: Name, kids: seq<Name>, i: nat)
    requires IsTree(t) && p in t.Nodes() && Lists(kids, t.Children(p)) && i < |kids|
    ensures !BelowFirst(t, kids, i, p)
    ensures forall x :: Under(t, kids[i], x) ==> !BelowFirst(t, kids, i, x)
  {
    hide IsTree, Path, Depth, Under;
    forall j | 0 <= j < i ensures !Under(t, kids[j], p) {
      assert kids[j] in t.Children(p);
      ChildSubtree(t, kids[j]);
    }
    forall x, j | Under(t, kids[i], x) && 0 <= j < i ensures !Under(t, kids[j], x) {
      assert kids[i] in t.Children(p) && kids[j] in t.Children(p);
      ChildSubtree(t, kids[i]);
      assert kids[i] in Subtree(t, p);
      UnderTransitive(t, p, kids[i], x);
      assert p != x;
      var c := UnderViaChild(t, p, x);
    }
  }

  lemma RewrittenSelf(t: Tree, ann: Annotated, p: Name)
    requires IsTree(t) && ann.Keys == t.Nodes() && p in ann
    ensures Rewritten(t, ann, p, p) == ann[p] && Under(t, p, p)
  {
    UnderSelf(t, p);
  }

  lemma AllBelow(t: Tree, p: Name, kids: seq<Name>)
    requires IsTree(t) && p in t.Nodes() && Lists(kids, t.Children(p))
    ensures forall x :: x in t.Nodes() ==> (BelowFirst(t, kids, |kids|, x) <==> x != p && Under(t, p, x))
  {
    hide IsTree, Path, Depth, Under;
    forall x | x in t.Nodes() ensures BelowFirst(t, kids, |kids|, x) <==> x != p && Under(t, p, x) {
      if BelowFirst(t, kids, |kids|, x) {
        var j :| 0 <= j < |kids| && Under(t, kids[j], x);
        assert kids[j] in t.Children(p);
        ChildSubtree(t, kids[j]);
        assert x in Subtree(t, kids[j]);
      }
      if x != p && Under(t, p, x) {
        var c := UnderViaChild(t, p, x);
        var j :| 0 <= j < |kids| && kids[j] == c;
      }
    }
  }

  lemma BelowNext(t: Tree, kids: seq<Name>, i: nat, x: Name)
    requires IsTree(t) && i < |kids|
    ensures BelowFirst(t, kids, i + 1, x) <==> BelowFirst(t, kids, i, x) || Under(t, kids[i], x)
  {
    hide IsTree, Under;
  }

  /** Rewriting below a child, after the child itself, is the rewrite seen from the parent. */
  lemma {:induction false} SameBelowChild(t: Tree, start: Annotated, mid: Annotated, p: Name, c: Name, x: Name)
    requires IsTree(t) && start.Keys == mid.Keys == t.Nodes() && p in start && c in t.Children(p) && Under(t, c, x)
    requires mid[c] == Append(start[c], BasedOnParent(start[p], c))
    requires forall y :: Under(t, c, y) && y != c ==> mid[y] == start[y]
    ensures Rewritten(t, mid, c, x) == Rewritten(t, start, p, x)
    decreases Depth(t, x)
  {
    hide IsTree, Under, Append, BasedOnParent;
    PathStep(t, x);
    PathStep(t, c);
    UnderPrefix(t, c, x);
    ChildSubtree(t, c);
    assert x in Subtree(t, c);
    assert x != p && x != t.root by {
      if x == t.root {
        UnderIsDeeper(t, c, x);
      }
    }
    if x != c {
      StillBelow(t, c, x);
      SameBelowChild(t, start, mid, p, c, t.parent[x]);
    }
  }

  lemma StillBelow(t: Tree, c: Name, x: Name)
    requires IsTree(t) && Under(t, c, x) && x != c && x in t.parent
    ensures Under(t, c, t.parent[x])
  {
    hide IsTree;
    PathStep(t, x);
  }
}
