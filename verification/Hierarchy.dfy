/** The namespace hierarchy: a root and a parent link for every other namespace.

    The parent link is what a namespace's parent label and its Subnamespace object record.
    A hierarchy is a tree when every namespace has a root-to-node path; the paths are unique,
    so `Path` is a function of the tree.
 */
module Hierarchy {
  type Name = string

  datatype Tree = Tree(root: Name, parent: map<Name, Name>) {
    function Nodes(): set<Name> {
      parent.Keys + {root}
    }

    function Children(n: Name): set<Name> {
      set c | c in parent && parent[c] == n
    }
  }

  /** The path of `n` extends the path of its parent. */
  ghost predicate Extends(t: Tree, p: map<Name, seq<Name>>, n: Name)
    requires n in t.parent && n in p
  {
    t.parent[n] in p && p[n] == p[t.parent[n]] + [n]
  }

  /** `p` gives every namespace its root-to-node path. */
  ghost predicate PathsOf(t: Tree, p: map<Name, seq<Name>>) {
    && t.root !in t.parent
    && p.Keys == t.Nodes()
    && p[t.root] == [t.root]
    && forall n {:trigger Extends(t, p, n)} :: n in t.parent ==> Extends(t, p, n)
  }

  ghost predicate IsTree(t: Tree) {
    exists p :: PathsOf(t, p)
  }

  ghost function Paths(t: Tree): (p: map<Name, seq<Name>>)
    requires IsTree(t)
    ensures PathsOf(t, p)
  {
    var p :| PathsOf(t, p); p
  }

  ghost function Path(t: Tree, n: Name): (p: seq<Name>)
    requires IsTree(t) && n in t.Nodes()
    ensures |p| > 0
  {
    assert n in t.parent ==> Extends(t, Paths(t), n);
    Paths(t)[n]
  }

  ghost function Depth(t: Tree, n: Name): nat
    requires IsTree(t) && n in t.Nodes()
  {
    |Path(t, n)| - 1
  }

  /** `x` is `a` itself or a descendant of `a`. */
  ghost predicate Under(t: Tree, a: Name, x: Name)
    requires IsTree(t)
    ensures Under(t, a, x) ==> x in t.Nodes()
  {
    x in t.Nodes() && a in Path(t, x)
  }

  ghost function Subtree(t: Tree, a: Name): set<Name>
    requires IsTree(t)
  {
    set x | x in t.Nodes() && Under(t, a, x)
  }

  // ---------- paths ----------

  /** A path is the parent's path and the node itself; the root's path is the root alone. */
  lemma PathStep(t: Tree, n: Name)
    requires IsTree(t) && n in t.Nodes()
    ensures n == t.root <==> n !in t.parent
    ensures n == t.root ==> Path(t, n) == [n]
    ensures n != t.root ==> t.parent[n] in t.Nodes() && Path(t, n) == Path(t, t.parent[n]) + [n]
  {
    if n in t.parent {
      assert Extends(t, Paths(t), n);
    }
  }

  /** Every prefix of a root-to-node path is the path of its last element. */
  lemma {:induction false} PrefixIsPath(t: Tree, n: Name, i: nat)
    requires IsTree(t) && n in t.Nodes() && i < |Path(t, n)|
    ensures Path(t, n)[i] in t.Nodes()
    ensures Path(t, Path(t, n)[i]) == Path(t, n)[..i + 1]
    decreases |Path(t, n)|
  {
    var p := Path(t, n);
    PathStep(t, n);
    if i == |p| - 1 {
      assert p[..i + 1] == p;
      assert p[i] == n;
    } else {
      var q := Path(t, t.parent[n]);
      PrefixIsPath(t, t.parent[n], i);
      assert p[..i + 1] == q[..i + 1];
    }
  }

  /** A path starts at the root, ends at its node, and names no namespace twice. */
  lemma PathShape(t: Tree, n: Name)
    requires IsTree(t) && n in t.Nodes()
    ensures Path(t, n)[0] == t.root && Path(t, n)[|Path(t, n)| - 1] == n
    ensures forall i, j :: 0 <= i < j < |Path(t, n)| ==> Path(t, n)[i] != Path(t, n)[j]
  {
    var p := Path(t, n);
    PrefixIsPath(t, n, 0);
    PathStep(t, p[0]);
    PathStep(t, n);
    forall i, j | 0 <= i < j < |p| ensures p[i] != p[j] {
      PrefixIsPath(t, n, i);
      PrefixIsPath(t, n, j);
    }
  }

  /** Consecutive path elements are parent and child. */
  lemma PathEdge(t: Tree, n: Name, i: nat)
    requires IsTree(t) && n in t.Nodes() && i + 1 < |Path(t, n)|
    ensures Path(t, n)[i + 1] in t.parent && t.parent[Path(t, n)[i + 1]] == Path(t, n)[i]
  {
    var p := Path(t, n);
    PrefixIsPath(t, n, i);
    PrefixIsPath(t, n, i + 1);
    var c := p[i + 1];
    assert Path(t, c) == p[..i + 2];
    PathShape(t, n);
    PathStep(t, c);
    assert Path(t, c) == Path(t, t.parent[c]) + [c];
    assert Path(t, t.parent[c]) == p[..i + 1];
    PathShape(t, t.parent[c]);
    assert t.parent[c] == p[i];
  }

  /** Paths are determined by the parent links. */
  lemma {:induction false} PathsUnique(t: Tree, p: map<Name, seq<Name>>, q: map<Name, seq<Name>>)
    requires PathsOf(t, p) && PathsOf(t, q)
    ensures p == q
  {
    forall n | n in t.Nodes() ensures p[n] == q[n] {
      PathUnique(t, p, q, n);
    }
  }

  lemma {:induction false} PathUnique(t: Tree, p: map<Name, seq<Name>>, q: map<Name, seq<Name>>, n: Name)
    requires PathsOf(t, p) && PathsOf(t, q) && n in t.Nodes()
    ensures p[n] == q[n]
    decreases |p[n]|
  {
    if n != t.root {
      assert Extends(t, p, n) && Extends(t, q, n);
      PathUnique(t, p, q, t.parent[n]);
    }
  }

  // ---------- the descendant relation ----------

  /** `a` occurs on the path of `x` exactly at the depth of `a`, and everything up to it is `a`'s path. */
  lemma UnderPrefix(t: Tree, a: Name, x: Name)
    requires IsTree(t) && Under(t, a, x)
    ensures a in t.Nodes()
    ensures Depth(t, a) <= Depth(t, x) && Path(t, x)[Depth(t, a)] == a
    ensures Path(t, a) == Path(t, x)[..Depth(t, a) + 1]
  {
    var i :| 0 <= i < |Path(t, x)| && Path(t, x)[i] == a;
    PrefixIsPath(t, x, i);
  }

  lemma AncestorInTree(t: Tree, a: Name, x: Name)
    requires IsTree(t) && Under(t, a, x)
    ensures a in t.Nodes()
  {
    hide IsTree;
    UnderPrefix(t, a, x);
  }

  lemma UnderTransitive(t: Tree, a: Name, b: Name, c: Name)
    requires IsTree(t) && Under(t, a, b) && Under(t, b, c)
    ensures Under(t, a, c)
  {
    UnderPrefix(t, b, c);
  }

  /** Two ancestors of the same namespace are ordered. */
  lemma OneAboveTheOther(t: Tree, a: Name, b: Name, x: Name)
    requires IsTree(t) && Under(t, a, x) && Under(t, b, x)
    ensures Under(t, a, b) || Under(t, b, a)
  {
    hide IsTree;
    UnderPrefix(t, a, x);
    UnderPrefix(t, b, x);
    if Depth(t, a) <= Depth(t, b) {
      assert Path(t, b)[Depth(t, a)] == a;
    } else {
      assert Path(t, a)[Depth(t, b)] == b;
    }
  }

  /** Namespaces below `n` are at least as deep as `n`. */
  lemma UnderIsDeeper(t: Tree, n: Name, x: Name)
    requires IsTree(t) && Under(t, n, x)
    ensures n in t.Nodes() && Depth(t, n) <= Depth(t, x) && (Depth(t, n) == Depth(t, x) ==> x == n)
  {
    hide IsTree;
    UnderPrefix(t, n, x);
    PathShape(t, x);
  }

  lemma UnderSelf(t: Tree, a: Name)
    requires IsTree(t) && a in t.Nodes()
    ensures Under(t, a, a)
  {
    PathShape(t, a);
  }

  /** A child's subtree is strictly inside its parent's. */
  lemma ChildSubtree(t: Tree, c: Name)
    requires IsTree(t) && c in t.parent
    ensures Subtree(t, c) < Subtree(t, t.parent[c])
    ensures c in Subtree(t, c) && t.parent[c] !in Subtree(t, c)
  {
    var p := t.parent[c];
    PathStep(t, c);
    UnderSelf(t, c);
    UnderSelf(t, p);
    assert Under(t, p, c);
    forall x | x in Subtree(t, c) ensures x in Subtree(t, p) {
      UnderTransitive(t, p, c, x);
    }
    assert !Under(t, c, p) by {
      if Under(t, c, p) {
        UnderPrefix(t, c, p);
        assert false;
      }
    }
    assert Subtree(t, c) <= Subtree(t, p);
    assert p in Subtree(t, p);
  }

  /** Below `a` is `a` or below exactly one child of `a`. */
  lemma UnderViaChild(t: Tree, a: Name, x: Name) returns (c: Name)
    requires IsTree(t) && Under(t, a, x) && a != x
    ensures c in t.Children(a) && Under(t, c, x)
    ensures forall d :: d in t.Children(a) && Under(t, d, x) ==> d == c
  {
    UnderPrefix(t, a, x);
    PathShape(t, x);
    var d := Depth(t, a);
    assert d + 1 < |Path(t, x)|;
    PathEdge(t, x, d);
    c := Path(t, x)[d + 1];
    forall e | e in t.Children(a) && Under(t, e, x) ensures e == c {
      UnderPrefix(t, e, x);
      PathStep(t, e);
      assert Depth(t, e) == d + 1;
    }
  }

  // ---------- trees and chains of parent links ----------

  /** The namespace reached by following `k` parent links, staying at the root. */
  ghost function Climb(t: Tree, n: Name, k: nat): Name
    decreases k
  {
    if k == 0 || n !in t.parent then n else Climb(t, t.parent[n], k - 1)
  }

  ghost predicate ReachesRoot(t: Tree, n: Name) {
    exists k: nat :: Climb(t, n, k) == t.root
  }

  ghost function ChainPath(t: Tree, n: Name, k: nat): seq<Name>
    decreases k
  {
    if k == 0 || n !in t.parent then [n] else ChainPath(t, t.parent[n], k - 1) + [n]
  }

  /** `IsTree` says exactly that following parent links from any namespace ends at the root. */
  lemma TreeIffEveryChainReachesRoot(t: Tree)
    ensures IsTree(t) <==>
            && t.root !in t.parent
            && forall n :: n in t.Nodes() ==> ReachesRoot(t, n)
  {
    if IsTree(t) {
      forall n | n in t.Nodes() ensures ReachesRoot(t, n) {
        ClimbDepth(t, n);
      }
    }
    if && t.root !in t.parent
       && forall n :: n in t.Nodes() ==> ReachesRoot(t, n) {
      ChainsGivePaths(t);
    }
  }

  lemma {:induction false} ClimbDepth(t: Tree, n: Name)
    requires IsTree(t) && n in t.Nodes()
    ensures Climb(t, n, Depth(t, n)) == t.root
    decreases Depth(t, n)
  {
    PathStep(t, n);
    if n != t.root {
      ClimbDepth(t, t.parent[n]);
    }
  }

  ghost function Steps(t: Tree, n: Name): (k: nat)
    requires ReachesRoot(t, n)
    ensures Climb(t, n, k) == t.root
  {
    var k: nat :| Climb(t, n, k) == t.root; k
  }

  lemma ChainsGivePaths(t: Tree)
    requires t.root !in t.parent
    requires forall n :: n in t.Nodes() ==> ReachesRoot(t, n)
    ensures IsTree(t)
  {
    var steps := map n | n in t.Nodes() :: Steps(t, n);
    var p := map n | n in t.Nodes() :: ChainPath(t, n, steps[n]);
    forall n | n in t.parent ensures Extends(t, p, n) {
      var q := t.parent[n];
      assert Climb(t, n, steps[n]) == t.root;
      assert steps[n] > 0;
      assert Climb(t, q, steps[n] - 1) == t.root;
      ClimbStaysInside(t, q, steps[n] - 1);
      assert Climb(t, q, steps[q]) == t.root;
      ChainPathAnyLength(t, q, steps[n] - 1, steps[q]);
    }
    assert PathsOf(t, p);
  }

  lemma {:induction false} ClimbStaysInside(t: Tree, n: Name, k: nat)
    requires Climb(t, n, k) == t.root
    ensures n in t.Nodes()
  {
  }

  lemma {:induction false} ChainPathAnyLength(t: Tree, n: Name, j: nat, k: nat)
    requires t.root !in t.parent
    requires Climb(t, n, j) == t.root && Climb(t, n, k) == t.root
    ensures ChainPath(t, n, j) == ChainPath(t, n, k)
    decreases j
  {
    if n in t.parent {
      ChainPathAnyLength(t, t.parent[n], j - 1, k - 1);
    }
  }
}
