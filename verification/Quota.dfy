/** Hierarchical quota: every namespace owns a quota and hands part of it to its children.

    A `World` is the state right after the synced write: the quota object of a namespace
    carries what its Subnamespace spec asked for, which is what the admission checks read.
 */
module Quota {
  import opened Hierarchy
  import opened Moves
  import opened Resources

  datatype World = World(tree: Tree, quota: map<Name, ResourceList>)

  /** Well-formed: a tree in which every namespace has a quota naming every observed resource. */
  ghost predicate Valid(w: World, observed: set<Resource>)
    ensures Valid(w, observed) ==> IsTree(w.tree) && w.quota.Keys == w.tree.Nodes()
  {
    && IsTree(w.tree)
    && w.quota.Keys == w.tree.Nodes()
    && forall n :: n in w.quota ==> observed <= w.quota[n].Keys
  }

  /** All quotas name exactly the observed resources. */
  ghost predicate Uniform(w: World, observed: set<Resource>)
    ensures Uniform(w, observed) ==> Valid(w, observed)
  {
    Valid(w, observed) && forall n :: n in w.quota ==> w.quota[n].Keys == observed
  }

  ghost function ChildQuotas(w: World, n: Name, r: Resource): map<Name, int>
    requires w.tree.parent.Keys <= w.quota.Keys
  {
    map c | c in w.tree.parent && w.tree.parent[c] == n :: Get(w.quota[c], r)
  }

  /** What the children of `n` hold of `r`. */
  ghost function Allocated(w: World, n: Name, r: Resource): int
    requires w.tree.parent.Keys <= w.quota.Keys
  {
    Sum(ChildQuotas(w, n, r))
  }

  /** What `n` still has to give. */
  ghost function Free(w: World, n: Name, r: Resource): int
    requires w.tree.parent.Keys <= w.quota.Keys && n in w.quota
  {
    Get(w.quota[n], r) - Allocated(w, n, r)
  }

  /** No namespace owns less than nothing or hands out more than it owns. */
  ghost predicate Sound(w: World, observed: set<Resource>)
    requires Valid(w, observed)
  {
    forall n, r :: n in w.quota && r in observed ==> Get(w.quota[n], r) >= 0 && Free(w, n, r) >= 0
  }

  lemma AllocatedNonNegative(w: World, observed: set<Resource>, n: Name, r: Resource)
    requires Valid(w, observed) && r in observed
    requires forall c :: c in w.tree.parent && w.tree.parent[c] == n ==> Get(w.quota[c], r) >= 0
    ensures Allocated(w, n, r) >= 0
  {
    SumNonNegative(ChildQuotas(w, n, r));
  }

  // ---------- one quota write ----------

  function Write(w: World, n: Name, l: ResourceList): World {
    w.(quota := w.quota[n := l])
  }

  /** A write moves free quota along one parent link: what the child gains its parent loses. */
  lemma WriteFree(w: World, n: Name, l: ResourceList, x: Name, r: Resource)
    requires IsTree(w.tree) && w.quota.Keys == w.tree.Nodes()
    requires n in w.tree.parent && x in w.quota
    ensures var delta := Get(l, r) - Get(w.quota[n], r);
            Free(Write(w, n, l), x, r) ==
            Free(w, x, r) + (if x == n then delta else 0) - (if x == w.tree.parent[n] then delta else 0)
  {
    hide Sum, IsTree;
    var w' := Write(w, n, l);
    var p := w.tree.parent[n];
    assert p != n by {
      ChildSubtree(w.tree, n);
    }
    if x == p {
      assert ChildQuotas(w', x, r) == ChildQuotas(w, x, r)[n := Get(l, r)];
      SumSet(ChildQuotas(w, x, r), n, Get(l, r));
    } else {
      assert ChildQuotas(w', x, r) == ChildQuotas(w, x, r);
    }
  }

  lemma WriteValid(w: World, observed: set<Resource>, n: Name, l: ResourceList)
    requires Valid(w, observed) && n in w.quota && observed <= l.Keys
    ensures Valid(Write(w, n, l), observed)
    ensures Uniform(w, observed) && l.Keys == observed ==> Uniform(Write(w, n, l), observed)
  {
  }

  lemma MoveAllocated(w: World, n: Name, to: Name, x: Name, r: Resource)
    requires w.tree.parent.Keys <= w.quota.Keys && n in w.tree.parent
    ensures Allocated(w.(tree := Attach(w.tree, n, to)), x, r) ==
            Allocated(w, x, r)
            + (if x == to then Get(w.quota[n], r) else 0)
            - (if x == w.tree.parent[n] then Get(w.quota[n], r) else 0)
  {
    hide Sum;
    var w' := w.(tree := Attach(w.tree, n, to));
    var before, after := ChildQuotas(w, x, r), ChildQuotas(w', x, r);
    if x == to && x != w.tree.parent[n] {
      assert after == before[n := Get(w.quota[n], r)];
      SumSet(before, n, Get(w.quota[n], r));
    } else if x == w.tree.parent[n] && x != to {
      assert before == after[n := Get(w.quota[n], r)];
      SumSet(after, n, Get(w.quota[n], r));
    } else {
      assert after == before;
    }
  }

  /** Re-parenting moves the quota of the migrated namespace between the two parents' free quota. */
  lemma MoveFree(w: World, n: Name, to: Name, x: Name, r: Resource)
    requires w.tree.parent.Keys <= w.quota.Keys && n in w.tree.parent && x in w.quota
    ensures Free(w.(tree := Attach(w.tree, n, to)), x, r) ==
            Free(w, x, r)
            + (if x == w.tree.parent[n] then Get(w.quota[n], r) else 0)
            - (if x == to then Get(w.quota[n], r) else 0)
  {
    MoveAllocated(w, n, to, x, r);
  }
}
