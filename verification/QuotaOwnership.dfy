/** What the synced annotations say about pools: the top of a pool's segment, and the namespace whose
    quota object applies.
 */
module QuotaOwnership {
  import opened Hierarchy
  import opened ResourcePool

  /** The pool annotations of a Subnamespace.  `upperRp` is absent before the first sync. */
  datatype Upper = Absent | Present(name: Name)
  datatype PoolAnnotations = PoolAnnotations(isRq: bool, isUpper: bool, upperRp: Upper, crqPointer: Name)

  type Marked = map<Name, PoolAnnotations>

  /** A quota object of kind ResourceQuota: shallow enough and not a pool. */
  ghost predicate IsRq(t: Tree, labels: PoolLabels, rq: nat, n: Name)
    requires IsTree(t) && n in t.Nodes()
  {
    Depth(t, n) <= rq && !IsPool(labels, n)
  }

  /** The upper pool's name as read from the parent Subnamespace.  The flag consulted first is the
      Subnamespace's own, which the sync has just cleared, so the parent's annotation decides. */
  function UpperFromParent(ownFlag: bool, parent: Name, parentUpper: Upper): Name {
    if ownFlag then parent else if parentUpper.Present? then parentUpper.name else "none"
  }

  function CrqPointer(isRq: bool, text: string, isUpper: bool, upperRp: Name, n: Name): Name {
    if isRq then n else if text == "false" || isUpper then n else upperRp
  }

  /** The annotations that a sync of `n` writes. */
  ghost function Synced(t: Tree, labels: PoolLabels, rq: nat, marks: Marked, n: Name): PoolAnnotations
    requires IsTree(t) && n in t.parent && n in labels
  {
    PathStep(t, n);
    var p := t.parent[n];
    var upper := IsUpper(t, labels, n);
    var name := if upper then n else UpperFromParent(false, p, if p in marks then marks[p].upperRp else Absent);
    PoolAnnotations(IsRq(t, labels, rq, n), upper, Present(name), CrqPointer(IsRq(t, labels, rq, n), labels[n], upper, name, n))
  }

  /** A state that no sync of labels or annotations changes. */
  ghost predicate Stable(t: Tree, labels: PoolLabels, rq: nat, marks: Marked)
    ensures Stable(t, labels, rq, marks) ==> WellLabelled(t, labels)
  {
    && WellLabelled(t, labels) && Quiet(t, labels) && marks.Keys == t.parent.Keys
    && forall n :: n in marks ==> marks[n] == Synced(t, labels, rq, marks, n)
  }

  // ---------- pools in a stable state ----------

  lemma PoolsGrowDownwards(t: Tree, labels: PoolLabels, a: Name, x: Name)
    requires WellLabelled(t, labels) && Quiet(t, labels) && Under(t, a, x) && IsPool(labels, a)
    ensures IsPool(labels, x)
  {
    hide IsTree, Quiet;
    QuietIsClosure(t, labels, x);
  }

  /** On every root-to-node path there is at most one upper pool. */
  lemma OneUpperPerPath(t: Tree, labels: PoolLabels, a: Name, b: Name, x: Name)
    requires WellLabelled(t, labels) && Quiet(t, labels) && Under(t, a, x) && Under(t, b, x)
    requires a in t.parent && b in t.parent && IsUpper(t, labels, a) && IsUpper(t, labels, b)
    ensures a == b
  {
    hide IsTree, Quiet, Under;
    OneAboveTheOther(t, a, b, x);
    if Under(t, a, b) {
      StrictlyBelowIsNotUpper(t, labels, a, b);
    } else {
      StrictlyBelowIsNotUpper(t, labels, b, a);
    }
  }

  lemma StrictlyBelowIsNotUpper(t: Tree, labels: PoolLabels, a: Name, b: Name)
    requires WellLabelled(t, labels) && Quiet(t, labels) && Under(t, a, b) && a in t.parent && b in t.parent && IsPool(labels, a)
    ensures a != b ==> !IsUpper(t, labels, b)
  {
    hide IsTree, Quiet, Under;
    if a != b {
      AboveParent(t, a, b);
      PoolsGrowDownwards(t, labels, a, t.parent[b]);
      PathStep(t, b);
      PathStep(t, t.root);
    }
  }

  /** In a stable state is-upper-rp marks exactly the tops of pools, and is-rq exactly the regular namespaces
      that are shallow enough. */
  lemma MarksMean(t: Tree, labels: PoolLabels, rq: nat, marks: Marked, n: Name)
    requires Stable(t, labels, rq, marks) && n in t.parent && n in t.Nodes()
    ensures n in marks
    ensures marks[n].isUpper <==> IsPool(labels, n) && forall a :: Under(t, a, n) && a != n ==> !IsPool(labels, a)
    ensures marks[n].isRq <==> Depth(t, n) <= rq && !IsPool(labels, n)
  {
    hide IsTree, Quiet, Under, Truthy;
    PathStep(t, n);
    PathStep(t, t.root);
    UnderSelf(t, n);
    assert marks[n] == Synced(t, labels, rq, marks, n);
    var p := t.parent[n];
    ChildSubtree(t, n);
    assert n in Subtree(t, p) && p != n;
    assert Under(t, p, n);
    forall a | Under(t, a, n) && a != n && IsPool(labels, a) ensures IsPool(labels, p) {
      AboveParent(t, a, n);
      PoolsGrowDownwards(t, labels, a, p);
    }
  }

  /** The namespace holds the quota object that applies to it: regular, or top of a pool. */
  ghost predicate Owns(t: Tree, labels: PoolLabels, n: Name) {
    n in t.parent && (!IsPool(labels, n) || IsUpper(t, labels, n))
  }

  ghost predicate NearestOwner(t: Tree, labels: PoolLabels, n: Name, o: Name)
    requires IsTree(t)
  {
    && Under(t, o, n) && Owns(t, labels, o)
    && forall b :: Under(t, b, n) && Owns(t, labels, b) ==> Under(t, b, o)
  }

  /** In a stable state upper-rp names the upper pool above a pool, and says "none" for the others. */
  lemma {:induction false} UpperRpNamesTop(t: Tree, labels: PoolLabels, rq: nat, marks: Marked, n: Name)
    requires Stable(t, labels, rq, marks) && n in t.parent
    ensures marks[n].upperRp.Present?
    ensures !IsPool(labels, n) ==> marks[n].upperRp.name == "none"
    ensures IsPool(labels, n) ==>
              var u := marks[n].upperRp.name; u in t.parent && Under(t, u, n) && IsUpper(t, labels, u)
    decreases Depth(t, n)
  {
    hide IsTree, Quiet, Under, IsPool;
    PathStep(t, n);
    PathStep(t, t.root);
    UnderSelf(t, n);
    assert marks[n] == Synced(t, labels, rq, marks, n);
    var p := t.parent[n];
    QuietMeansClosed(t, labels, n);
    if !IsUpper(t, labels, n) && p != t.root {
      UpperRpNamesTop(t, labels, rq, marks, p);
      ChildSubtree(t, n);
      assert n in Subtree(t, p);
      if IsPool(labels, p) {
        UnderTransitive(t, marks[p].upperRp.name, p, n);
      }
    }
  }

  /** The owner that is nearest above a pool is the top of its segment. */
  lemma TopIsNearestOwner(t: Tree, labels: PoolLabels, n: Name, u: Name)
    requires WellLabelled(t, labels) && Quiet(t, labels) && n in t.parent && IsPool(labels, n)
    requires u in t.parent && Under(t, u, n) && IsUpper(t, labels, u)
    ensures NearestOwner(t, labels, n, u)
  {
    hide IsTree, Quiet, Under;
    forall b | Under(t, b, n) && Owns(t, labels, b) ensures Under(t, b, u) {
      OneAboveTheOther(t, b, u, n);
      if Under(t, u, b) && b != u {
        PoolsGrowDownwards(t, labels, u, b);
        StrictlyBelowIsNotUpper(t, labels, u, b);
        assert false;
      }
      UnderSelf(t, u);
    }
  }

  lemma RegularIsItsOwner(t: Tree, labels: PoolLabels, n: Name)
    requires IsTree(t) && n in t.parent && !IsPool(labels, n)
    ensures NearestOwner(t, labels, n, n)
  {
    hide IsTree;
    PathStep(t, n);
    UnderSelf(t, n);
  }

  lemma NearestOwnerUnique(t: Tree, labels: PoolLabels, n: Name, o: Name, q: Name)
    requires IsTree(t) && NearestOwner(t, labels, n, o) && NearestOwner(t, labels, n, q)
    ensures o == q
  {
    hide IsTree, Under;
    UnderIsDeeper(t, o, q);
    UnderIsDeeper(t, q, o);
  }

  /** In a stable state crq-pointer names the nearest namespace at or above that owns a quota object, if
      and only if it is a pool, is shallow, or carries the literal label "false": a regular, deep
      namespace labelled regular in another spelling points to "none". */
  lemma CrqPointerIff(t: Tree, labels: PoolLabels, rq: nat, marks: Marked, n: Name)
    requires Stable(t, labels, rq, marks) && n in t.parent && n != "none"
    ensures n in t.Nodes()
    ensures NearestOwner(t, labels, n, marks[n].crqPointer) <==>
            IsPool(labels, n) || Depth(t, n) <= rq || labels[n] == "false"
  {
    hide IsTree, Quiet, Under, IsPool, NearestOwner;
    PathStep(t, n);
    assert marks[n] == Synced(t, labels, rq, marks, n);
    UpperRpNamesTop(t, labels, rq, marks, n);
    if IsPool(labels, n) {
      PoolPointer(t, labels, rq, marks, n);
    } else {
      RegularIsItsOwner(t, labels, n);
      RegularIsNotUpper(t, labels, n);
      if NearestOwner(t, labels, n, marks[n].crqPointer) {
        NearestOwnerUnique(t, labels, n, n, marks[n].crqPointer);
      }
    }
  }

  /** A regular namespace points to itself or to "none". */
  lemma RegularPointerIff(t: Tree, labels: PoolLabels, rq: nat, marks: Marked, n: Name)
    requires Stable(t, labels, rq, marks) && n in t.Nodes() && n in t.parent && !IsPool(labels, n) && n != "none"
    ensures n in marks && n in labels
    ensures marks[n].crqPointer == n <==> Depth(t, n) <= rq || labels[n] == "false"
    ensures marks[n].crqPointer != n ==> marks[n].crqPointer == "none"
  {
    hide IsTree, Quiet, Under, IsPool, NearestOwner;
    PathStep(t, n);
    assert marks[n] == Synced(t, labels, rq, marks, n);
    UpperRpNamesTop(t, labels, rq, marks, n);
    RegularIsNotUpper(t, labels, n);
    RegularIsItsOwner(t, labels, n);
    CrqPointerIff(t, labels, rq, marks, n);
  }

  lemma RegularIsNotUpper(t: Tree, labels: PoolLabels, n: Name)
    requires n in t.parent && !IsPool(labels, n)
    ensures !IsUpper(t, labels, n)
  {
  }

  lemma PoolPointer(t: Tree, labels: PoolLabels, rq: nat, marks: Marked, n: Name)
    requires Stable(t, labels, rq, marks) && n in t.parent && IsPool(labels, n)
    ensures NearestOwner(t, labels, n, marks[n].crqPointer)
  {
    hide IsTree, Quiet, Under, NearestOwner;
    PathStep(t, n);
    assert marks[n] == Synced(t, labels, rq, marks, n);
    UpperRpNamesTop(t, labels, rq, marks, n);
    TopIsNearestOwner(t, labels, n, marks[n].upperRp.name);
    assert labels[n] != "false" by {
      assert Truthy(labels[n]);
    }
  }
}
