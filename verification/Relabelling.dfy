/** What the annotations say after any run of creates, deletes and migrations: the path of every
    namespace, an exact loop check, and which namespaces a ClusterResourceQuota selects.
 */
module Relabelling {
  import opened Hierarchy
  import opened Moves
  import opened DisplayName
  import opened Grouping
  import opened Labels

  // ---------- migration ----------

  /** The annotations once `n` has moved under `to` in tree `t`, and its subtree has been rewritten. */
  ghost function Migrated(t: Tree, ann: Annotated, n: Name, to: Name): (r: Annotated)
    requires IsTree(t) && ann.Keys == t.Nodes() && n in ann && to in ann
    ensures r.Keys == ann.Keys
  {
    var first := ann[n := Append(ann[n], BasedOnParent(ann[to], n))];
    map x | x in ann :: if Under(t, n, x) then Rewritten(t, first, n, x) else ann[x]
  }

  /** The recursive rewrite computes it. */
  method Relabel(t: Tree, ann: Annotated, n: Name, to: Name) returns (r: Annotated)
    requires IsTree(t) && ann.Keys == t.Nodes() && n in ann && to in ann
    ensures r == Migrated(t, ann, n, to)
  {
    hide IsTree, Rewritten;
    var relabeller := new Relabeller(t, ann);
    relabeller.UpdateBasedOnParent(to, n);
    relabeller.UpdateAllChildren(n);
    r := relabeller.ann;
    UnderSelf(t, n);
  }

  /** Each rewritten namespace carries its old annotations overwritten by those of its new parent. */
  lemma MigratedStep(t: Tree, ann: Annotated, n: Name, to: Name, x: Name)
    requires IsTree(t) && ann.Keys == t.Nodes() && n in t.parent && t.parent[n] == to && x in ann && Under(t, n, x)
    requires !Under(t, n, to) && to in ann
    ensures x in t.parent && t.parent[x] in ann
    ensures Migrated(t, ann, n, to)[x] == Append(ann[x], BasedOnParent(Migrated(t, ann, n, to)[t.parent[x]], x))
    ensures x != n ==> Under(t, n, t.parent[x])
  {
    hide IsTree, Under, Append, BasedOnParent;
    PathStep(t, x);
    UnderSelf(t, n);
    NotRoot(t, n, x);
    if x != n {
      StillBelow(t, n, x);
    }
  }

  lemma NotRoot(t: Tree, n: Name, x: Name)
    requires IsTree(t) && n in t.parent && Under(t, n, x)
    ensures x in t.parent && x != t.root
  {
    hide IsTree;
    PathStep(t, x);
    PathStep(t, n);
  }

  lemma OutsideAgrees(t: Tree, ann: Annotated, n: Name, to: Name, x: Name)
    requires Agrees(t, ann) && n in t.parent && to in t.Nodes() && !Under(t, n, to) && x in ann && !Under(t, n, x)
    ensures IsTree(Attach(t, n, to)) && Attach(t, n, to).Nodes() == t.Nodes() && !Under(Attach(t, n, to), n, x)
    ensures AgreesAt(Attach(t, n, to), Migrated(Attach(t, n, to), ann, n, to), x)
  {
    hide IsTree, Join, Depth, Under;
    ReparentUnder(t, n, to);
    UnderSelf(t, n);
    assert AgreesAt(t, ann, x);
  }

  lemma {:induction false} InsideAgrees(t: Tree, ann: Annotated, n: Name, to: Name, x: Name)
    requires Agrees(t, ann) && n in t.parent && to in t.Nodes() && !Under(t, n, to) && x in ann && Under(t, n, x)
    requires IsTree(Attach(t, n, to)) && Attach(t, n, to).Nodes() == t.Nodes()
    ensures AgreesAt(Attach(t, n, to), Migrated(Attach(t, n, to), ann, n, to), x)
    decreases Depth(Attach(t, n, to), x)
  {
    hide IsTree, Join, Under, Append, BasedOnParent, Agrees;
    var t' := Attach(t, n, to);
    var ann' := Migrated(t', ann, n, to);
    MovedNode(t, n, to, n, x);
    MovedNode(t, n, to, n, to);
    UnderSelf(t, n);
    MigratedStep(t', ann, n, to, x);
    PathStep(t', x);
    var p := t'.parent[x];
    if x == n {
      OutsideAgrees(t, ann, n, to, to);
    } else {
      MovedNode(t, n, to, n, p);
      InsideAgrees(t, ann, n, to, p);
    }
    ParentGives(t', ann, ann', x);
  }

  lemma ParentGives(t: Tree, ann: Annotated, ann': Annotated, x: Name)
    requires IsTree(t) && x in t.parent && x in ann && x in ann' && t.parent[x] in t.Nodes() && t.parent[x] in ann'
    requires AgreesAt(t, ann', t.parent[x]) && ann'[x] == Append(ann[x], BasedOnParent(ann'[t.parent[x]], x))
    ensures x in t.Nodes() && AgreesAt(t, ann', x)
  {
    hide IsTree, Join, Path;
    BasedAgrees(t, ann', ann'[t.parent[x]], x);
  }

  /** After a migration with its recursive rewrite, the annotations agree with the new hierarchy. */
  lemma MigrateAgrees(t: Tree, ann: Annotated, n: Name, to: Name)
    requires Agrees(t, ann) && n in t.parent && to in t.Nodes() && !Under(t, n, to)
    ensures IsTree(Attach(t, n, to)) && Attach(t, n, to).Nodes() == t.Nodes()
    ensures Agrees(Attach(t, n, to), Migrated(Attach(t, n, to), ann, n, to))
  {
    hide IsTree, Join, Under, Path, AgreesAt;
    ReparentIsTree(t, n, to);
    var t' := Attach(t, n, to);
    var ann' := Migrated(t', ann, n, to);
    forall x | x in ann' ensures AgreesAt(t', ann', x) {
      if Under(t, n, x) {
        InsideAgrees(t, ann, n, to, x);
      } else {
        OutsideAgrees(t, ann, n, to, x);
      }
    }
  }

  // ---------- the loop check ----------

  /** The migration check for loops: the destination's display name does not contain the namespace. */
  ghost predicate LoopCheckPasses(ann: Annotated, n: Name, to: Name)
    requires to in ann
  {
    n !in Split(ann[to].display)
  }

  lemma DisplaySplits(t: Tree, ann: Annotated, x: Name)
    requires Agrees(t, ann) && x in ann
    ensures Split(ann[x].display) == Path(t, x)
  {
    hide IsTree, Join;
    var display := map y | y in ann :: ann[y].display;
    assert forall y :: y in ann ==> AgreesAt(t, ann, y);
    SplitsToPath(t, display, x);
  }

  /** The check rejects exactly the destinations inside the moved subtree, which are exactly those for
      which re-parenting would not leave a tree. */
  lemma LoopCheckExact(t: Tree, ann: Annotated, n: Name, to: Name)
    requires Agrees(t, ann) && n in t.parent && to in t.Nodes()
    ensures LoopCheckPasses(ann, n, to) <==> !Under(t, n, to)
    ensures LoopCheckPasses(ann, n, to) <==> IsTree(Attach(t, n, to))
  {
    hide IsTree, Join;
    DisplaySplits(t, ann, to);
    ReparentTreeIff(t, n, to);
  }

  // ---------- runs ----------

  datatype Op = Create(name: Name, under: Name) | Delete(name: Name) | Migrate(name: Name, to: Name)

  datatype State = State(tree: Tree, ann: Annotated)

  /** One admitted operation.  That a migration leaves a tree, on which the rewrite is defined, is not
      part of the step: it follows from the loop check. */
  ghost predicate Step(s: State, op: Op, s': State)
    requires Agrees(s.tree, s.ann)
  {
    match op
    case Create(n, p) =>
      && ValidName(n) && n !in s.tree.Nodes() && p in s.tree.Nodes()
      && s' == State(Attach(s.tree, n, p), s.ann[n := BasedOnParent(s.ann[p], n)])
    case Delete(n) =>
      && n in s.tree.parent && s.tree.Children(n) == {}
      && s' == State(RemoveLeaf(s.tree, n), s.ann - {n})
    case Migrate(n, to) =>
      && n in s.tree.parent && to in s.tree.Nodes() && n != to && s.tree.parent[n] != to
      && LoopCheckPasses(s.ann, n, to)
      && s'.tree == Attach(s.tree, n, to)
      && (IsTree(s'.tree) && s'.tree.Nodes() == s.tree.Nodes() ==> s'.ann == Migrated(s'.tree, s.ann, n, to))
  }

  /** The step does not bring a namespace closer to the root. */
  ghost predicate NotShallower(s: State, op: Op)
    requires Agrees(s.tree, s.ann)
  {
    op.Migrate? && op.name in s.tree.Nodes() && op.to in s.tree.Nodes() ==>
      Depth(s.tree, op.to) + 1 >= Depth(s.tree, op.name)
  }

  ghost predicate Run(ss: seq<State>, ops: seq<Op>) {
    && |ss| == |ops| + 1
    && forall i :: 0 <= i < |ops| && Agrees(ss[i].tree, ss[i].ann) ==> Step(ss[i], ops[i], ss[i + 1])
  }

  lemma ValidNameHasNoSlash(n: Name)
    requires ValidName(n)
    ensures '/' !in n
  {
  }

  lemma StepAgrees(s: State, op: Op, s': State)
    requires Agrees(s.tree, s.ann) && Step(s, op, s')
    ensures Agrees(s'.tree, s'.ann)
  {
    hide IsTree, Agrees, Under;
    match op
    case Create(n, p) =>
      ValidNameHasNoSlash(n);
      CreateAgrees(s.tree, s.ann, n, p);
    case Delete(n) =>
      DeleteAgrees(s.tree, s.ann, n);
    case Migrate(n, to) =>
      LoopCheckExact(s.tree, s.ann, n, to);
      MigrateAgrees(s.tree, s.ann, n, to);
  }

  /** In every state of every run the hierarchy is a tree, every display name splits back into the path,
      the depth is its length minus one and crq-selector-k is its k-th element. */
  lemma {:induction false} RunAgrees(ss: seq<State>, ops: seq<Op>, k: nat, x: Name)
    requires Run(ss, ops) && Agrees(ss[0].tree, ss[0].ann) && k < |ss| && x in ss[k].ann
    ensures Agrees(ss[k].tree, ss[k].ann) && x in ss[k].tree.Nodes()
    ensures Split(ss[k].ann[x].display) == Path(ss[k].tree, x)
    ensures ss[k].ann[x].depth == Depth(ss[k].tree, x)
    ensures forall j: nat :: j <= Depth(ss[k].tree, x) ==>
                               j in ss[k].ann[x].selectors && ss[k].ann[x].selectors[j] == Path(ss[k].tree, x)[j]
  {
    hide IsTree, Step, Join;
    RunAlwaysAgrees(ss, ops, k);
    DisplaySplits(ss[k].tree, ss[k].ann, x);
    assert AgreesAt(ss[k].tree, ss[k].ann, x);
  }

  lemma {:induction false} RunAlwaysAgrees(ss: seq<State>, ops: seq<Op>, k: nat)
    requires Run(ss, ops) && Agrees(ss[0].tree, ss[0].ann) && k < |ss|
    ensures Agrees(ss[k].tree, ss[k].ann)
  {
    hide IsTree, Step, Agrees;
    if k > 0 {
      RunAlwaysAgrees(ss, ops, k - 1);
      StepAgrees(ss[k - 1], ops[k - 1], ss[k]);
    }
  }
}
