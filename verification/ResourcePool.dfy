/** ResourcePools: how the pool label spreads down the hierarchy, and what the synced annotations say
    about which namespace owns the quota object.
 */
module ResourcePool {
  import opened Hierarchy
  import opened Resources
  import opened Listings

  // ---------- labels ----------

  predicate Truthy(text: string) {
    text in {"1", "t", "T", "TRUE", "true", "True"}
  }

  predicate Falsy(text: string) {
    text in {"0", "f", "F", "FALSE", "false", "False"}
  }

  function FormatBool(b: bool): string {
    if b then "true" else "false"
  }

  /** The labels of the Subnamespaces; the root namespace has none. */
  type PoolLabels = map<Name, string>

  /** Labelled as pool; a missing label and the root count as regular. */
  predicate IsPool(labels: PoolLabels, n: Name) {
    n in labels && Truthy(labels[n])
  }

  /** The label is absent or parses as a boolean. */
  predicate Readable(labels: PoolLabels, n: Name) {
    n in labels ==> labels[n] == "" || Truthy(labels[n]) || Falsy(labels[n])
  }

  /** The spellings that are read: six of true, six of false, and none at all, which counts as false. */
  lemma LabelTable(labels: PoolLabels, n: Name)
    requires n in labels
    ensures IsPool(labels, n) <==> labels[n] in {"1", "t", "T", "true", "TRUE", "True"}
    ensures Readable(labels, n) && !IsPool(labels, n) <==> labels[n] in {"", "0", "f", "F", "false", "FALSE", "False"}
  {
  }

  /** Every label is absent or a boolean. */
  ghost predicate WellLabelled(t: Tree, labels: PoolLabels)
    ensures WellLabelled(t, labels) ==> IsTree(t)
  {
    && IsTree(t) && labels.Keys == t.parent.Keys
    && forall n :: n in labels ==> Readable(labels, n)
  }

  /** A pool whose parent is the root namespace or regular. */
  predicate IsUpper(t: Tree, labels: PoolLabels, n: Name)
    requires n in t.parent
  {
    IsPool(labels, n) && (t.parent[n] == t.root || !IsPool(labels, t.parent[n]))
  }

  /** The label a child has after its parent namespace is synced. */
  function ChildLabel(t: Tree, labels: PoolLabels, c: Name): string
    requires c in t.parent && c in labels
  {
    var pool := IsPool(labels, t.parent[c]);
    if IsPool(labels, c) != pool && !IsUpper(t, labels, c) then FormatBool(pool) else labels[c]
  }

  /** The label a Subnamespace without one gets from its parent. */
  function FirstLabel(t: Tree, labels: PoolLabels, c: Name): string
    requires c in t.parent && c in labels
  {
    if labels[c] == "" then FormatBool(IsPool(labels, t.parent[c])) else labels[c]
  }

  /** The only label a sync ever changes is that of a regular child of a pool. */
  lemma OnlyRegularUnderPoolChanges(t: Tree, labels: PoolLabels, c: Name)
    requires c in t.parent && labels.Keys == t.parent.Keys && t.root !in t.parent
    ensures ChildLabel(t, labels, c) == if IsPool(labels, t.parent[c]) && !IsPool(labels, c) then "true" else labels[c]
  {
  }

  // ---------- convergence ----------

  /** A sync of the parent namespace, or of an unlabelled Subnamespace, that changes the label of `c`. */
  ghost predicate LabelStep(t: Tree, labels: PoolLabels, c: Name, labels': PoolLabels)
    requires WellLabelled(t, labels)
  {
    && c in t.parent && labels' != labels
    && (|| (t.parent[c] != t.root && labels' == labels[c := ChildLabel(t, labels, c)])
        || labels' == labels[c := FirstLabel(t, labels, c)])
  }

  /** The namespace is a pool or below one. */
  ghost predicate InClosure(t: Tree, labels: PoolLabels, x: Name)
    requires IsTree(t)
  {
    exists a :: Under(t, a, x) && IsPool(labels, a)
  }

  ghost function Unsettled(t: Tree, labels: PoolLabels): set<Name>
    requires IsTree(t)
  {
    set x | x in t.parent && !IsPool(labels, x) && InClosure(t, labels, x)
  }

  ghost function Unlabelled(labels: PoolLabels): set<Name> {
    set x | x in labels && labels[x] == ""
  }

  lemma StepSetsTrueOrFalse(t: Tree, labels: PoolLabels, c: Name, labels': PoolLabels)
    requires WellLabelled(t, labels) && LabelStep(t, labels, c, labels')
    ensures WellLabelled(t, labels') && c in labels' && labels' == labels[c := labels'[c]]
    ensures if IsPool(labels, t.parent[c]) then !IsPool(labels, c) && labels'[c] == "true"
            else labels[c] == "" && labels'[c] == "false"
  {
    hide IsTree;
    PathStep(t, c);
    PathStep(t, t.root);
    OnlyRegularUnderPoolChanges(t, labels, c);
    assert labels[c := labels[c]] == labels;
  }

  /** A label step keeps the closure and strictly shrinks what is left to do. */
  lemma StepProgress(t: Tree, labels: PoolLabels, c: Name, labels': PoolLabels)
    requires WellLabelled(t, labels) && LabelStep(t, labels, c, labels')
    ensures WellLabelled(t, labels')
    ensures forall x :: x in t.Nodes() ==> (InClosure(t, labels', x) <==> InClosure(t, labels, x))
    ensures Unsettled(t, labels') <= Unsettled(t, labels) && Unlabelled(labels') <= Unlabelled(labels)
    ensures IsPool(labels, t.parent[c]) ==> Unsettled(t, labels') == Unsettled(t, labels) - {c} && c in Unsettled(t, labels)
    ensures !IsPool(labels, t.parent[c]) ==> Unlabelled(labels') == Unlabelled(labels) - {c} && c in Unlabelled(labels)
  {
    hide IsTree, Under;
    StepSetsTrueOrFalse(t, labels, c, labels');
    PathStep(t, c);
    UnderSelf(t, c);
    ChildSubtree(t, c);
    assert c in Subtree(t, t.parent[c]);
    forall x | x in t.Nodes() ensures InClosure(t, labels', x) <==> InClosure(t, labels, x) {
      StepKeepsClosure(t, labels, c, labels', x);
    }
    assert IsPool(labels, t.parent[c]) ==> InClosure(t, labels, c);
  }

  lemma StepKeepsClosure(t: Tree, labels: PoolLabels, c: Name, labels': PoolLabels, x: Name)
    requires WellLabelled(t, labels) && c in t.parent && t.parent[c] in t.Nodes() && Under(t, t.parent[c], c)
    requires c in labels' && labels' == labels[c := labels'[c]]
    requires if IsPool(labels, t.parent[c]) then !IsPool(labels, c) && labels'[c] == "true"
             else labels[c] == "" && labels'[c] == "false"
    ensures InClosure(t, labels', x) <==> InClosure(t, labels, x)
  {
    hide IsTree, Under;
    if InClosure(t, labels', x) {
      var a :| Under(t, a, x) && IsPool(labels', a);
      if a == c {
        UnderTransitive(t, t.parent[c], c, x);
        assert Under(t, t.parent[c], x) && IsPool(labels, t.parent[c]);
      } else {
        assert Under(t, a, x) && IsPool(labels, a);
      }
    }
    if InClosure(t, labels, x) {
      var a :| Under(t, a, x) && IsPool(labels, a);
      assert Under(t, a, x) && IsPool(labels', a);
    }
  }

  /** No sync would change a label. */
  ghost predicate Quiet(t: Tree, labels: PoolLabels)
    requires WellLabelled(t, labels)
  {
    forall c, labels' :: !LabelStep(t, labels, c, labels')
  }

  lemma QuietMeansClosed(t: Tree, labels: PoolLabels, c: Name)
    requires WellLabelled(t, labels) && Quiet(t, labels) && c in t.parent
    ensures labels[c] != "" && (IsPool(labels, t.parent[c]) ==> IsPool(labels, c))
  {
    hide IsTree;
    PathStep(t, t.root);
    PathStep(t, c);
    OnlyRegularUnderPoolChanges(t, labels, c);
    var l1, l2 := labels[c := ChildLabel(t, labels, c)], labels[c := FirstLabel(t, labels, c)];
    assert !LabelStep(t, labels, c, l1) && !LabelStep(t, labels, c, l2);
    assert l1[c] == labels[c] && l2[c] == labels[c];
  }

  /** In a quiet state a namespace is a pool exactly when it is one or is below one. */
  lemma {:induction false} QuietIsClosure(t: Tree, labels: PoolLabels, x: Name)
    requires WellLabelled(t, labels) && Quiet(t, labels) && x in t.Nodes()
    ensures IsPool(labels, x) <==> InClosure(t, labels, x)
    decreases Depth(t, x)
  {
    hide IsTree, Under, Quiet;
    PathStep(t, x);
    UnderSelf(t, x);
    if x == t.root {
      forall a | Under(t, a, x) ensures a == x {
        OnlyRootAboveRoot(t, a);
      }
    } else {
      QuietMeansClosed(t, labels, x);
      QuietIsClosure(t, labels, t.parent[x]);
      if InClosure(t, labels, x) && !IsPool(labels, x) {
        var a :| Under(t, a, x) && IsPool(labels, a);
        AboveParent(t, a, x);
        assert false;
      }
    }
  }

  lemma OnlyRootAboveRoot(t: Tree, a: Name)
    requires IsTree(t) && Under(t, a, t.root)
    ensures a == t.root
  {
    hide IsTree;
    PathStep(t, t.root);
  }

  lemma AboveParent(t: Tree, a: Name, x: Name)
    requires IsTree(t) && Under(t, a, x) && a != x && x in t.parent
    ensures Under(t, a, t.parent[x])
  {
    hide IsTree;
    PathStep(t, x);
  }

  ghost predicate LabelRun(t: Tree, tr: seq<PoolLabels>) {
    && |tr| > 0
    && forall i :: 0 <= i < |tr| - 1 && WellLabelled(t, tr[i]) ==> SomeStep(t, tr[i], tr[i + 1])
  }

  ghost predicate SomeStep(t: Tree, labels: PoolLabels, labels': PoolLabels)
    requires WellLabelled(t, labels)
  {
    exists c :: LabelStep(t, labels, c, labels')
  }

  lemma SyncIsStep(t: Tree, labels: PoolLabels, c: Name)
    requires WellLabelled(t, labels) && c in t.parent && t.parent[c] in t.parent
    requires IsPool(labels, c) != IsPool(labels, t.parent[c]) && !IsUpper(t, labels, c)
    ensures var labels' := labels[c := FormatBool(IsPool(labels, t.parent[c]))];
            SomeStep(t, labels, labels') && WellLabelled(t, labels')
  {
    hide IsTree;
    PathStep(t, t.root);
    var labels' := labels[c := FormatBool(IsPool(labels, t.parent[c]))];
    assert Truthy("true") && Falsy("false") && !Truthy("false");
    assert labels'[c] != labels[c];
    assert LabelStep(t, labels, c, labels');
  }

  lemma RunsMeans(t: Tree, tr: seq<PoolLabels>, from: PoolLabels, to: PoolLabels)
    ensures RunsTo(t, tr, from, to) ==> LabelRun(t, tr) && tr[0] == from && tr[|tr| - 1] == to
  {
    hide LabelRun;
  }

  lemma RunExtends(t: Tree, tr: seq<PoolLabels>, from: PoolLabels, labels: PoolLabels, labels': PoolLabels)
    requires RunsTo(t, tr, from, labels) && WellLabelled(t, labels) && SomeStep(t, labels, labels')
    ensures RunsTo(t, tr + [labels'], from, labels')
  {
    hide WellLabelled, SomeStep;
    var tr' := tr + [labels'];
    forall i | 0 <= i < |tr'| - 1 && WellLabelled(t, tr'[i]) ensures SomeStep(t, tr'[i], tr'[i + 1]) {
      assert i < |tr| - 1 ==> tr'[i] == tr[i] && tr'[i + 1] == tr[i + 1];
    }
  }

  /** Syncs the label of one child; where labels can be read it is a label step or changes nothing. */
  method UpdateChildLabel(t: Tree, labels: PoolLabels, c: Name) returns (out: PoolLabels)
    requires IsTree(t) && labels.Keys == t.parent.Keys && c in t.parent
    ensures out == labels[c := ChildLabel(t, labels, c)]
    ensures WellLabelled(t, labels) && t.parent[c] in t.parent ==>
              WellLabelled(t, out) && (out == labels || SomeStep(t, labels, out))
  {
    hide IsTree, Truthy, FormatBool, SomeStep, WellLabelled;
    out := labels;
    var pool := IsPool(labels, t.parent[c]);
    if IsPool(labels, c) != pool && !IsUpper(t, labels, c) {
      out := labels[c := FormatBool(pool)];
      if WellLabelled(t, labels) && t.parent[c] in t.parent {
        SyncIsStep(t, labels, c);
      }
    } else {
      assert labels[c := labels[c]] == labels;
    }
  }

  /** The new label of a child depends on its own label and its parent's alone. */
  lemma LocalRule(t: Tree, labels: PoolLabels, labels': PoolLabels, c: Name)
    requires c in t.parent && c in labels && labels.Keys == labels'.Keys && labels'[c] == labels[c]
    requires t.parent[c] in labels ==> labels'[t.parent[c]] == labels[t.parent[c]]
    ensures ChildLabel(t, labels', c) == ChildLabel(t, labels, c)
  {
  }

  /** Syncs the labels of all children of a namespace, one after another, up to the first label that cannot
      be read.  Where all labels can, the syncs are a run of label steps. */
  method EnsureChildrenLabels(t: Tree, labels: PoolLabels, n: Name) returns (ok: bool, out: PoolLabels, ghost tr: seq<PoolLabels>)
    requires IsTree(t) && labels.Keys == t.parent.Keys && n in t.Nodes()
    ensures out.Keys == labels.Keys
    ensures ok ==> forall x :: x in labels ==> out[x] == if t.parent[x] == n then ChildLabel(t, labels, x) else labels[x]
    ensures ok <==> Readable(labels, n) && forall c :: c in t.Children(n) ==> Readable(labels, c)
    ensures forall x :: x in labels ==> out[x] == labels[x] || (t.parent[x] == n && out[x] == ChildLabel(t, labels, x))
    ensures WellLabelled(t, labels) && n in t.parent ==>
              ok && LabelRun(t, tr) && tr[0] == labels && tr[|tr| - 1] == out
  {
    hide IsTree, Tree.Nodes, Subtree, Readable, WellLabelled, ChildLabel, SomeStep, SyncedSoFar, RunsTo;
    ok, out, tr := true, labels, [labels];
    AllReadable(t, labels);
    OthersChild(t, labels, n);
    NothingSynced(t, labels);
    if !Readable(labels, n) {
      return false, out, tr;
    }
    var kids := ListNames(t.Children(n));
    for i := 0 to |kids|
      invariant SyncedSoFar(t, labels, kids[..i], out)
      invariant forall j :: 0 <= j < i ==> Readable(labels, kids[j])
      invariant WellLabelled(t, labels) && n in t.parent ==> WellLabelled(t, out) && RunsTo(t, tr, labels, out)
    {
      var c := kids[i];
      assert c in t.Children(n);
      SyncedMeans(t, labels, n, kids, i, out);
      if !Readable(labels, c) {
        return false, out, tr;
      }
      LocalRule(t, labels, out, c);
      ghost var before := out;
      out := UpdateChildLabel(t, out, c);
      OneMoreSynced(t, labels, kids, i, before, out);
      if WellLabelled(t, labels) && n in t.parent && out != before {
        RunExtends(t, tr, labels, before, out);
        tr := tr + [out];
      }
    }
    SyncedMeans(t, labels, n, kids, |kids|, out);
    RunsMeans(t, tr, labels, out);
  }

  /** Exactly the children in `done` have been synced. */
  ghost predicate SyncedSoFar(t: Tree, labels: PoolLabels, done: seq<Name>, out: PoolLabels)
    requires labels.Keys == t.parent.Keys
    ensures SyncedSoFar(t, labels, done, out) ==> out.Keys == labels.Keys
  {
    && out.Keys == labels.Keys
    && forall x :: x in labels ==> out[x] == if x in done then ChildLabel(t, labels, x) else labels[x]
  }

  lemma NothingSynced(t: Tree, labels: PoolLabels)
    requires labels.Keys == t.parent.Keys
    ensures SyncedSoFar(t, labels, [], labels) && RunsTo(t, [labels], labels, labels)
  {
  }

  lemma OneMoreSynced(t: Tree, labels: PoolLabels, kids: seq<Name>, i: nat, out: PoolLabels, out': PoolLabels)
    requires labels.Keys == t.parent.Keys && i < |kids| && kids[i] in labels && SyncedSoFar(t, labels, kids[..i], out)
    requires out' == out[kids[i] := ChildLabel(t, labels, kids[i])]
    ensures SyncedSoFar(t, labels, kids[..i + 1], out')
  {
    hide ChildLabel;
    assert kids[..i + 1] == kids[..i] + [kids[i]];
  }

  lemma SyncedMeans(t: Tree, labels: PoolLabels, n: Name, kids: seq<Name>, i: nat, out: PoolLabels)
    requires labels.Keys == t.parent.Keys && Lists(kids, t.Children(n)) && i <= |kids| && SyncedSoFar(t, labels, kids[..i], out)
    requires n !in t.Children(n)
    ensures n in labels ==> out[n] == labels[n]
    ensures i < |kids| ==> kids[i] in labels && out[kids[i]] == labels[kids[i]]
    ensures forall x :: x in labels ==> out[x] == labels[x] || (t.parent[x] == n && out[x] == ChildLabel(t, labels, x))
    ensures i == |kids| ==>
              forall x :: x in labels ==> out[x] == if t.parent[x] == n then ChildLabel(t, labels, x) else labels[x]
  {
    hide ChildLabel;
    assert forall x :: x in kids[..i] ==> x in t.Children(n);
    if i < |kids| {
      assert kids[i] in t.Children(n);
    } else {
      assert kids[..i] == kids;
    }
  }

  ghost predicate RunsTo(t: Tree, tr: seq<PoolLabels>, from: PoolLabels, to: PoolLabels)
    ensures RunsTo(t, tr, from, to) ==> |tr| > 0
  {
    LabelRun(t, tr) && tr[0] == from && tr[|tr| - 1] == to
  }

  /** No namespace is its own child, and the root has no label. */
  lemma OthersChild(t: Tree, labels: PoolLabels, n: Name)
    requires IsTree(t) && labels.Keys == t.parent.Keys
    ensures n !in t.Children(n) && t.root !in labels
  {
    hide IsTree;
    PathStep(t, t.root);
    if n in t.Children(n) {
      ChildSubtree(t, n);
      assert false;
    }
  }

  lemma AllReadable(t: Tree, labels: PoolLabels)
    ensures WellLabelled(t, labels) ==> forall n :: Readable(labels, n)
  {
  }

  /** In whatever order the label syncs happen, their number is bounded by what was left to do. */
  lemma {:induction false} RunShrinks(t: Tree, tr: seq<PoolLabels>, k: nat)
    requires LabelRun(t, tr) && WellLabelled(t, tr[0]) && k < |tr|
    ensures WellLabelled(t, tr[k])
    ensures forall x :: x in t.Nodes() ==> (InClosure(t, tr[k], x) <==> InClosure(t, tr[0], x))
    ensures |Unsettled(t, tr[k])| + |Unlabelled(tr[k])| + k <= |Unsettled(t, tr[0])| + |Unlabelled(tr[0])|
  {
    hide IsTree, Under, InClosure, LabelStep, WellLabelled;
    if k > 0 {
      RunShrinks(t, tr, k - 1);
      var c :| LabelStep(t, tr[k - 1], c, tr[k]);
      StepCounts(t, tr[k - 1], c, tr[k]);
    }
  }

  lemma StepCounts(t: Tree, labels: PoolLabels, c: Name, labels': PoolLabels)
    requires WellLabelled(t, labels) && LabelStep(t, labels, c, labels')
    ensures WellLabelled(t, labels')
    ensures forall x :: x in t.Nodes() ==> (InClosure(t, labels', x) <==> InClosure(t, labels, x))
    ensures |Unsettled(t, labels')| + |Unlabelled(labels')| < |Unsettled(t, labels)| + |Unlabelled(labels)|
  {
    hide IsTree, Under, InClosure, Unsettled, Unlabelled;
    StepProgress(t, labels, c, labels');
    SubsetSize(Unsettled(t, labels'), Unsettled(t, labels));
    SubsetSize(Unlabelled(labels'), Unlabelled(labels));
  }

  /** Propagation converges to one result: a run that no sync can extend has made exactly the namespaces
      pools that were pools or below pools at the start, after a bounded number of steps. */
  lemma PropagationConverges(t: Tree, tr: seq<PoolLabels>, x: Name)
    requires LabelRun(t, tr) && WellLabelled(t, tr[0]) && x in t.Nodes()
    ensures |tr| - 1 <= |Unsettled(t, tr[0])| + |Unlabelled(tr[0])|
    ensures WellLabelled(t, tr[|tr| - 1])
    ensures Quiet(t, tr[|tr| - 1]) ==> (IsPool(tr[|tr| - 1], x) <==> InClosure(t, tr[0], x))
  {
    hide IsTree, Under, InClosure, LabelStep, WellLabelled, Quiet;
    RunShrinks(t, tr, |tr| - 1);
    if Quiet(t, tr[|tr| - 1]) {
      QuietIsClosure(t, tr[|tr| - 1], x);
    }
  }
}
