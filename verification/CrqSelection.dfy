/** Which namespaces a ClusterResourceQuota selects.

    The quota of `m` selects by the annotation crq-selector-d with value `m`, where d is the depth of
    `m`.  It always reaches the whole subtree; whether it reaches more depends on selectors that
    migrations leave behind.
 */
module CrqSelection {
  import opened Hierarchy
  import opened Moves
  import opened Grouping
  import opened Labels
  import opened Relabelling

  ghost function Selected(t: Tree, ann: Annotated, m: Name): set<Name>
    requires Agrees(t, ann) && m in ann
  {
    set x | x in ann && Depth(t, m) in ann[x].selectors && ann[x].selectors[Depth(t, m)] == m
  }

  lemma SelectsWholeSubtree(t: Tree, ann: Annotated, m: Name)
    requires Agrees(t, ann) && m in ann
    ensures Subtree(t, m) <= Selected(t, ann, m)
  {
    hide IsTree;
    forall x | x in Subtree(t, m) ensures x in Selected(t, ann, m) {
      UnderPrefix(t, m, x);
      assert AgreesAt(t, ann, x);
    }
  }

  /** Without left-over selectors it selects the subtree and nothing else. */
  lemma TidySelectsExactly(t: Tree, ann: Annotated, m: Name)
    requires Agrees(t, ann) && Tidy(t, ann) && m in ann
    ensures Selected(t, ann, m) == Subtree(t, m)
  {
    hide IsTree;
    SelectsWholeSubtree(t, ann, m);
    forall x | x in Selected(t, ann, m) ensures x in Subtree(t, m) {
      assert AgreesAt(t, ann, x);
    }
  }

  // ---------- what a migration leaves behind ----------

  /** The selectors of `x` after the move: its new path, then whatever of its old path lies deeper. */
  ghost predicate SelectorsAfter(t: Tree, t': Tree, ann': Annotated, x: Name)
    requires IsTree(t) && IsTree(t') && x in t.Nodes() && x in t'.Nodes() && x in ann'
  {
    FromPaths(ann'[x].selectors, Path(t, x), Path(t', x))
  }

  /** The elements of `q`, and those of `p` that lie beyond its end. */
  ghost predicate FromPaths(sel: map<nat, Name>, p: seq<Name>, q: seq<Name>) {
    forall k: nat :: (k in sel <==> k < |p| || k < |q|) && (k in sel ==> sel[k] == if k < |q| then q[k] else p[k])
  }

  /** Appending the parent's selectors and the own level keeps the shape. */
  lemma AppendSelectors(mine: map<nat, Name>, parents: map<nat, Name>, p: seq<Name>, p0: seq<Name>, q0: seq<Name>, x: Name)
    requires FromPaths(mine, p, p) && FromPaths(parents, p0, q0) && (p0 <= p || |p0| <= |q0|)
    ensures FromPaths(mine + parents[|q0| := x], p, q0 + [x])
  {
    var sel := mine + parents[|q0| := x];
    forall k: nat
      ensures (k in sel <==> k < |p| || k < |q0 + [x]|) && (k in sel ==> sel[k] == if k < |q0 + [x]| then (q0 + [x])[k] else p[k])
    {
      assert k in mine <==> k < |p|;
      assert k in parents <==> k < |p0| || k < |q0|;
    }
  }

  lemma TidySelectors(t: Tree, ann: Annotated, x: Name)
    requires Agrees(t, ann) && Tidy(t, ann) && x in ann
    ensures SelectorsAfter(t, t, ann, x)
  {
    hide IsTree;
    assert AgreesAt(t, ann, x);
  }

  lemma {:induction false} MovedSelectors(t: Tree, ann: Annotated, n: Name, to: Name, x: Name)
    requires Agrees(t, ann) && Tidy(t, ann) && n in t.parent && to in t.Nodes() && !Under(t, n, to)
    requires IsTree(Attach(t, n, to)) && Attach(t, n, to).Nodes() == t.Nodes() && x in ann && Under(t, n, x)
    requires Agrees(Attach(t, n, to), Migrated(Attach(t, n, to), ann, n, to))
    ensures SelectorsAfter(t, Attach(t, n, to), Migrated(Attach(t, n, to), ann, n, to), x)
    decreases Depth(t, x)
  {
    hide IsTree, Under, Agrees, Tidy, Migrated, FromPaths;
    var t' := Attach(t, n, to);
    var ann' := Migrated(t', ann, n, to);
    MovedNode(t, n, to, n, x);
    MovedNode(t, n, to, n, to);
    UnderSelf(t, n);
    MigratedStep(t', ann, n, to, x);
    PathStep(t', x);
    PathStep(t, x);
    var p := t'.parent[x];
    TidySelectors(t, ann, x);
    if x == n {
      ToSelectors(t, ann, n, to);
      DepthAgrees(t, ann, to);
      AppendSelectors(ann[x].selectors, ann'[p].selectors, Path(t, x), Path(t, to), Path(t', to), x);
    } else {
      MovedNode(t, n, to, n, p);
      UnderIsDeeper(t, n, p);
      MovedSelectors(t, ann, n, to, p);
      DepthAgrees(t', ann', p);
      AppendSelectors(ann[x].selectors, ann'[p].selectors, Path(t, x), Path(t, p), Path(t', p), x);
    }
  }

  lemma DepthAgrees(t: Tree, ann: Annotated, x: Name)
    requires Agrees(t, ann) && x in ann
    ensures ann[x].depth == Depth(t, x)
  {
    hide IsTree, Path;
    assert AgreesAt(t, ann, x);
  }

  /** The new parent is outside the moved subtree and keeps its selectors. */
  lemma ToSelectors(t: Tree, ann: Annotated, n: Name, to: Name)
    requires Agrees(t, ann) && Tidy(t, ann) && n in t.parent && to in t.Nodes() && !Under(t, n, to)
    requires IsTree(Attach(t, n, to)) && Attach(t, n, to).Nodes() == t.Nodes()
    ensures Migrated(Attach(t, n, to), ann, n, to)[to] == ann[to]
    ensures Path(Attach(t, n, to), to) == Path(t, to)
    ensures SelectorsAfter(t, t, ann, to)
  {
    hide IsTree, Under, Agrees, Tidy, Rewritten, Path, Depth;
    ReparentUnder(t, n, to);
    UnderSelf(t, n);
    TidySelectors(t, ann, to);
  }

  /** Outside the moved subtree neither path nor selectors change. */
  lemma OutsideSelectors(t: Tree, ann: Annotated, n: Name, to: Name, x: Name)
    requires Agrees(t, ann) && Tidy(t, ann) && n in t.parent && to in t.Nodes() && !Under(t, n, to)
    requires IsTree(Attach(t, n, to)) && Attach(t, n, to).Nodes() == t.Nodes() && x in ann && !Under(t, n, x)
    ensures Path(Attach(t, n, to), x) == Path(t, x)
    ensures SelectorsAfter(t, Attach(t, n, to), Migrated(Attach(t, n, to), ann, n, to), x)
  {
    hide IsTree, Under, Agrees, Tidy, Rewritten;
    ReparentUnder(t, n, to);
    UnderSelf(t, n);
    TidySelectors(t, ann, x);
  }

  lemma AllSelectors(t: Tree, ann: Annotated, n: Name, to: Name, x: Name)
    requires Agrees(t, ann) && Tidy(t, ann) && n in t.parent && to in t.Nodes() && !Under(t, n, to) && x in ann
    ensures IsTree(Attach(t, n, to)) && Attach(t, n, to).Nodes() == t.Nodes()
    ensures SelectorsAfter(t, Attach(t, n, to), Migrated(Attach(t, n, to), ann, n, to), x)
  {
    hide IsTree, Under, Agrees, Tidy, Migrated, SelectorsAfter;
    MigrateAgrees(t, ann, n, to);
    if Under(t, n, x) {
      MovedSelectors(t, ann, n, to, x);
    } else {
      OutsideSelectors(t, ann, n, to, x);
    }
  }

  /** A migration that does not make anything shallower leaves nothing behind. */
  lemma DeeperStaysTidy(t: Tree, ann: Annotated, n: Name, to: Name)
    requires Agrees(t, ann) && Tidy(t, ann) && n in t.parent && to in t.Nodes() && !Under(t, n, to)
    requires Depth(t, to) + 1 >= Depth(t, n)
    ensures IsTree(Attach(t, n, to)) && Attach(t, n, to).Nodes() == t.Nodes()
    ensures Agrees(Attach(t, n, to), Migrated(Attach(t, n, to), ann, n, to))
    ensures Tidy(Attach(t, n, to), Migrated(Attach(t, n, to), ann, n, to))
  {
    hide IsTree, Under, Agrees, Migrated, Path;
    MigrateAgrees(t, ann, n, to);
    var t' := Attach(t, n, to);
    var ann' := Migrated(t', ann, n, to);
    forall x, k: nat | x in ann' && k in ann'[x].selectors ensures k <= Depth(t', x) {
      AllSelectors(t, ann, n, to, x);
      ReparentDepth(t, n, to, x);
    }
  }

  ghost predicate ExactAbove(t: Tree, ann: Annotated, rq: nat)
    requires Agrees(t, ann)
  {
    forall m :: m in ann && Depth(t, m) > rq ==> Selected(t, ann, m) == Subtree(t, m)
  }

  /** The move lifts a namespace past its old parent's level while that parent has a quota to select it. */
  ghost predicate LiftsPastParent(t: Tree, rq: nat, n: Name, to: Name)
    requires IsTree(t) && n in t.Nodes() && to in t.Nodes()
  {
    Depth(t, to) + 1 < Depth(t, n) - 1 && Depth(t, n) - 1 > rq
  }

  /** Then the old parent's quota still selects the namespace that has left it. */
  lemma LiftedStillSelected(t: Tree, ann: Annotated, rq: nat, n: Name, to: Name)
    requires Agrees(t, ann) && Tidy(t, ann) && n in t.parent && to in t.Nodes() && !Under(t, n, to)
    requires LiftsPastParent(t, rq, n, to)
    ensures IsTree(Attach(t, n, to)) && Attach(t, n, to).Nodes() == t.Nodes()
    ensures Agrees(Attach(t, n, to), Migrated(Attach(t, n, to), ann, n, to))
    ensures var p := t.parent[n];
            && p in ann && n in Selected(Attach(t, n, to), Migrated(Attach(t, n, to), ann, n, to), p)
            && n !in Subtree(Attach(t, n, to), p) && Depth(Attach(t, n, to), p) > rq
  {
    hide IsTree, Under, Agrees, Tidy, Migrated;
    MigrateAgrees(t, ann, n, to);
    var t', p := Attach(t, n, to), t.parent[n];
    PathStep(t, n);
    PathStep(t, p);
    AllSelectors(t, ann, n, to, n);
    UnderSelf(t, n);
    ChildSubtree(t, n);
    MovedNode(t, n, to, p, n);
    MovedNode(t, n, to, p, p);
    PathShape(t, p);
    assert Path(t, n)[Depth(t, p)] == p;
    if Under(t, p, to) {
      UnderIsDeeper(t, p, to);
      assert false;
    }
  }

  /** In every other case each quota selects exactly its subtree, even if selectors are left behind. */
  lemma OtherMovesExact(t: Tree, ann: Annotated, rq: nat, n: Name, to: Name, m: Name)
    requires Agrees(t, ann) && Tidy(t, ann) && n in t.parent && to in t.Nodes() && !Under(t, n, to)
    requires !LiftsPastParent(t, rq, n, to)
    requires IsTree(Attach(t, n, to)) && Attach(t, n, to).Nodes() == t.Nodes()
    requires Agrees(Attach(t, n, to), Migrated(Attach(t, n, to), ann, n, to))
    requires m in ann && Depth(Attach(t, n, to), m) > rq
    ensures Selected(Attach(t, n, to), Migrated(Attach(t, n, to), ann, n, to), m) == Subtree(Attach(t, n, to), m)
  {
    hide IsTree, Under, Agrees, Tidy, Migrated, Path;
    var t' := Attach(t, n, to);
    var ann' := Migrated(t', ann, n, to);
    SelectsWholeSubtree(t', ann', m);
    forall x | x in Selected(t', ann', m) ensures x in Subtree(t', m) {
      AllSelectors(t, ann, n, to, x);
      if Depth(t', m) <= Depth(t', x) {
        OnOwnPath(t', m, x);
      } else {
        NoStrayOwner(t, rq, n, to, m, x);
        assert false;
      }
    }
  }

  lemma OnOwnPath(t: Tree, m: Name, x: Name)
    requires IsTree(t) && m in t.Nodes() && x in t.Nodes() && Depth(t, m) <= Depth(t, x) && Path(t, x)[Depth(t, m)] == m
    ensures x in Subtree(t, m)
  {
  }

  /** A left-over selector of `x` at level k names `m`; then `m` is no longer at level k. */
  lemma NoStrayOwner(t: Tree, rq: nat, n: Name, to: Name, m: Name, x: Name)
    requires IsTree(t) && n in t.parent && to in t.Nodes() && !Under(t, n, to) && m in t.Nodes() && x in t.Nodes()
    requires !LiftsPastParent(t, rq, n, to)
    requires IsTree(Attach(t, n, to)) && Attach(t, n, to).Nodes() == t.Nodes()
    requires Depth(Attach(t, n, to), m) > rq && Depth(Attach(t, n, to), x) < Depth(Attach(t, n, to), m) <= Depth(t, x)
    ensures Path(t, x)[Depth(Attach(t, n, to), m)] != m
  {
    hide IsTree, Under;
    var t' := Attach(t, n, to);
    ReparentDepth(t, n, to, x);
    ReparentDepth(t, n, to, m);
    var k := Depth(t', m);
    if Path(t, x)[k] == m {
      PrefixIsPath(t, x, k);
      assert Depth(t, m) == k;
      assert Under(t, n, x);
      assert !Under(t, n, m);
      AboveOrBelow(t, n, m, x);
      UnderIsDeeper(t, n, x);
      UnderIsDeeper(t, m, n);
      assert false;
    }
  }

  lemma AboveOrBelow(t: Tree, n: Name, m: Name, x: Name)
    requires IsTree(t) && Under(t, n, x) && x in t.Nodes() && m in Path(t, x) && !Under(t, n, m)
    ensures Under(t, m, n) && m != n
  {
    hide IsTree, Depth;
    OneAboveTheOther(t, m, n, x);
    AncestorInTree(t, m, x);
    UnderSelf(t, m);
  }

  /** From tidy annotations, one migration leaves every quota below rq-depth selecting exactly its
      subtree if and only if it does not lift the namespace past its old parent's level. */
  lemma SelectionExactIff(t: Tree, ann: Annotated, rq: nat, n: Name, to: Name)
    requires Agrees(t, ann) && Tidy(t, ann) && n in t.parent && to in t.Nodes() && !Under(t, n, to)
    ensures IsTree(Attach(t, n, to)) && Attach(t, n, to).Nodes() == t.Nodes()
    ensures Agrees(Attach(t, n, to), Migrated(Attach(t, n, to), ann, n, to))
    ensures ExactAbove(Attach(t, n, to), Migrated(Attach(t, n, to), ann, n, to), rq) <==> !LiftsPastParent(t, rq, n, to)
  {
    hide IsTree, Under, Agrees, Tidy, Migrated, Path, Depth, Selected, Subtree, LiftsPastParent;
    MigrateAgrees(t, ann, n, to);
    if LiftsPastParent(t, rq, n, to) {
      LiftedStillSelected(t, ann, rq, n, to);
    } else {
      var t' := Attach(t, n, to);
      var ann' := Migrated(t', ann, n, to);
      forall m | m in ann' && Depth(t', m) > rq ensures Selected(t', ann', m) == Subtree(t', m) {
        OtherMovesExact(t, ann, rq, n, to, m);
      }
    }
  }

  /** Over every run in which no migration makes a namespace shallower, every quota selects exactly the
      subtree of its namespace. */
  lemma {:induction false} RunSelectsExactly(ss: seq<State>, ops: seq<Op>, k: nat)
    requires Run(ss, ops) && Agrees(ss[0].tree, ss[0].ann) && Tidy(ss[0].tree, ss[0].ann) && k < |ss|
    requires forall i :: 0 <= i < |ops| && Agrees(ss[i].tree, ss[i].ann) ==> NotShallower(ss[i], ops[i])
    ensures Agrees(ss[k].tree, ss[k].ann) && Tidy(ss[k].tree, ss[k].ann)
    ensures forall m :: m in ss[k].ann ==> Selected(ss[k].tree, ss[k].ann, m) == Subtree(ss[k].tree, m)
  {
    hide IsTree, Agrees, Tidy, Step, NotShallower, Selected, Subtree;
    if k > 0 {
      RunSelectsExactly(ss, ops, k - 1);
      StepStaysTidy(ss[k - 1], ops[k - 1], ss[k]);
    }
    forall m | m in ss[k].ann ensures Selected(ss[k].tree, ss[k].ann, m) == Subtree(ss[k].tree, m) {
      TidySelectsExactly(ss[k].tree, ss[k].ann, m);
    }
  }

  lemma StepStaysTidy(s: State, op: Op, s': State)
    requires Agrees(s.tree, s.ann) && Tidy(s.tree, s.ann) && Step(s, op, s') && NotShallower(s, op)
    ensures Agrees(s'.tree, s'.ann) && Tidy(s'.tree, s'.ann)
  {
    hide IsTree, Under, Agrees, Tidy, Migrated, Path, Depth;
    match op
    case Create(n, p) =>
      ValidNameHasNoSlash(n);
      CreateAgrees(s.tree, s.ann, n, p);
    case Delete(n) =>
      DeleteAgrees(s.tree, s.ann, n);
    case Migrate(n, to) =>
      LoopCheckExact(s.tree, s.ann, n, to);
      DeeperStaysTidy(s.tree, s.ann, n, to);
  }
}
