/** Concrete inputs at which the code does not do what one would expect of it, one for each exact condition
    that the other modules prove.  rq-depth is 1 and no migration goes to the root.
 */
module Witnesses {
  import opened Api
  import opened Hierarchy
  import opened Moves
  import opened Listings
  import opened Resources
  import opened Quota
  import opened Admission
  import opened DisplayName
  import opened UpdateQuota
  import opened SliceRemoval
  import opened NamespaceDB
  import opened Grouping
  import opened TextOrder
  import opened DatabaseInit
  import opened Labels
  import opened Relabelling
  import opened CrqSelection
  import opened ResourcePool
  import opened QuotaOwnership
  import Migration
  import MigrationTraces
  import SharedMigration
  import System

  // ---------- a hierarchy of six ----------

  /** r over a and b, and a over k over m over x. */
  const SIX := Tree("r", map["a" := "r", "b" := "r", "k" := "a", "m" := "k", "x" := "m"])

  lemma SixPaths()
    ensures IsTree(SIX) && SIX.Nodes() == {"r", "a", "b", "k", "m", "x"}
    ensures Path(SIX, "r") == ["r"] && Path(SIX, "a") == ["r", "a"] && Path(SIX, "b") == ["r", "b"]
    ensures Path(SIX, "k") == ["r", "a", "k"] && Path(SIX, "m") == ["r", "a", "k", "m"]
    ensures Path(SIX, "x") == ["r", "a", "k", "m", "x"]
  {
    var p := map["r" := ["r"], "a" := ["r", "a"], "b" := ["r", "b"], "k" := ["r", "a", "k"],
                 "m" := ["r", "a", "k", "m"], "x" := ["r", "a", "k", "m", "x"]];
    assert Extends(SIX, p, "a") && Extends(SIX, p, "b") && Extends(SIX, p, "k") && Extends(SIX, p, "m") && Extends(SIX, p, "x");
    assert PathsOf(SIX, p);
    PathsAre(SIX, p);
  }

  // ---------- a migration that leaves the root raised ----------

  const SIX_QUOTAS: map<Name, ResourceList> :=
    map["r" := map["cpu" := 10], "a" := map["cpu" := 4], "b" := map["cpu" := 2],
        "k" := map["cpu" := 3], "m" := map["cpu" := 2], "x" := map["cpu" := 1]]

  const SIX_PLAN := Migration.Plan(SIX, SIX_QUOTAS, {"cpu"}, "x", "b", "b")

  lemma OneChildFree(w: World, n: Name, c: Name)
    requires w.tree.parent.Keys <= w.quota.Keys && n in w.quota && c in w.quota && w.tree.Children(n) == {c}
    ensures Free(w, n, "cpu") == Get(w.quota[n], "cpu") - Get(w.quota[c], "cpu")
  {
    hide Sum;
    assert forall y :: y in ChildQuotas(w, n, "cpu") ==> y in w.tree.Children(n);
    assert c in w.tree.Children(n);
    assert ChildQuotas(w, n, "cpu") == map[][c := Get(w.quota[c], "cpu")];
    SumEmpty<Name>(map[]);
    SumSet(map[], c, Get(w.quota[c], "cpu"));
  }

  lemma TwoChildrenFree(w: World, n: Name, c: Name, d: Name)
    requires w.tree.parent.Keys <= w.quota.Keys && n in w.quota && c in w.quota && d in w.quota && c != d
    requires w.tree.Children(n) == {c, d}
    ensures Free(w, n, "cpu") == Get(w.quota[n], "cpu") - Get(w.quota[c], "cpu") - Get(w.quota[d], "cpu")
  {
    hide Sum;
    assert forall y :: y in ChildQuotas(w, n, "cpu") ==> y in w.tree.Children(n);
    assert c in w.tree.Children(n) && d in w.tree.Children(n);
    var one := map[][c := Get(w.quota[c], "cpu")];
    assert ChildQuotas(w, n, "cpu") == one[d := Get(w.quota[d], "cpu")];
    SumEmpty<Name>(map[]);
    SumSet(map[], c, Get(w.quota[c], "cpu"));
    SumSet(one, d, Get(w.quota[d], "cpu"));
  }

  lemma NoChildFree(w: World, n: Name)
    requires w.tree.parent.Keys <= w.quota.Keys && n in w.quota && w.tree.Children(n) == {}
    ensures Free(w, n, "cpu") == Get(w.quota[n], "cpu")
  {
    hide Sum;
    NoChildrenNothingAllocated(w, n, "cpu");
  }

  lemma SixFree(n: Name)
    requires n in SIX_QUOTAS
    ensures SIX.parent.Keys <= SIX_QUOTAS.Keys && Free(World(SIX, SIX_QUOTAS), n, "cpu") >= 0
  {
    hide Free;
    var w := World(SIX, SIX_QUOTAS);
    TwoChildrenFree(w, "r", "a", "b");
    OneChildFree(w, "a", "k");
    OneChildFree(w, "k", "m");
    OneChildFree(w, "m", "x");
    NoChildFree(w, "b");
    NoChildFree(w, "x");
  }

  lemma SixUniform()
    ensures Uniform(World(SIX, SIX_QUOTAS), {"cpu"})
  {
    hide IsTree, Path;
    SixPaths();
  }

  lemma SixSound()
    ensures Uniform(World(SIX, SIX_QUOTAS), {"cpu"}) && Sound(World(SIX, SIX_QUOTAS), {"cpu"})
  {
    hide IsTree, Free, Path, Uniform, Valid;
    SixUniform();
    forall n, r | n in SIX_QUOTAS && r in {"cpu"}
      ensures Get(SIX_QUOTAS[n], r) >= 0 && Free(World(SIX, SIX_QUOTAS), n, r) >= 0
    {
      SixFree(n);
    }
  }

  lemma SixPlanValid()
    ensures SIX_PLAN.Valid() && SIX_PLAN.HasQuota()
  {
    hide IsTree, Path, Sound, Uniform;
    SixPaths();
    SixSound();
    assert !Under(SIX, "x", "b");
    assert "cpu" in SIX_PLAN.start["x"];
  }

  /** Deleting the old Subnamespace of x fails: the migration ends in Error and the root owns 11 instead of 10. */
  lemma RootStaysRaised() returns (tr: seq<Migration.State>)
    ensures SIX_PLAN.Valid() && Migration.Behaviour(SIX_PLAN, tr) && tr[0] == Migration.Initial(SIX_QUOTAS)
    ensures var last := tr[|tr| - 1];
            last.phase == Error && last.sns == Migration.OldOnly && "r" in last.quota && Get(last.quota["r"], "cpu") == 11
  {
    hide Migration.Plan.Valid, Migration.Behaviour, Migration.Plan.HasQuota;
    SixPlanValid();
    tr := MigrationTraces.FailedDeleteLeavesRaise(SIX_PLAN);
    assert "cpu" in SIX_PLAN.observed;
  }

  // ---------- a migration that is admitted ----------

  /** r over a over k and l, and k over m: with rq-depth 1 the keys are k and l. */
  const FIVE := Tree("r", map["a" := "r", "k" := "a", "l" := "a", "m" := "k"])

  const FIVE_QUOTAS: map<Name, ResourceList> :=
    map["r" := map["cpu" := 10], "a" := map["cpu" := 6], "k" := map["cpu" := 3], "l" := map["cpu" := 2], "m" := map["cpu" := 1]]

  const FIVE_FOREST: Forest := map["k" := ["m"], "l" := []]

  const FIVE_CONFIG := System.Config({"cpu"}, 1, 3)

  lemma FivePaths()
    ensures IsTree(FIVE) && FIVE.Nodes() == {"r", "a", "k", "l", "m"}
    ensures Path(FIVE, "r") == ["r"] && Path(FIVE, "a") == ["r", "a"] && Path(FIVE, "k") == ["r", "a", "k"]
    ensures Path(FIVE, "l") == ["r", "a", "l"] && Path(FIVE, "m") == ["r", "a", "k", "m"]
  {
    var p := map["r" := ["r"], "a" := ["r", "a"], "k" := ["r", "a", "k"], "l" := ["r", "a", "l"], "m" := ["r", "a", "k", "m"]];
    assert Extends(FIVE, p, "a") && Extends(FIVE, p, "k") && Extends(FIVE, p, "l") && Extends(FIVE, p, "m");
    assert PathsOf(FIVE, p);
    PathsAre(FIVE, p);
  }

  lemma FiveFree(n: Name)
    requires n in FIVE_QUOTAS
    ensures FIVE.parent.Keys <= FIVE_QUOTAS.Keys && Free(World(FIVE, FIVE_QUOTAS), n, "cpu") >= 0
  {
    hide Free;
    var w := World(FIVE, FIVE_QUOTAS);
    OneChildFree(w, "r", "a");
    TwoChildrenFree(w, "a", "k", "l");
    OneChildFree(w, "k", "m");
    NoChildFree(w, "l");
    NoChildFree(w, "m");
  }

  lemma FiveUniform()
    ensures Uniform(World(FIVE, FIVE_QUOTAS), {"cpu"})
  {
    hide IsTree, Path;
    FivePaths();
  }

  lemma FiveSound()
    ensures Uniform(World(FIVE, FIVE_QUOTAS), {"cpu"}) && Sound(World(FIVE, FIVE_QUOTAS), {"cpu"})
  {
    hide IsTree, Free, Path, Uniform, Valid;
    FiveUniform();
    forall n, r | n in FIVE_QUOTAS && r in {"cpu"}
      ensures Get(FIVE_QUOTAS[n], r) >= 0 && Free(World(FIVE, FIVE_QUOTAS), n, r) >= 0
    {
      FiveFree(n);
    }
  }

  lemma FiveGrouped()
    ensures Grouped(FIVE_FOREST, FIVE, 1) && IsTree(FIVE)
    ensures Subtree(FIVE, "l") == {"l"} && Subtree(FIVE, "m") == {"m"} && !Under(FIVE, "m", "l")
    ensures Depth(FIVE, "m") == 3 && Depth(FIVE, "l") == 2 && KeyAbove(FIVE, 1, "l") == "l"
  {
    hide IsTree, Path;
    FivePaths();
    assert forall k :: k in FIVE_FOREST <==> IsKey(FIVE, 1, k);
    assert GroupedAt(FIVE_FOREST, FIVE, "k") && GroupedAt(FIVE_FOREST, FIVE, "l");
  }

  lemma FiveAgrees()
    ensures IsTree(FIVE) && Agrees(FIVE, AnnotationsOf(FIVE)) && Tidy(FIVE, AnnotationsOf(FIVE))
  {
    hide IsTree, Path, Agrees, Tidy;
    FivePaths();
    AnnotationsOfAgree(FIVE);
  }

  lemma FiveInOrder()
    ensures IsTree(FIVE)
    ensures System.InOrder(FIVE_CONFIG, System.State(World(FIVE, FIVE_QUOTAS), AnnotationsOf(FIVE), FIVE_FOREST))
  {
    hide IsTree, Uniform, Sound, Agrees, Grouped, AnnotationsOf, Tidy;
    FiveSound();
    FiveAgrees();
    FiveGrouped();
  }

  /** With a limit of 3, m may go from key k to key l. */
  lemma SomeMigrationAdmitted()
    ensures IsTree(FIVE)
    ensures var s := System.State(World(FIVE, FIVE_QUOTAS), AnnotationsOf(FIVE), FIVE_FOREST);
            System.InOrder(FIVE_CONFIG, s) && System.MigrateAdmitted(FIVE_CONFIG, s, "m", "l")
  {
    hide IsTree, Agrees, Grouped, AnnotationsOf, Tidy, System.InOrder, System.MigrateAdmitted, Selected, Subtree, Path, Under;
    FiveInOrder();
    FiveAgrees();
    FiveGrouped();
    var s := System.State(World(FIVE, FIVE_QUOTAS), AnnotationsOf(FIVE), FIVE_FOREST);
    FiveNames();
    TidySelectsExactly(FIVE, AnnotationsOf(FIVE), "m");
    System.MigrateAdmittedIff(FIVE_CONFIG, s, "m", "l");
  }

  lemma FiveNames()
    ensures IsTree(FIVE) && "m" in AnnotationsOf(FIVE) && "l" in AnnotationsOf(FIVE) && "l" in FIVE.Nodes()
  {
    hide IsTree, Path;
    FivePaths();
  }

  // ---------- a line of three ----------

  const TWO := Tree("r", map["a" := "r", "b" := "a"])

  lemma TwoLinks()
    ensures IsTree(TWO) && Path(TWO, "r") == ["r"] && Path(TWO, "a") == ["r", "a"] && Path(TWO, "b") == ["r", "a", "b"]
  {
    var p := map["r" := ["r"], "a" := ["r", "a"], "b" := ["r", "a", "b"]];
    assert Extends(TWO, p, "a") && Extends(TWO, p, "b");
    assert PathsOf(TWO, p);
    PathsAre(TWO, p);
  }

  // ---------- an UpdateQuota that stops halfway ----------

  /** A negative amount is not all or nothing: here the first write passes and the second is denied. */
  lemma NegativeAmountStopsHalfway()
    ensures var t := TWO;
            var w := World(t, map["r" := map["cpu" := 5], "a" := map["cpu" := 5], "b" := map["cpu" := 1]]);
            var route := Route(["b", "a"], "r", []);
            && Uniform(w, {"cpu"}) && Sound(w, {"cpu"}) && OnTree(t, route)
            && Admitted(w, {"cpu"}, route, map["cpu" := -1], 0)
            && !Admitted(w, {"cpu"}, route, map["cpu" := -1], 1)
  {
    var t := TWO;
    var w := World(t, map["r" := map["cpu" := 5], "a" := map["cpu" := 5], "b" := map["cpu" := 1]]);
    var route := Route(["b", "a"], "r", []);
    hide IsTree, Free, After, Admitted, OnTree, Sound, CanReach, Uniform, Path;
    TwoLinks();
    ChainSound(w);
    ChainReach(w, route);
    SecondWriteDenied(w, {"cpu"}, route, map["cpu" := -1]);
  }

  lemma ChainReach(w: World, route: Route)
    requires w.tree == TWO && route == Route(["b", "a"], "r", [])
    requires Valid(w, {"cpu"})
    requires Free(w, "r", "cpu") == 0 && Free(w, "a", "cpu") == 4 && Free(w, "b", "cpu") == 1
    ensures OnTree(w.tree, route)
    ensures CanReach(w, {"cpu"}, route, map["cpu" := -1], 1) && !CanReach(w, {"cpu"}, route, map["cpu" := -1], 2)
  {
    hide IsTree, Free;
    assert route.Stop(0) == "b" && route.Stop(1) == "a" && route.Stop(2) == "r";
    assert "cpu" in {"cpu"};
  }

  lemma ChainSound(w: World)
    requires w == World(TWO,
                        map["r" := map["cpu" := 5], "a" := map["cpu" := 5], "b" := map["cpu" := 1]])
    requires IsTree(w.tree)
    ensures Uniform(w, {"cpu"}) && Sound(w, {"cpu"})
    ensures Free(w, "r", "cpu") == 0 && Free(w, "a", "cpu") == 4 && Free(w, "b", "cpu") == 1
  {
    hide IsTree, Free, Sum;
    OneChildFree(w, "r", "a");
    OneChildFree(w, "a", "b");
    NoChildFree(w, "b");
  }

  lemma SecondWriteDenied(w: World, observed: set<Resource>, route: Route, amount: ResourceList)
    requires Uniform(w, observed) && Sound(w, observed) && OnTree(w.tree, route) && route.Length() == 2
    requires CanReach(w, observed, route, amount, 1) && !CanReach(w, observed, route, amount, 2)
    ensures Admitted(w, observed, route, amount, 0) && !Admitted(w, observed, route, amount, 1)
  {
    hide IsTree, Free, After, Admitted, OnTree, Sound, CanReach;
    AfterSoundIff(w, observed, route, amount, 0);
    AfterSoundIff(w, observed, route, amount, 1);
    AfterSoundIff(w, observed, route, amount, 2);
    AdmittedIffSound(w, observed, route, amount, 0);
    AdmittedIffSound(w, observed, route, amount, 1);
  }

  // ---------- a raise of the namespace that is being migrated ----------

  /** r over a and b, and a over n, which is going to b and has a Subnamespace under both. */
  const FOUR := Tree("r", map["a" := "r", "b" := "r", "n" := "a"])

  const FOUR_QUOTAS: map<Name, ResourceList> :=
    map["r" := map["cpu" := 10], "a" := map["cpu" := 1], "b" := map["cpu" := 5], "n" := map["cpu" := 1]]

  const FOUR_PLAN := Migration.Plan(FOUR, FOUR_QUOTAS, {"cpu"}, "n", "b", "b")

  const FOUR_BOTH := SharedMigration.Shared(World(FOUR, FOUR_QUOTAS), Migration.Both, false, true, false, map[])

  lemma FourPaths()
    ensures IsTree(FOUR) && FOUR.Nodes() == {"r", "a", "b", "n"} && !Under(FOUR, "n", "b")
  {
    var p := map["r" := ["r"], "a" := ["r", "a"], "b" := ["r", "b"], "n" := ["r", "a", "n"]];
    assert Extends(FOUR, p, "a") && Extends(FOUR, p, "b") && Extends(FOUR, p, "n");
    assert PathsOf(FOUR, p);
    PathsAre(FOUR, p);
  }

  lemma FourFree()
    ensures FOUR.parent.Keys <= FOUR_QUOTAS.Keys
    ensures var w := World(FOUR, FOUR_QUOTAS);
            Free(w, "r", "cpu") == 4 && Free(w, "a", "cpu") == 0 && Free(w, "b", "cpu") == 5 && Free(w, "n", "cpu") == 1
  {
    hide Free;
    var w := World(FOUR, FOUR_QUOTAS);
    TwoChildrenFree(w, "r", "a", "b");
    OneChildFree(w, "a", "n");
    NoChildFree(w, "b");
    NoChildFree(w, "n");
  }

  lemma FourFitting()
    ensures SharedMigration.Fitting(FOUR_PLAN, FOUR_BOTH)
  {
    hide IsTree, Path, Under;
    FourPaths();
  }

  lemma FourSolvent()
    ensures SharedMigration.Fitting(FOUR_PLAN, FOUR_BOTH) && SharedMigration.Solvent(FOUR_PLAN, FOUR_BOTH)
  {
    hide IsTree, Path, Under, Free, SharedMigration.Fitting;
    FourFitting();
    FourFree();
    forall x, r | x in FOUR_QUOTAS && r in {"cpu"} ensures SharedMigration.SolventAt(FOUR_PLAN, FOUR_BOTH, x, r) {
    }
  }

  const RAISE := Update("n", map["cpu" := 3], map[])

  lemma FourReal()
    ensures SharedMigration.Fitting(FOUR_PLAN, FOUR_BOTH) && "a" in FOUR_QUOTAS && "b" in FOUR_QUOTAS && "n" in FOUR_QUOTAS
    ensures SharedMigration.RealFree(FOUR_PLAN, FOUR_BOTH, "a", "cpu") == 0
    ensures SharedMigration.RealFree(FOUR_PLAN, FOUR_BOTH, "b", "cpu") == 4
    ensures SharedMigration.RealFree(FOUR_PLAN, FOUR_BOTH, "n", "cpu") == 1
  {
    hide IsTree, Path, Under, Free, SharedMigration.Fitting;
    FourFitting();
    FourFree();
  }

  lemma RaiseAdmitted()
    ensures SharedMigration.Fitting(FOUR_PLAN, FOUR_BOTH) && SharedMigration.Admitted(FOUR_PLAN, FOUR_BOTH, RAISE)
    ensures SharedMigration.RoomAt(FOUR_PLAN, FOUR_BOTH, RAISE, "b", "cpu")
  {
    hide IsTree, Path, Under, Free, SharedMigration.Fitting, SharedMigration.RealFree;
    FourReal();
    FourFree();
    assert SharedMigration.HolderHasRoom(FOUR_BOTH, "b", "n", RAISE.hard);
    assert "b" in SharedMigration.Holders(FOUR_PLAN, FOUR_BOTH, "n");
  }

  /** Raising n from 1 to 3 passes the check against b and leaves room there, but overdraws a by 2. */
  lemma OldParentOverdrawn()
    ensures SharedMigration.Fitting(FOUR_PLAN, FOUR_BOTH) && SharedMigration.Solvent(FOUR_PLAN, FOUR_BOTH)
    ensures var after := SharedMigration.Outside(FOUR_BOTH, RAISE);
            && SharedMigration.Admitted(FOUR_PLAN, FOUR_BOTH, RAISE)
            && SharedMigration.RoomAt(FOUR_PLAN, FOUR_BOTH, RAISE, "b", "cpu")
            && SharedMigration.Fitting(FOUR_PLAN, after) && "a" in after.world.quota
            && SharedMigration.RealFree(FOUR_PLAN, after, "a", "cpu") == -2
  {
    hide IsTree, Path, Under, Free, SharedMigration.Fitting, SharedMigration.Solvent, SharedMigration.RealFree,
         SharedMigration.Admitted, SharedMigration.RoomAt;
    FourSolvent();
    RaiseAdmitted();
    FourReal();
    SharedMigration.OutsideFitting(FOUR_PLAN, FOUR_BOTH, RAISE);
    SharedMigration.UpdateReal(FOUR_PLAN, FOUR_BOTH, RAISE, "a", "cpu");
  }

  // ---------- a move after which the database lacks a key ----------

  /** x goes from under m to under b, to the level of the keys, and the database has no key for it. */
  lemma LiftedMemberIsLost()
    ensures var f := map["k" := ["m", "x"]];
            && CanMove(f, SIX, 1, "x", "b", ["x"])
            && !Grouped(AfterMove(f, "x", "b", ["x"]), Attach(SIX, "x", "b"), 1)
  {
    hide IsTree, Path;
    SixPaths();
    var f := map["k" := ["m", "x"]];
    assert forall k :: k in f <==> IsKey(SIX, 1, k);
    assert GroupedAt(f, SIX, "k");
    assert Grouped(f, SIX, 1);
    assert Subtree(SIX, "x") == {"x"};
    assert !MoveFits(SIX, 1, "x", "b") by {
      assert Under(SIX, "x", "x");
    }
    MoveGroupedIff(f, SIX, 1, "x", "b", ["x"]);
  }

  // ---------- a move after which a quota selects too much ----------

  /** The same move: the quota of m still selects x. */
  lemma LiftedStaysSelected()
    ensures IsTree(SIX) && Agrees(SIX, AnnotationsOf(SIX))
    ensures var t, ann := Attach(SIX, "x", "b"), AnnotationsOf(SIX);
            && IsTree(t) && t.Nodes() == SIX.Nodes() && Agrees(t, Migrated(t, ann, "x", "b"))
            && "m" in ann && "x" in Selected(t, Migrated(t, ann, "x", "b"), "m") && "x" !in Subtree(t, "m")
  {
    hide IsTree, Path, Agrees, Tidy, Migrated, Selected;
    SixPaths();
    assert !Under(SIX, "x", "b");
    AnnotationsOfAgree(SIX);
    assert LiftsPastParent(SIX, 1, "x", "b");
    LiftedStillSelected(SIX, AnnotationsOf(SIX), 1, "x", "b");
  }

  // ---------- a crq-pointer that names nobody ----------

  const TWO_LABELS: PoolLabels := map["a" := "false", "b" := "0"]
  const TWO_MARKS: Marked :=
    map["a" := PoolAnnotations(true, false, Present("none"), "a"), "b" := PoolAnnotations(false, false, Present("none"), "none")]

  /** b is regular, deep and labelled "0": it owns its quota object, but its crq-pointer is "none". */
  lemma PointsToNobody()
    ensures Stable(TWO, TWO_LABELS, 1, TWO_MARKS)
    ensures NearestOwner(TWO, TWO_LABELS, "b", "b") && TWO_MARKS["b"].crqPointer == "none"
  {
    hide IsTree, Path, NearestOwner, Under;
    TwoLinks();
    forall c, labels' ensures !LabelStep(TWO, TWO_LABELS, c, labels') {
      assert c in TWO_LABELS ==> TWO_LABELS[c := TWO_LABELS[c]] == TWO_LABELS;
    }
    RegularIsItsOwner(TWO, TWO_LABELS, "b");
  }

  // ---------- a start-up that groups wrongly ----------

  /** r, a, b, ..., j in one line. */
  const LINE := Tree("r", map["a" := "r", "b" := "a", "c" := "b", "d" := "c", "e" := "d", "f" := "e",
                              "g" := "f", "h" := "g", "i" := "h", "j" := "i"])

  /** The line down to `last`, when that is its last namespace and `n` is to be added below. */
  lemma Longer(t: Tree, last: Name, n: Name, d: nat)
    requires IsTree(t) && last in t.Nodes() && Depth(t, last) == d && n !in t.Nodes()
    ensures IsTree(Attach(t, n, last)) && Attach(t, n, last).Nodes() == t.Nodes() + {n} && Depth(Attach(t, n, last), n) == d + 1
  {
    hide IsTree, Path, Depth;
    AttachDepth(t, n, last, n);
  }

  lemma LineDepth()
    ensures IsTree(LINE) && "j" in LINE.Nodes() && Depth(LINE, "j") == 10
  {
    hide IsTree, Path, Depth, Tree.Nodes;
    var t := Tree("r", map[]);
    RootAlone("r");
    DepthOfRoot(t);
    Longer(t, "r", "a", 0);
    t := Attach(t, "a", "r");
    Longer(t, "a", "b", 1);
    t := Attach(t, "b", "a");
    Longer(t, "b", "c", 2);
    t := Attach(t, "c", "b");
    Longer(t, "c", "d", 3);
    t := Attach(t, "d", "c");
    Longer(t, "d", "e", 4);
    t := Attach(t, "e", "d");
    Longer(t, "e", "f", 5);
    t := Attach(t, "f", "e");
    Longer(t, "f", "g", 6);
    t := Attach(t, "g", "f");
    Longer(t, "g", "h", 7);
    t := Attach(t, "h", "g");
    Longer(t, "h", "i", 8);
    t := Attach(t, "i", "h");
    Longer(t, "i", "j", 9);
    t := Attach(t, "j", "i");
    assert t == LINE;
  }

  lemma LineLeaf()
    ensures LeafNames(LINE, ["j"])
  {
    assert LINE.Children("j") == {};
    assert "b" in LINE.Children("a") && "c" in LINE.Children("b") && "d" in LINE.Children("c") && "e" in LINE.Children("d");
    assert "f" in LINE.Children("e") && "g" in LINE.Children("f") && "h" in LINE.Children("g") && "i" in LINE.Children("h");
    assert "j" in LINE.Children("i");
  }

  /** With the tenth level, start-up does not build the grouping of this hierarchy. */
  lemma TenLevelsGroupWrongly()
    ensures IsTree(LINE) && LeafNames(LINE, ["j"]) && "j" in LINE.Nodes()
    ensures !Grouped(AddLeaves(LINE, 1, ["j"]), LINE, 1)
  {
    hide IsTree, Path, Depth, Grouped, AddLeaves, TextFits;
    LineDepth();
    LineLeaf();
    InitGroupsIff(LINE, 1, ["j"]);
    TenthLevelDoesNotFit();
  }
}
