/** The whole system over one state: hierarchy, quotas, annotations and database together.  Every run of
    admitted creates, updates, syncs, leaf deletes and completed migrations keeps all of them in order.
 */
module System {
  import opened Api
  import opened Hierarchy
  import opened Listings
  import opened Moves
  import opened Resources
  import opened Quota
  import opened Admission
  import opened DisplayName
  import opened UpdateQuota
  import opened UpdateQuotaController
  import opened NamespaceDB
  import opened Grouping
  import opened Labels
  import Migration
  import MigrationTraces
  import Relabelling
  import CrqSelection
  import opened ResourcePool
  import QuotaOwnership
  import DatabaseRuns

  datatype Config = Config(observed: set<Resource>, rqDepth: nat, maxSns: nat)

  datatype State = State(world: World, ann: Annotated, forest: Forest) {
    function Tree(): Tree {
      world.tree
    }

    function Db(): DatabaseRuns.State {
      DatabaseRuns.State(world.tree, forest)
    }
  }

  /** Quotas are sound, annotations spell the paths, and the database groups the hierarchy within bounds. */
  ghost predicate InOrder(c: Config, s: State)
    ensures InOrder(c, s) ==> IsTree(s.Tree()) && Valid(s.world, c.observed) && s.ann.Keys == s.Tree().Nodes()
  {
    && Uniform(s.world, c.observed) && Sound(s.world, c.observed)
    && Agrees(s.Tree(), s.ann)
    && Grouped(s.forest, s.Tree(), c.rqDepth)
    && DatabaseRuns.Bounded(s.forest, c.maxSns)
  }

  datatype Op =
    | Create(name: Name, under: Name, hard: ResourceList, isRq: bool, hasCrq: bool)
    | Update(name: Name, hard: ResourceList, used: ResourceList)
    | Sync(name: Name, isRq: bool, hasCrq: bool)
    | Delete(name: Name)
    | Migrate(name: Name, to: Name, pointer: Name, trace: seq<Migration.State>, children: seq<Name>)

  function PlanOf(c: Config, s: State, n: Name, to: Name, pointer: Name): Migration.Plan {
    Migration.Plan(s.Tree(), s.world.quota, c.observed, n, to, pointer)
  }

  ghost predicate CreateStep(c: Config, s: State, op: Op, s': State)
    requires InOrder(c, s) && op.Create?
  {
    var n, p := op.name, op.under;
    && ValidName(n) && AdmitsCreate(s.world, c.observed, n, p, op.hard) && op.hard.Keys == c.observed
    && QuotaKindFits(c.rqDepth, Depth(s.Tree(), p) + 1, op.isRq, op.hasCrq)
    && DatabaseRuns.CreateHasRoom(s.Db(), c.maxSns, p)
    && s' == State(Created(s.world, n, p, op.hard), s.ann[n := BasedOnParent(s.ann[p], n)],
                   Ensured(s.forest, n, p, op.isRq, op.hasCrq))
  }

  ghost predicate UpdateStep(c: Config, s: State, op: Op, s': State)
    requires InOrder(c, s) && op.Update?
  {
    && op.name in s.Tree().parent && op.hard.Keys == c.observed
    && AdmitsUpdate(s.world, c.observed, op.name, op.hard, op.used)
    && s' == s.(world := Write(s.world, op.name, op.hard))
  }

  /** A Subnamespace is synced again. */
  ghost predicate SyncStep(c: Config, s: State, op: Op, s': State)
    requires InOrder(c, s) && op.Sync?
  {
    && op.name in s.Tree().parent && op.name in s.Tree().Nodes()
    && QuotaKindFits(c.rqDepth, Depth(s.Tree(), op.name), op.isRq, op.hasCrq)
    && s' == s.(forest := Ensured(s.forest, op.name, s.Tree().parent[op.name], op.isRq, op.hasCrq))
  }

  ghost predicate DeleteStep(c: Config, s: State, op: Op, s': State)
    requires InOrder(c, s) && op.Delete?
  {
    && op.name in s.Tree().parent && s.Tree().Children(op.name) == {}
    && s' == State(Deleted(s.world, op.name), s.ann - {op.name}, Removed(s.forest, op.name))
  }

  /** The checks of a migration, and that the move fits.  The limit check counts what the namespace's
      ClusterResourceQuota lists, which is what it selects. */
  ghost predicate MigrateAdmitted(c: Config, s: State, n: Name, to: Name)
    requires InOrder(c, s)
  {
    && n in s.Tree().parent && to in s.Tree().parent && n != to && s.Tree().parent[n] != to
    && Relabelling.LoopCheckPasses(s.ann, n, to)
    && MoveFits(s.Tree(), c.rqDepth, n, to)
    && (Depth(s.Tree(), n) <= c.rqDepth ==> Depth(s.Tree(), to) <= c.rqDepth)
    && DatabaseRuns.MigrateHasRoom(s.Db(), c.maxSns, n, to, |CrqSelection.Selected(s.Tree(), s.ann, n)|)
  }

  /** An admitted migration that ran to the end.  What it does is stated for a valid plan; that the plan is
      valid follows from the display-name check. */
  ghost predicate MigrateStep(c: Config, s: State, op: Op, s': State)
    requires InOrder(c, s) && op.Migrate?
  {
    var n, to, p := op.name, op.to, PlanOf(c, s, op.name, op.to, op.pointer);
    && MigrateAdmitted(c, s, n, to)
    && Lists(op.children, Subtree(s.Tree(), n))
    && s'.Tree() == Attach(s.Tree(), n, to)
    && s'.forest == AfterMove(s.forest, n, to, op.children)
    && (p.Valid() && IsTree(s'.Tree()) && s'.Tree().Nodes() == s.Tree().Nodes() ==>
          && MigrationTraces.CompletedTrace(p, op.trace) && s'.world.quota == op.trace[|op.trace| - 1].quota
          && s'.ann == Relabelling.Migrated(s'.Tree(), s.ann, n, to))
  }

  ghost predicate Step(c: Config, s: State, op: Op, s': State)
    requires InOrder(c, s)
  {
    match op
    case Create(_, _, _, _, _) => CreateStep(c, s, op, s')
    case Update(_, _, _) => UpdateStep(c, s, op, s')
    case Sync(_, _, _) => SyncStep(c, s, op, s')
    case Delete(_) => DeleteStep(c, s, op, s')
    case Migrate(_, _, _, _, _) => MigrateStep(c, s, op, s')
  }

  lemma CreateKeepsOrder(c: Config, s: State, op: Op, s': State)
    requires InOrder(c, s) && op.Create? && CreateStep(c, s, op, s')
    ensures InOrder(c, s')
  {
    hide IsTree, Sound, Agrees, Grouped, DatabaseRuns.Bounded, Uniform, Ensured;
    Relabelling.ValidNameHasNoSlash(op.name);
    CreateKeepsSound(s.world, c.observed, op.name, op.under, op.hard);
    CreateValid(s.world, c.observed, op.name, op.under, op.hard);
    CreateAgrees(s.Tree(), s.ann, op.name, op.under);
    CreateGrouped(s.forest, s.Tree(), c.rqDepth, op.name, op.under, op.isRq, op.hasCrq);
    DatabaseRuns.CreateBounded(s.Db(), c.rqDepth, c.maxSns, op.name, op.under, op.isRq, op.hasCrq);
  }

  lemma UpdateKeepsOrder(c: Config, s: State, op: Op, s': State)
    requires InOrder(c, s) && op.Update? && UpdateStep(c, s, op, s')
    ensures InOrder(c, s')
  {
    hide IsTree, Sound, Agrees, Grouped, DatabaseRuns.Bounded, AdmitsQuota;
    UpdateKeepsSound(s.world, c.observed, op.name, op.hard);
    WriteValid(s.world, c.observed, op.name, op.hard);
  }

  /** Syncing again changes nothing. */
  lemma SyncKeepsOrder(c: Config, s: State, op: Op, s': State)
    requires InOrder(c, s) && op.Sync? && SyncStep(c, s, op, s')
    ensures s' == s && InOrder(c, s')
  {
    hide IsTree, Sound, Agrees, Grouped, DatabaseRuns.Bounded, Uniform, Ensured, Depth;
    ResyncUnchanged(s.forest, s.Tree(), c.rqDepth, op.name, op.isRq, op.hasCrq);
  }

  lemma DeleteKeepsOrder(c: Config, s: State, op: Op, s': State)
    requires InOrder(c, s) && op.Delete? && DeleteStep(c, s, op, s')
    ensures InOrder(c, s')
  {
    hide IsTree, Sound, Agrees, Grouped, DatabaseRuns.Bounded, Uniform, Removed;
    DeleteKeepsSound(s.world, c.observed, op.name);
    DeleteValid(s.world, c.observed, op.name);
    DeleteAgrees(s.Tree(), s.ann, op.name);
    DeleteGrouped(s.forest, s.Tree(), c.rqDepth, op.name);
    DatabaseRuns.DeleteBounded(s.forest, c.maxSns, op.name);
  }

  /** The quotas that a completed migration leaves are sound for the new hierarchy. */
  lemma MigratedSound(p: Migration.Plan, tr: seq<Migration.State>)
    requires p.Valid() && MigrationTraces.CompletedTrace(p, tr)
    ensures Uniform(World(p.Moved(), tr[|tr| - 1].quota), p.observed)
    ensures Sound(World(p.Moved(), tr[|tr| - 1].quota), p.observed)
  {
    hide IsTree, Sum, Migration.Behaviour, Migration.Accounted, Migration.Ordered, Uniform, Sound;
    var last := tr[|tr| - 1];
    var w := World(p.Moved(), last.quota);
    Migration.AlwaysAccounted(p, tr, |tr| - 1);
    Migration.MovedUniform(p, last);
    forall x, r | x in w.quota && r in p.observed ensures Free(w, x, r) >= 0 {
      Migration.MigrationTheorem(p, tr, |tr| - 1, x, r);
      Migration.AmountFacts(p, r);
    }
    forall x, r | x in w.quota && r in p.observed ensures Get(w.quota[x], r) >= 0 {
      FreeMeansQuota(w, p.observed, x, r);
    }
    SoundFromParts(w, p.observed);
  }

  lemma SoundFromParts(w: World, observed: set<Resource>)
    requires Valid(w, observed)
    requires forall x, r :: x in w.quota && r in observed ==> Free(w, x, r) >= 0
    requires forall x, r :: x in w.quota && r in observed ==> Get(w.quota[x], r) >= 0
    ensures Sound(w, observed)
  {
    hide IsTree, Free;
  }

  /** The checks of a migration in terms of the hierarchy: another parent outside the moved subtree, a move
      that fits, and a branch that with all that moves stays within the limit. */
  lemma MigrateAdmittedIff(c: Config, s: State, n: Name, to: Name)
    requires InOrder(c, s) && n in s.Tree().parent && to in s.Tree().parent && n in s.ann && to in s.Tree().Nodes()
    ensures MigrateAdmitted(c, s, n, to) <==>
            && s.Tree().parent[n] != to && !Under(s.Tree(), n, to)
            && MoveFits(s.Tree(), c.rqDepth, n, to)
            && (Depth(s.Tree(), n) <= c.rqDepth ==> Depth(s.Tree(), to) <= c.rqDepth)
            && (Depth(s.Tree(), n) > c.rqDepth && Depth(s.Tree(), to) > c.rqDepth ==>
                  |Subtree(s.Tree(), KeyAbove(s.Tree(), c.rqDepth, to))| + |CrqSelection.Selected(s.Tree(), s.ann, n)| <= c.maxSns)
  {
    hide IsTree, Sound, Agrees, Grouped, DatabaseRuns.Bounded, Uniform, MoveFits, Under, DatabaseRuns.MigrateHasRoom, Depth, Subtree,
         CrqSelection.Selected, Relabelling.LoopCheckPasses;
    Relabelling.LoopCheckExact(s.Tree(), s.ann, n, to);
    UnderSelf(s.Tree(), n);
    DatabaseRuns.MigrateRoomIff(s.Db(), c.rqDepth, c.maxSns, n, to, |CrqSelection.Selected(s.Tree(), s.ann, n)|);
  }

  /** The plan of an admitted migration is valid. */
  lemma AdmittedPlan(c: Config, s: State, n: Name, to: Name, pointer: Name)
    requires InOrder(c, s) && MigrateAdmitted(c, s, n, to)
    ensures PlanOf(c, s, n, to, pointer).Valid() && !Under(s.Tree(), n, to) && n in s.ann && to in s.ann
    ensures IsTree(Attach(s.Tree(), n, to)) && Attach(s.Tree(), n, to).Nodes() == s.Tree().Nodes()
  {
    hide IsTree, Sound, Agrees, Grouped, DatabaseRuns.Bounded, Uniform, MoveFits, Under, DatabaseRuns.MigrateHasRoom, Depth,
         CrqSelection.Selected;
    Relabelling.LoopCheckExact(s.Tree(), s.ann, n, to);
    ReparentIsTree(s.Tree(), n, to);
  }

  /** The namespace's ClusterResourceQuota lists at least the subtree that moves. */
  lemma ListsWholeSubtree(c: Config, s: State, n: Name, children: seq<Name>)
    requires InOrder(c, s) && n in s.ann && Lists(children, Subtree(s.Tree(), n))
    ensures |children| <= |CrqSelection.Selected(s.Tree(), s.ann, n)|
  {
    hide IsTree, Agrees, Grouped, Uniform, Sound, DatabaseRuns.Bounded, Subtree, CrqSelection.Selected;
    CrqSelection.SelectsWholeSubtree(s.Tree(), s.ann, n);
    ListingSize(children, Subtree(s.Tree(), n));
    SubsetSize(Subtree(s.Tree(), n), CrqSelection.Selected(s.Tree(), s.ann, n));
  }

  lemma MigrateKeepsOrder(c: Config, s: State, op: Op, s': State)
    requires InOrder(c, s) && op.Migrate? && MigrateStep(c, s, op, s')
    ensures InOrder(c, s')
  {
    hide IsTree, Sound, Agrees, Grouped, DatabaseRuns.Bounded, Uniform, MoveFits, Under, MigrationTraces.CompletedTrace,
         Relabelling.Migrated, AfterMove, DatabaseRuns.MigrateHasRoom, Depth, Migration.Plan.Valid, CrqSelection.Selected,
         Relabelling.LoopCheckPasses;
    var n, to, p := op.name, op.to, PlanOf(c, s, op.name, op.to, op.pointer);
    AdmittedPlan(c, s, n, to, op.pointer);
    MigratedSound(p, op.trace);
    assert s'.world == World(p.Moved(), op.trace[|op.trace| - 1].quota);
    Relabelling.MigrateAgrees(s.Tree(), s.ann, n, to);
    assert CanMove(s.forest, s.Tree(), c.rqDepth, n, to, op.children);
    FittingMoveGrouped(s.forest, s.Tree(), c.rqDepth, n, to, op.children);
    ListsWholeSubtree(c, s, n, op.children);
    DatabaseRuns.MoveBounded(s.Db(), c.rqDepth, c.maxSns, n, to, op.children, |CrqSelection.Selected(s.Tree(), s.ann, n)|);
  }

  /** The limit check of the new Subnamespace's own create follows from that of the migration. */
  lemma NewSnsHasRoom(c: Config, s: State, n: Name, to: Name)
    requires InOrder(c, s) && MigrateAdmitted(c, s, n, to)
    ensures DatabaseRuns.CreateHasRoom(s.Db(), c.maxSns, to)
  {
    hide IsTree, Sound, Agrees, Grouped, DatabaseRuns.Bounded, Uniform, MoveFits, CrqSelection.Selected, Relabelling.LoopCheckPasses, Path;
    PathStep(s.Tree(), n);
    PathStep(s.Tree(), to);
    KeyOfIs(s.forest, s.Tree(), c.rqDepth, n);
    KeyOfIs(s.forest, s.Tree(), c.rqDepth, to);
    if Depth(s.Tree(), n) > c.rqDepth {
      KeyNotEmpty(s.forest, s.Tree(), c.rqDepth, n);
    }
  }

  lemma KeyNotEmpty(f: Forest, t: Tree, rq: nat, x: Name)
    requires Grouped(f, t, rq) && x in t.Nodes() && Depth(t, x) > rq
    ensures KeyOf(f, x) != ""
  {
    hide IsTree, Path, Depth, Under;
    KeyOfIs(f, t, rq, x);
    KeyAboveIs(t, rq, KeyOf(f, x), x);
  }

  /** An admitted migration whose first UpdateQuota is sent to the destination can be carried through: some
      step completes it, no write on the way is denied, and the new Subnamespace passes its limit check. */
  lemma MigrationCanComplete(c: Config, s: State, n: Name, to: Name, pointer: Name) returns (op: Op, s': State)
    requires InOrder(c, s) && MigrateAdmitted(c, s, n, to)
    requires n in s.world.quota && (PlanOf(c, s, n, to, pointer).HasQuota() ==> pointer == to)
    ensures op.Migrate? && op.name == n && op.to == to && op.pointer == pointer && MigrateStep(c, s, op, s') && InOrder(c, s')
    ensures DatabaseRuns.CreateHasRoom(s.Db(), c.maxSns, to)
    ensures var p := PlanOf(c, s, n, to, pointer);
            && p.Valid() && MigrationTraces.CompletedTrace(p, op.trace)
            && forall k: nat :: k + 1 < |op.trace| ==>
                 Migration.Invariant(p, op.trace[k]) && MigrationTraces.Permitted(p, op.trace[k], op.trace[k + 1])
  {
    hide IsTree, Sound, Agrees, Grouped, DatabaseRuns.Bounded, Uniform, MigrateAdmitted, Under, Relabelling.Migrated, AfterMove,
         Depth, Migration.Plan.Valid, Migration.Plan.HasQuota, Subtree, InOrder, Migration.Behaviour, Migration.Invariant,
         MigrationTraces.Permitted, DatabaseRuns.CreateHasRoom;
    var p := PlanOf(c, s, n, to, pointer);
    AdmittedPlan(c, s, n, to, pointer);
    NewSnsHasRoom(c, s, n, to);
    var trace := MigrationTraces.CompletionExists(p);
    forall k: nat | k + 1 < |trace|
      ensures Migration.Invariant(p, trace[k]) && MigrationTraces.Permitted(p, trace[k], trace[k + 1])
    {
      MigrationTraces.NeverDenied(p, trace, k);
    }
    var children := ListingExists(Subtree(s.Tree(), n));
    op := Migrate(n, to, pointer, trace, children);
    var t := Attach(s.Tree(), n, to);
    s' := State(World(t, trace[|trace| - 1].quota), Relabelling.Migrated(t, s.ann, n, to), AfterMove(s.forest, n, to, children));
    MigrateKeepsOrder(c, s, op, s');
  }

  /** A step that completes the migration, with the first UpdateQuota sent where the destination points. */
  ghost predicate Completes(c: Config, s: State, op: Op, s': State, n: Name, to: Name, pointer: Name)
    requires InOrder(c, s)
  {
    op.Migrate? && op.name == n && op.to == to && op.pointer == pointer && MigrateStep(c, s, op, s')
  }

  /** From a state that no sync changes, an admitted migration to a regular destination can be carried
      through if and only if it moves no quota, or the destination is at most at rq-depth, or it carries the
      literal label "false". */
  lemma MigrationCompletableIff(c: Config, s: State, n: Name, to: Name, labels: PoolLabels, marks: QuotaOwnership.Marked)
    requires InOrder(c, s) && MigrateAdmitted(c, s, n, to) && n in s.world.quota && to in s.Tree().Nodes()
    requires QuotaOwnership.Stable(s.Tree(), labels, c.rqDepth, marks) && !IsPool(labels, to) && to != "none"
    ensures to in marks && to in labels
    ensures (exists op, s' :: Completes(c, s, op, s', n, to, marks[to].crqPointer)) <==>
            || !PlanOf(c, s, n, to, to).HasQuota() || Depth(s.Tree(), to) <= c.rqDepth || labels[to] == "false"
  {
    hide IsTree, Agrees, Grouped, InOrder, MigrateStep, Depth, Under, Migration.Plan.Valid, Migration.Plan.HasQuota, Path;
    QuotaOwnership.RegularPointerIff(s.Tree(), labels, c.rqDepth, marks, to);
    var pointer := marks[to].crqPointer;
    SameQuota(c, s, n, to, pointer);
    if op, s' :| Completes(c, s, op, s', n, to, pointer) {
      CompletedIsPointed(c, s, op, s');
    }
    if PlanOf(c, s, n, to, pointer).HasQuota() ==> pointer == to {
      var op, s' := MigrationCanComplete(c, s, n, to, pointer);
      assert Completes(c, s, op, s', n, to, pointer);
    }
  }

  /** Whether there is a quota to move does not depend on the crq-pointer. */
  lemma SameQuota(c: Config, s: State, n: Name, to: Name, pointer: Name)
    requires n in s.world.quota
    ensures PlanOf(c, s, n, to, pointer).HasQuota() <==> PlanOf(c, s, n, to, to).HasQuota()
  {
  }

  lemma CompletedIsPointed(c: Config, s: State, op: Op, s': State)
    requires InOrder(c, s) && op.Migrate? && MigrateStep(c, s, op, s') && op.name in s.world.quota
    ensures PlanOf(c, s, op.name, op.to, op.pointer).HasQuota() ==> op.pointer == op.to
  {
    hide IsTree, Sound, Agrees, Grouped, InOrder, MigrateAdmitted, Under, Depth, Migration.Plan.Valid, Migration.Plan.HasQuota,
         MigrationTraces.CompletedTrace, Relabelling.Migrated, AfterMove;
    AdmittedPlan(c, s, op.name, op.to, op.pointer);
    MigrationTraces.CompletesOnlyIfPointed(PlanOf(c, s, op.name, op.to, op.pointer), op.trace);
  }

  lemma StepKeepsOrder(c: Config, s: State, op: Op, s': State)
    requires InOrder(c, s) && Step(c, s, op, s')
    ensures InOrder(c, s')
  {
    hide InOrder, CreateStep, UpdateStep, SyncStep, DeleteStep, MigrateStep;
    match op
    case Create(_, _, _, _, _) => CreateKeepsOrder(c, s, op, s');
    case Update(_, _, _) => UpdateKeepsOrder(c, s, op, s');
    case Sync(_, _, _) => SyncKeepsOrder(c, s, op, s');
    case Delete(_) => DeleteKeepsOrder(c, s, op, s');
    case Migrate(_, _, _, _, _) => MigrateKeepsOrder(c, s, op, s');
  }

  ghost predicate Run(c: Config, ss: seq<State>, ops: seq<Op>) {
    && |ss| == |ops| + 1
    && forall i :: 0 <= i < |ops| && InOrder(c, ss[i]) ==> Step(c, ss[i], ops[i], ss[i + 1])
  }

  /** A new hierarchy: the root alone, with its quota, its own annotations and an empty database. */
  function Fresh(root: Name, hard: ResourceList): State {
    State(World(Tree(root, map[]), map[root := hard]), map[root := Annotations(root, 0, map[0 := root])], map[])
  }

  /** It is in order, so every run that starts from it stays in order. */
  lemma FreshInOrder(c: Config, root: Name, hard: ResourceList)
    requires root != "" && '/' !in root && hard.Keys == c.observed && forall r :: r in hard ==> hard[r] >= 0
    ensures InOrder(c, Fresh(root, hard))
  {
    hide IsTree, Sum, Path;
    var s := Fresh(root, hard);
    RootAlone(root);
    forall r ensures Free(s.world, root, r) == Get(hard, r) {
      NoChildrenNothingAllocated(s.world, root, r);
    }
    assert AgreesAt(s.Tree(), s.ann, root);
  }

  /** Every state of every run is in order. */
  lemma {:induction false} AlwaysInOrder(c: Config, ss: seq<State>, ops: seq<Op>, k: nat)
    requires Run(c, ss, ops) && InOrder(c, ss[0]) && k < |ss|
    ensures InOrder(c, ss[k])
  {
    hide InOrder, Step;
    if k > 0 {
      AlwaysInOrder(c, ss, ops, k - 1);
      StepKeepsOrder(c, ss[k - 1], ops[k - 1], ss[k]);
    }
  }
}
