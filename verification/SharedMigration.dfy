/** A migration while everybody else goes on creating, updating and deleting Subnamespaces.

    The admission checks take the parent from the written Subnamespace object, find its siblings by the
    namespaces' parent labels and its children by the Subnamespace objects again.  Between the creation of
    the new Subnamespace and the relabelling labels and objects disagree about the migrated namespace, and
    the checks do not see it below its new parent.  The writes of the two UpdateQuotas are updates like any
    other.
 */
module SharedMigration {
  import opened Hierarchy
  import opened Moves
  import opened Resources
  import opened Quota
  import opened Admission
  import opened Grouping
  import opened Migration

  /** The world has the parent labels; `owed` is what the root was lowered by and has not got back. */
  datatype Shared = Shared(world: World, sns: SnsStage, relabelled: bool, raised: bool, lowered: bool, owed: ResourceList)

  function Begin(p: Plan): Shared {
    Shared(World(p.tree, p.start), OldOnly, false, false, false, map[])
  }

  /** Labels and Subnamespace objects disagree. */
  predicate Window(s: Shared) {
    s.sns != OldOnly && !s.relabelled
  }

  /** The state fits the plan. */
  ghost predicate Fitting(p: Plan, s: Shared)
    ensures Fitting(p, s) ==> Uniform(s.world, p.observed) && Valid(s.world, p.observed)
    ensures Fitting(p, s) ==> p.n in s.world.tree.parent && p.to in s.world.tree.parent && p.n in s.world.quota && p.to in s.world.quota
    ensures Fitting(p, s) ==> s.world.tree.root in s.world.quota && p.n in p.tree.parent
    ensures Fitting(p, s) && !s.relabelled ==> s.owed == map[]
    ensures Fitting(p, s) ==> s.world.tree.parent[p.n] in s.world.quota && (!s.relabelled ==> p.OldParent() in s.world.quota)
  {
    && Uniform(s.world, p.observed)
    && p.n in p.tree.parent && p.OldParent() != p.to
    && p.n in s.world.tree.parent && p.to in s.world.tree.parent
    && s.world.tree.parent[p.n] == (if s.relabelled then p.to else p.OldParent())
    && (s.relabelled ==> s.sns == NewOnly)
    && (!s.relabelled ==> !Under(s.world.tree, p.n, p.to))
    && (!s.lowered ==> s.owed == map[]) && (s.lowered ==> s.relabelled)
    && (PathStep(s.world.tree, p.n); s.world.tree.parent[p.n] in s.world.quota)
  }

  /** What the migrated namespace holds. */
  ghost function Held(p: Plan, s: Shared, r: Resource): int
    requires Fitting(p, s)
  {
    Get(s.world.quota[p.n], r)
  }

  /** Free quota as the Subnamespace objects leave it: until the old one is gone the migrated quota counts
      under the old parent, and from the creation of the new one on under the new parent. */
  ghost function RealFree(p: Plan, s: Shared, x: Name, r: Resource): int
    requires Fitting(p, s) && x in s.world.quota
  {
    Free(s.world, x, r)
    + When(x == p.OldParent() && s.sns == NewOnly && !s.relabelled, Held(p, s, r))
    - When(x == p.to && Window(s), Held(p, s, r))
  }

  /** `x` is not overdrawn, or is the root and is overdrawn by what it is owed at most. */
  ghost predicate SolventAt(p: Plan, s: Shared, x: Name, r: Resource)
    requires Fitting(p, s) && x in s.world.quota
  {
    RealFree(p, s, x, r) >= -When(x == s.world.tree.root, Get(s.owed, r))
  }

  /** Nobody but the root owns less than nothing. */
  ghost predicate QuotasOk(w: World, observed: set<Resource>) {
    forall x, r :: x in w.quota && r in observed && x != w.tree.root ==> Get(w.quota[x], r) >= 0
  }

  ghost predicate Solvent(p: Plan, s: Shared)
    requires Fitting(p, s)
  {
    QuotasOk(s.world, p.observed) && forall x, r :: x in s.world.quota && r in p.observed ==> SolventAt(p, s, x, r)
  }

  // ---------- steps ----------

  /** The namespaces that hold a Subnamespace object of `m`: two while the migrated one has two objects. */
  ghost function Holders(p: Plan, s: Shared, m: Name): set<Name>
    requires Fitting(p, s) && m in s.world.tree.parent
  {
    if m == p.n && Window(s)
    then if s.sns == Both then {p.OldParent(), p.to} else {p.to}
    else {s.world.tree.parent[m]}
  }

  /** The holder of the written object has room, by the labels of its children. */
  ghost predicate HolderHasRoom(s: Shared, holder: Name, m: Name, l: ResourceList)
    requires s.world.tree.parent.Keys <= s.world.quota.Keys && m in s.world.quota
  {
    holder in s.world.quota && forall r :: r in l ==> Free(s.world, holder, r) - l[r] + Get(s.world.quota[m], r) >= 0
  }

  /** The update check: the parent is where the written object lives, children are found by objects. */
  ghost predicate AdmitsShared(p: Plan, s: Shared, m: Name, l: ResourceList, used: ResourceList)
    requires Fitting(p, s) && m in s.world.tree.parent
  {
    PathStep(s.world.tree, m);
    && ParamsGiven(p.observed, l) && CoversUsage(l, used)
    && (exists holder :: holder in Holders(p, s, m) && HolderHasRoom(s, holder, m, l))
    && forall r :: r in l ==> l[r] - (Get(s.world.quota[m], r) - RealFree(p, s, m, r)) >= 0
  }

  /** A write by somebody else, or by an UpdateQuota.  Nobody deletes the migrated namespace or its new parent. */
  ghost predicate Admitted(p: Plan, s: Shared, op: Op)
    requires Fitting(p, s)
  {
    match op
    case Create(m, c, l) => l.Keys == p.observed && AdmitsCreate(s.world, p.observed, m, c, l)
    case Update(m, l, used) => l.Keys == p.observed && m in s.world.tree.parent && AdmitsShared(p, s, m, l, used)
    case Delete(m) => m in s.world.tree.parent && s.world.tree.Children(m) == {} && m != p.n && m != p.to
  }

  ghost predicate UnderRoot(s: Shared, op: Op) {
    match op
    case Create(_, c, _) => c == s.world.tree.root
    case Update(m, _, _) => m in s.world.tree.parent && s.world.tree.parent[m] == s.world.tree.root
    case Delete(_) => false
  }

  /** An admitted write under the root leaves it without debt. */
  ghost function Outside(s: Shared, op: Op): Shared {
    var w := match op
             case Create(m, c, l) => Created(s.world, m, c, l)
             case Update(m, l, _) => Write(s.world, m, l)
             case Delete(m) => Deleted(s.world, m);
    s.(world := w, owed := if UnderRoot(s, op) then map[] else s.owed)
  }

  /** `amount` is the quota of the migrated namespace as the pass has read it. */
  ghost predicate RaiseRoot(p: Plan, s: Shared, s': Shared, amount: ResourceList)
    requires Fitting(p, s)
  {
    var root := s.world.tree.root;
    && !s.raised && ParamsGiven(p.observed, amount) && amount.Keys == p.observed
    && s' == s.(raised := true, world := Write(s.world, root, RootShifted(s.world.quota[root], amount, 1)))
  }

  ghost predicate LowerRoot(p: Plan, s: Shared, s': Shared, amount: ResourceList)
    requires Fitting(p, s)
  {
    var root := s.world.tree.root;
    && s.relabelled && !s.lowered && ParamsGiven(p.observed, amount) && amount.Keys == p.observed
    && s' == s.(lowered := true, owed := amount,
                world := Write(s.world, root, RootShifted(s.world.quota[root], amount, -1)))
  }

  ghost predicate RootStep(p: Plan, s: Shared, s': Shared, amount: ResourceList)
    requires Fitting(p, s)
  {
    RaiseRoot(p, s, s', amount) || LowerRoot(p, s, s', amount)
  }

  /** The create check of the new Subnamespace, with siblings found by labels. */
  ghost predicate CreateNew(p: Plan, s: Shared, s': Shared)
    requires Fitting(p, s)
  {
    s.sns == OldOnly && ParentHasRoom(s.world, p.to, s.world.quota[p.n]) && s' == s.(sns := Both)
  }

  ghost predicate DeleteOld(s: Shared, s': Shared) {
    s.sns == Both && s' == s.(sns := NewOnly)
  }

  ghost predicate RollBack(s: Shared, s': Shared) {
    s.sns == Both && s' == s.(sns := OldOnly)
  }

  ghost predicate Relabel(p: Plan, s: Shared, s': Shared)
    requires Fitting(p, s)
  {
    && s.sns == NewOnly && !s.relabelled
    && s' == s.(relabelled := true, world := s.world.(tree := Attach(s.world.tree, p.n, p.to)))
  }

  ghost predicate ControllerStep(p: Plan, s: Shared, s': Shared)
    requires Fitting(p, s)
  {
    || (exists amount :: RootStep(p, s, s', amount))
    || CreateNew(p, s, s') || DeleteOld(s, s') || RollBack(s, s') || Relabel(p, s, s')
  }

  // ---------- the window ----------

  /** By how much the write raises what the Subnamespace objects give out below the new parent. */
  ghost function Increase(p: Plan, s: Shared, op: Op, r: Resource): int
    requires Fitting(p, s)
  {
    match op
    case Create(_, c, l) => When(c == p.to, Get(l, r))
    case Update(m, l, _) =>
      if m in s.world.tree.parent && m in s.world.quota
      then When(s.world.tree.parent[m] == p.to || m == p.n, Get(l, r) - Get(s.world.quota[m], r))
      else 0
    case Delete(_) => 0
  }

  /** By how much the write raises what the old parent gives to the migrated namespace, unseen by a check
      against the new parent. */
  ghost function IncreaseAbove(p: Plan, s: Shared, op: Op, r: Resource): int
    requires Fitting(p, s)
  {
    if op.Update? && op.name == p.n && s.sns == Both then Get(op.hard, r) - Get(s.world.quota[p.n], r) else 0
  }

  /** In the window, the write takes no more from `x`, the new or the old parent, than the Subnamespace
      objects leave. */
  ghost predicate RoomAt(p: Plan, s: Shared, op: Op, x: Name, r: Resource)
    requires Fitting(p, s)
  {
    Window(s) ==>
      && (x == p.to ==> Increase(p, s, op, r) <= RealFree(p, s, p.to, r))
      && (x == p.OldParent() ==> IncreaseAbove(p, s, op, r) <= RealFree(p, s, p.OldParent(), r))
  }

  ghost predicate LeavesRoom(p: Plan, s: Shared, op: Op)
    requires Fitting(p, s)
  {
    forall r :: r in p.observed ==> RoomAt(p, s, op, p.to, r) && RoomAt(p, s, op, p.OldParent(), r)
  }

  // ---------- writes by others keep the state fitting ----------

  lemma CreateFitting(p: Plan, s: Shared, op: Op)
    requires Fitting(p, s) && op.Create? && Admitted(p, s, op)
    ensures Fitting(p, Outside(s, op))
  {
    hide IsTree, Path, Under, Sum, Free, ParentHasRoom;
    CreateValid(s.world, p.observed, op.name, op.under, op.hard);
    AttachUnder(s.world.tree, op.name, op.under, p.n, p.to);
    AddLeafPaths(s.world.tree, op.name, op.under);
  }

  lemma UpdateFitting(p: Plan, s: Shared, op: Op)
    requires Fitting(p, s) && op.Update? && Admitted(p, s, op)
    ensures Fitting(p, Outside(s, op))
  {
    hide IsTree, Path, Under, Sum, Free, HolderHasRoom, RealFree;
    PathStep(s.world.tree, op.name);
    WriteValid(s.world, p.observed, op.name, op.hard);
  }

  lemma DeleteFitting(p: Plan, s: Shared, op: Op)
    requires Fitting(p, s) && op.Delete? && Admitted(p, s, op)
    ensures Fitting(p, Outside(s, op))
  {
    hide IsTree, Path, Under, Sum, Free;
    DeleteValid(s.world, p.observed, op.name);
    RemoveLeafPaths(s.world.tree, op.name);
    RemoveUnder(s.world.tree, op.name, p.n, p.to);
    assert s.world.tree.parent[p.n] != op.name by {
      assert p.n in s.world.tree.Children(s.world.tree.parent[p.n]);
    }
  }

  lemma OutsideFitting(p: Plan, s: Shared, op: Op)
    requires Fitting(p, s) && Admitted(p, s, op)
    ensures Fitting(p, Outside(s, op))
  {
    hide Fitting, Admitted, Outside, Uniform, Valid, IsTree;
    match op
    case Create(_, _, _) => CreateFitting(p, s, op);
    case Update(_, _, _) => UpdateFitting(p, s, op);
    case Delete(_) => DeleteFitting(p, s, op);
  }

  // ---------- what a write by others does to free quota ----------

  lemma ToIsNotTheRoot(p: Plan, s: Shared)
    requires Fitting(p, s)
    ensures p.to != s.world.tree.root && p.n != s.world.tree.root
    ensures !s.relabelled ==> p.n != p.to
  {
    hide IsTree, Path, Under;
    PathStep(s.world.tree, p.to);
    PathStep(s.world.tree, p.n);
    UnderSelf(s.world.tree, p.n);
  }

  lemma CreateReal(p: Plan, s: Shared, op: Op, x: Name, r: Resource)
    requires Fitting(p, s) && op.Create? && Admitted(p, s, op) && Fitting(p, Outside(s, op)) && x in Outside(s, op).world.quota
    ensures RealFree(p, Outside(s, op), x, r) ==
            if x == op.name then Get(op.hard, r) else RealFree(p, s, x, r) - When(x == op.under, Get(op.hard, r))
  {
    hide IsTree, Path, Under, Sum, Free, ParentHasRoom, Fitting, Uniform, ParamsGiven, Valid;
    CreateFree(s.world, op.name, op.under, op.hard, x, r);
  }

  lemma UpdateReal(p: Plan, s: Shared, op: Op, x: Name, r: Resource)
    requires Fitting(p, s) && op.Update? && Admitted(p, s, op) && Fitting(p, Outside(s, op)) && x in s.world.quota
    ensures op.name in s.world.quota && op.name in s.world.tree.parent
    ensures var delta := Get(op.hard, r) - Get(s.world.quota[op.name], r);
            RealFree(p, Outside(s, op), x, r) ==
            RealFree(p, s, x, r) + When(x == op.name, delta) - When(x == s.world.tree.parent[op.name], delta)
            + (if op.name == p.n
               then When(x == p.OldParent() && s.sns == NewOnly && !s.relabelled, delta) - When(x == p.to && Window(s), delta)
               else 0)
  {
    hide IsTree, Path, Under, Sum, Free, AdmitsShared, Fitting, Uniform, Valid;
    PathStep(s.world.tree, op.name);
    WriteFree(s.world, op.name, op.hard, x, r);
  }

  lemma DeleteReal(p: Plan, s: Shared, op: Op, x: Name, r: Resource)
    requires Fitting(p, s) && op.Delete? && Admitted(p, s, op) && Fitting(p, Outside(s, op)) && x in s.world.quota && x != op.name
    ensures op.name in s.world.quota
    ensures RealFree(p, Outside(s, op), x, r) ==
            RealFree(p, s, x, r) + When(x == s.world.tree.parent[op.name], Get(s.world.quota[op.name], r))
  {
    hide IsTree, Path, Under, Sum, Free, Fitting, Uniform, Valid;
    DeleteFree(s.world, op.name, x, r);
  }

  /** Away from the window's new parent, the labels never show more room than there is. */
  lemma LabelsAreCautious(p: Plan, s: Shared, x: Name, r: Resource)
    requires Fitting(p, s) && Solvent(p, s) && x in s.world.quota && r in p.observed && !(x == p.to && Window(s))
    ensures RealFree(p, s, x, r) >= Free(s.world, x, r)
  {
    hide IsTree, Path, Under, Free;
    ToIsNotTheRoot(p, s);
  }

  /** What the create check guarantees at the new namespace and its parent. */
  lemma CreateGuards(p: Plan, s: Shared, op: Op, r: Resource)
    requires Fitting(p, s) && op.Create? && Admitted(p, s, op) && r in p.observed
    ensures op.under in s.world.quota && op.name !in s.world.quota && Get(op.hard, r) >= 0
    ensures Free(s.world, op.under, r) - Get(op.hard, r) >= 0
    ensures Outside(s, op).world.quota.Keys == s.world.quota.Keys + {op.name}
    ensures Outside(s, op).world.tree.root == s.world.tree.root != op.name
    ensures Outside(s, op).owed == if op.under == s.world.tree.root then map[] else s.owed
  {
    hide IsTree, Path, Under, Sum, Free, Fitting;
  }

  lemma SolventMeans(p: Plan, s: Shared, x: Name, r: Resource)
    requires Fitting(p, s) && x in s.world.quota
    ensures SolventAt(p, s, x, r) <==> RealFree(p, s, x, r) >= if x == s.world.tree.root then -Get(s.owed, r) else 0
  {
    hide Fitting, RealFree, Uniform, Valid, IsTree;
  }

  /** Of the writes that are not updates of the migrated namespace, only the new parent needs watching. */
  lemma RoomMeans(p: Plan, s: Shared, op: Op, x: Name, r: Resource)
    requires Fitting(p, s) && Solvent(p, s) && r in p.observed && !(op.Update? && op.name == p.n)
    ensures RoomAt(p, s, op, x, r) <==> (x == p.to && Window(s) ==> Increase(p, s, op, r) <= RealFree(p, s, p.to, r))
  {
    hide Fitting, RealFree, Solvent, Increase, Uniform, Valid, IsTree;
    if Window(s) {
      ParentsSolvent(p, s, r);
    }
  }

  lemma CreateSolventAt(p: Plan, s: Shared, op: Op, x: Name, r: Resource)
    requires Fitting(p, s) && Solvent(p, s) && op.Create? && Admitted(p, s, op) && Fitting(p, Outside(s, op))
    requires x in Outside(s, op).world.quota && r in p.observed
    ensures SolventAt(p, Outside(s, op), x, r) <==> RoomAt(p, s, op, x, r)
  {
    hide IsTree, Path, Under, Sum, Free, RealFree, Fitting, Solvent, Admitted, Tree.Nodes, Outside, SolventAt, RoomAt, Uniform,
         Valid;
    CreateReal(p, s, op, x, r);
    CreateGuards(p, s, op, r);
    ToIsNotTheRoot(p, s);
    RoomMeans(p, s, op, x, r);
    if x != op.name {
      AtSolvent(p, s, x, r);
      if !(x == p.to && Window(s)) {
        LabelsAreCautious(p, s, x, r);
      }
    }
    SolventMeans(p, Outside(s, op), x, r);
    if x in s.world.quota {
      SolventMeans(p, s, x, r);
    }
  }

  /** What the update check guarantees at the written namespace. */
  lemma OwnGuards(p: Plan, s: Shared, op: Op, r: Resource)
    requires Fitting(p, s) && op.Update? && Admitted(p, s, op) && r in p.observed
    ensures op.name in s.world.quota && op.name in s.world.tree.parent && s.world.tree.parent[op.name] in s.world.quota
    ensures op.name != s.world.tree.root && op.name != s.world.tree.parent[op.name]
    ensures Get(op.hard, r) >= 0
    ensures RealFree(p, s, op.name, r) + Get(op.hard, r) - Get(s.world.quota[op.name], r) >= 0
  {
    hide IsTree, Path, Under, Sum, Free, RealFree, Fitting, HolderHasRoom, Holders, Uniform, Valid;
    PathStep(s.world.tree, op.name);
    ChildSubtree(s.world.tree, op.name);
  }

  /** And, where labels and objects agree about it, at its parent. */
  lemma ParentGuards(p: Plan, s: Shared, op: Op, r: Resource)
    requires Fitting(p, s) && op.Update? && Admitted(p, s, op) && r in p.observed && !(op.name == p.n && Window(s))
    ensures op.name in s.world.quota && op.name in s.world.tree.parent && s.world.tree.parent[op.name] in s.world.quota
    ensures Free(s.world, s.world.tree.parent[op.name], r) - (Get(op.hard, r) - Get(s.world.quota[op.name], r)) >= 0
  {
    hide IsTree, Path, Under, Sum, Free, RealFree, Fitting, Uniform, Valid;
    PathStep(s.world.tree, op.name);
  }

  /** An update of any other namespace, or of the migrated one outside the window. */
  lemma UpdateSolventAt(p: Plan, s: Shared, op: Op, x: Name, r: Resource)
    requires Fitting(p, s) && Solvent(p, s) && op.Update? && Admitted(p, s, op) && Fitting(p, Outside(s, op))
    requires x in s.world.quota && r in p.observed && !(op.name == p.n && Window(s))
    ensures SolventAt(p, Outside(s, op), x, r) <==> RoomAt(p, s, op, x, r)
  {
    hide IsTree, Path, Under, Sum, Free, RealFree, AdmitsShared, Solvent, Uniform, Tree.Nodes, Held;
    UpdateReal(p, s, op, x, r);
    OwnGuards(p, s, op, r);
    ParentGuards(p, s, op, r);
    ToIsNotTheRoot(p, s);
    AtSolvent(p, s, x, r);
    if !(x == p.to && Window(s)) {
      LabelsAreCautious(p, s, x, r);
    }
  }

  /** An update of the migrated namespace in the window: nothing but its own children is checked for both
      parents. */
  lemma MigratedSolventAt(p: Plan, s: Shared, op: Op, x: Name, r: Resource)
    requires Fitting(p, s) && Solvent(p, s) && op.Update? && Admitted(p, s, op) && Fitting(p, Outside(s, op))
    requires x in s.world.quota && r in p.observed && op.name == p.n && Window(s)
    ensures SolventAt(p, Outside(s, op), x, r) <==> RoomAt(p, s, op, x, r)
  {
    hide IsTree, Path, Under, Sum, Free, RealFree, AdmitsShared, Solvent, Uniform, Tree.Nodes, Held;
    UpdateReal(p, s, op, x, r);
    OwnGuards(p, s, op, r);
    ToIsNotTheRoot(p, s);
    AtSolvent(p, s, x, r);
  }

  lemma AtSolvent(p: Plan, s: Shared, x: Name, r: Resource)
    requires Fitting(p, s) && Solvent(p, s) && x in s.world.quota && r in p.observed
    ensures SolventAt(p, s, x, r)
  {
    hide RealFree, Fitting, SolventAt, QuotasOk, Uniform, Valid, IsTree;
  }

  lemma LeafQuota(p: Plan, s: Shared, op: Op, r: Resource)
    requires Fitting(p, s) && Solvent(p, s) && op.Delete? && Admitted(p, s, op) && r in p.observed
    ensures op.name in s.world.quota && Get(s.world.quota[op.name], r) >= 0
  {
    hide IsTree, Path, Under, Sum, SolventAt, Fitting, Get, Uniform, Valid;
    PathStep(s.world.tree, op.name);
  }

  lemma DeleteSolventAt(p: Plan, s: Shared, op: Op, x: Name, r: Resource)
    requires Fitting(p, s) && Solvent(p, s) && op.Delete? && Admitted(p, s, op) && Fitting(p, Outside(s, op))
    requires x in s.world.quota && x != op.name && r in p.observed
    ensures SolventAt(p, Outside(s, op), x, r) && RoomAt(p, s, op, x, r)
  {
    hide IsTree, Path, Under, Sum, Free, RealFree, Fitting, Solvent, RoomAt, Uniform, Valid;
    DeleteReal(p, s, op, x, r);
    AtSolvent(p, s, x, r);
    ToIsNotTheRoot(p, s);
    LeafQuota(p, s, op, r);
    RoomMeans(p, s, op, x, r);
  }

  // ---------- the exact condition ----------

  lemma OutsideSolventAt(p: Plan, s: Shared, op: Op, x: Name, r: Resource)
    requires Fitting(p, s) && Solvent(p, s) && Admitted(p, s, op) && Fitting(p, Outside(s, op))
    requires x in Outside(s, op).world.quota && r in p.observed
    ensures SolventAt(p, Outside(s, op), x, r) <==> RoomAt(p, s, op, x, r)
  {
    hide Fitting, Solvent, Admitted, SolventAt, RoomAt, Window, Created, Uniform, Valid, IsTree;
    match op
    case Create(_, _, _) => CreateSolventAt(p, s, op, x, r);
    case Update(m, _, _) =>
      InWorld(p, s, op);
      if m == p.n && Window(s) {
        MigratedSolventAt(p, s, op, x, r);
      } else {
        UpdateSolventAt(p, s, op, x, r);
      }
    case Delete(_) => DeleteSolventAt(p, s, op, x, r);
  }

  lemma InWorld(p: Plan, s: Shared, op: Op)
    requires Fitting(p, s) && Admitted(p, s, op) && !op.Create?
    ensures op.name in s.world.quota
  {
    hide IsTree, Under, AdmitsShared, Path;
    PathStep(s.world.tree, op.name);
  }

  lemma OutsideQuotas(p: Plan, s: Shared, op: Op)
    requires Fitting(p, s) && QuotasOk(s.world, p.observed) && Admitted(p, s, op)
    ensures QuotasOk(Outside(s, op).world, p.observed)
  {
    hide IsTree, Under, Path, Free, RealFree, Fitting, ParentHasRoom, HolderHasRoom, Holders, Get, Valid, Uniform, CoversUsage;
    var s' := Outside(s, op);
    forall x, r | x in s'.world.quota && r in p.observed && x != s'.world.tree.root ensures Get(s'.world.quota[x], r) >= 0 {
      if op.Delete? || x != op.name {
        assert s'.world.quota[x] == s.world.quota[x];
      } else {
        GivenOk(p.observed, op.hard, r);
      }
    }
  }

  lemma GivenOk(observed: set<Resource>, l: ResourceList, r: Resource)
    requires ParamsGiven(observed, l) && r in observed
    ensures Get(l, r) >= 0
  {
  }

  /** An admitted write by others keeps everybody but the root from being overdrawn if and only if, in the
      window, it leaves room for the migrated namespace under both its parents. */
  lemma OutsideSolventIff(p: Plan, s: Shared, op: Op)
    requires Fitting(p, s) && Solvent(p, s) && Admitted(p, s, op)
    ensures Fitting(p, Outside(s, op))
    ensures Solvent(p, Outside(s, op)) <==> LeavesRoom(p, s, op)
  {
    hide Fitting, Admitted, RoomAt, Outside, IsTree, SolventAt, Solvent, LeavesRoom, Uniform, Valid;
    OutsideFitting(p, s, op);
    var s' := Outside(s, op);
    forall x, r | x in s'.world.quota && r in p.observed
      ensures SolventAt(p, s', x, r) <==> RoomAt(p, s, op, x, r)
    {
      OutsideSolventAt(p, s, op, x, r);
    }
    ParentsStay(p, s, op);
    RoomEverywhereIff(p, s, op, s'.world.quota.Keys);
    SolventAfterIff(p, s, op);
  }

  lemma RoomEverywhereIff(p: Plan, s: Shared, op: Op, names: set<Name>)
    requires Fitting(p, s) && p.to in names && (!s.relabelled ==> p.OldParent() in names)
    ensures LeavesRoom(p, s, op) <==> forall x, r :: x in names && r in p.observed ==> RoomAt(p, s, op, x, r)
  {
    hide Fitting, RoomAt, Uniform, Valid, IsTree;
    RoomElsewhere(p, s, op);
  }

  lemma RoomElsewhere(p: Plan, s: Shared, op: Op)
    requires Fitting(p, s)
    ensures forall x, r :: s.relabelled || (x != p.to && x != p.OldParent()) ==> RoomAt(p, s, op, x, r)
  {
    hide Fitting, Uniform, Valid, IsTree;
  }

  lemma SolventAfterIff(p: Plan, s: Shared, op: Op)
    requires Fitting(p, s) && Solvent(p, s) && Admitted(p, s, op) && Fitting(p, Outside(s, op))
    ensures Solvent(p, Outside(s, op)) <==>
            forall x, r :: x in Outside(s, op).world.quota && r in p.observed ==> SolventAt(p, Outside(s, op), x, r)
  {
    hide Fitting, Admitted, RealFree, Outside, IsTree, SolventAt, QuotasOk, Uniform, Valid;
    OutsideQuotas(p, s, op);
  }

  lemma ParentsStay(p: Plan, s: Shared, op: Op)
    requires Fitting(p, Outside(s, op))
    ensures p.to in Outside(s, op).world.quota && (!s.relabelled ==> p.OldParent() in Outside(s, op).world.quota)
  {
    hide Fitting, Uniform, Valid, IsTree;
    assert Outside(s, op).relabelled == s.relabelled;
  }

  /** Nobody creates below the new parent or raises what is below it, the migrated namespace included. */
  ghost predicate NothingTaken(p: Plan, s: Shared, op: Op)
    requires Fitting(p, s)
  {
    forall r :: r in p.observed ==> Increase(p, s, op, r) <= 0
  }

  /** In the window both parents have no negative free quota. */
  lemma ParentsSolvent(p: Plan, s: Shared, r: Resource)
    requires Fitting(p, s) && Solvent(p, s) && r in p.observed && !s.relabelled
    ensures RealFree(p, s, p.to, r) >= 0 && RealFree(p, s, p.OldParent(), r) >= 0
  {
    hide Fitting, RealFree, QuotasOk, Uniform, Valid, IsTree;
    ToIsNotTheRoot(p, s);
    assert SolventAt(p, s, p.to, r) && SolventAt(p, s, p.OldParent(), r);
  }

  lemma NothingTakenLeavesRoom(p: Plan, s: Shared, op: Op)
    requires Fitting(p, s) && Solvent(p, s) && NothingTaken(p, s, op)
    ensures LeavesRoom(p, s, op)
  {
    hide Fitting, RealFree, Solvent, Uniform, Valid, IsTree;
    if Window(s) {
      forall r | r in p.observed ensures RoomAt(p, s, op, p.to, r) && RoomAt(p, s, op, p.OldParent(), r) {
        ParentsSolvent(p, s, r);
      }
    }
  }

  /** The condition is needed in every window: a create under the new parent that asks for all that the labels
      show as free is admitted, and overdraws the new parent by exactly the migrated quota. */
  lemma WindowOverdraws(p: Plan, s: Shared, m: Name, r: Resource)
    requires Fitting(p, s) && Solvent(p, s) && Window(s) && m !in s.world.tree.Nodes() && r in p.observed
    ensures var op := Create(m, p.to, map q | q in p.observed :: Free(s.world, p.to, q));
            && Admitted(p, s, op) && Fitting(p, Outside(s, op)) && p.to in Outside(s, op).world.quota
            && RealFree(p, Outside(s, op), p.to, r) == -Held(p, s, r)
  {
    hide IsTree, Path, Under, Sum, Free, Uniform;
    ToIsNotTheRoot(p, s);
    var l := map q | q in p.observed :: Free(s.world, p.to, q);
    var op := Create(m, p.to, l);
    forall q | q in p.observed ensures l[q] >= 0 {
      AtSolvent(p, s, p.to, q);
    }
    UniformKeys(p, s);
    assert Admitted(p, s, op);
    OutsideFitting(p, s, op);
    CreateReal(p, s, op, p.to, r);
  }

  lemma UniformKeys(p: Plan, s: Shared)
    requires Fitting(p, s)
    ensures p.to in s.world.quota && s.world.quota[p.to].Keys == p.observed && p.to in s.world.tree.Nodes()
  {
    hide IsTree, Path, Under;
    PathStep(s.world.tree, p.to);
  }

  // ---------- the controller's own steps ----------

  lemma RootWriteFitting(p: Plan, s: Shared, s': Shared, amount: ResourceList)
    requires Fitting(p, s) && RootStep(p, s, s', amount)
    ensures Fitting(p, s')
  {
    hide IsTree, Path, Under, Sum, Free;
    var root := s.world.tree.root;
    var sign := if RaiseRoot(p, s, s', amount) then 1 else -1;
    WriteValid(s.world, p.observed, root, RootShifted(s.world.quota[root], amount, sign));
  }

  lemma RootWriteQuotas(w: World, l: ResourceList, observed: set<Resource>)
    requires QuotasOk(w, observed)
    ensures QuotasOk(Write(w, w.tree.root, l), observed)
  {
    hide Get;
  }

  lemma RootWriteKeeps(p: Plan, s: Shared, s': Shared, amount: ResourceList)
    requires Fitting(p, s) && Solvent(p, s) && RootStep(p, s, s', amount)
    ensures Fitting(p, s') && Solvent(p, s')
  {
    hide Fitting, SolventAt, RootShifted, QuotasOk, Uniform, Valid, IsTree;
    RootWriteFitting(p, s, s', amount);
    RootWriteQuotas(s.world, s'.world.quota[s.world.tree.root], p.observed);
    forall x, r | x in s'.world.quota && r in p.observed ensures SolventAt(p, s', x, r) {
      RootWriteAt(p, s, s', amount, x, r);
    }
  }

  lemma QuotasNonNegative(p: Plan, s: Shared)
    requires Fitting(p, s) && Solvent(p, s)
    ensures forall x, r :: x in s.world.quota && r in p.observed && x != s.world.tree.root ==> Get(s.world.quota[x], r) >= 0
  {
    hide Fitting, SolventAt, Uniform, Valid, IsTree;
  }

  lemma RootWriteAt(p: Plan, s: Shared, s': Shared, amount: ResourceList, x: Name, r: Resource)
    requires Fitting(p, s) && Solvent(p, s) && RootStep(p, s, s', amount) && Fitting(p, s')
    requires x in s.world.quota && r in p.observed
    ensures SolventAt(p, s', x, r)
  {
    hide IsTree, Path, Under, Sum, Free, Solvent, Uniform;
    var root := s.world.tree.root;
    AtSolvent(p, s, x, r);
    ToIsNotTheRoot(p, s);
    QuotasNonNegative(p, s);
    RootWriteFree(s.world, s'.world.quota[root], x, r);
  }

  lemma ObjectStepFitting(p: Plan, s: Shared, s': Shared)
    requires Fitting(p, s) && (CreateNew(p, s, s') || DeleteOld(s, s') || RollBack(s, s'))
    ensures Fitting(p, s')
  {
    hide IsTree, Path, Under, Sum, Free, ParentHasRoom;
  }

  lemma ObjectStepKeeps(p: Plan, s: Shared, s': Shared)
    requires Fitting(p, s) && Solvent(p, s) && (CreateNew(p, s, s') || DeleteOld(s, s') || RollBack(s, s'))
    ensures Fitting(p, s') && Solvent(p, s')
  {
    hide Fitting, SolventAt, ParentHasRoom, Uniform, Valid, IsTree;
    ObjectStepFitting(p, s, s');
    assert s'.world == s.world;
    forall x, r | x in s'.world.quota && r in p.observed ensures SolventAt(p, s', x, r) {
      ObjectStepAt(p, s, s', x, r);
    }
  }

  lemma ObjectStepAt(p: Plan, s: Shared, s': Shared, x: Name, r: Resource)
    requires Fitting(p, s) && Solvent(p, s) && (CreateNew(p, s, s') || DeleteOld(s, s') || RollBack(s, s')) && Fitting(p, s')
    requires x in s.world.quota && r in p.observed
    ensures SolventAt(p, s', x, r)
  {
    hide IsTree, Path, Under, Sum, Free, Solvent;
    AtSolvent(p, s, x, r);
    ToIsNotTheRoot(p, s);
    QuotasNonNegative(p, s);
    UniformKeys(p, s);
  }

  lemma RelabelFitting(p: Plan, s: Shared, s': Shared)
    requires Fitting(p, s) && Relabel(p, s, s')
    ensures Fitting(p, s')
  {
    hide IsTree, Path, Under, Sum, Free;
    PathStep(s.world.tree, p.to);
    ReparentIsTree(s.world.tree, p.n, p.to);
  }

  lemma RelabelKeeps(p: Plan, s: Shared, s': Shared)
    requires Fitting(p, s) && Solvent(p, s) && Relabel(p, s, s')
    ensures Fitting(p, s') && Solvent(p, s')
  {
    hide Fitting, SolventAt, Uniform, Valid, IsTree;
    RelabelFitting(p, s, s');
    forall x, r | x in s'.world.quota && r in p.observed ensures SolventAt(p, s', x, r) {
      RelabelAt(p, s, s', x, r);
    }
  }

  /** The relabelling changes no free quota as the Subnamespace objects leave it. */
  lemma RelabelAt(p: Plan, s: Shared, s': Shared, x: Name, r: Resource)
    requires Fitting(p, s) && Solvent(p, s) && Relabel(p, s, s') && Fitting(p, s') && x in s.world.quota && r in p.observed
    ensures SolventAt(p, s', x, r)
  {
    hide IsTree, Path, Under, Sum, Free, Solvent, Uniform;
    AtSolvent(p, s, x, r);
    MoveFree(s.world, p.n, p.to, x, r);
  }

  // ---------- runs ----------

  /** A step of the controller, or a write by anybody that leaves room in the window. */
  ghost predicate SharedStep(p: Plan, s: Shared, s': Shared)
    requires Fitting(p, s)
  {
    ControllerStep(p, s, s') || exists op :: Admitted(p, s, op) && LeavesRoom(p, s, op) && s' == Outside(s, op)
  }

  ghost predicate SharedRun(p: Plan, tr: seq<Shared>) {
    && |tr| > 0
    && forall i :: 0 <= i < |tr| - 1 && Fitting(p, tr[i]) ==> SharedStep(p, tr[i], tr[i + 1])
  }

  lemma StepKeepsSolvent(p: Plan, s: Shared, s': Shared)
    requires Fitting(p, s) && Solvent(p, s) && SharedStep(p, s, s')
    ensures Fitting(p, s') && Solvent(p, s')
  {
    hide Fitting, Solvent, Admitted, LeavesRoom, Outside, CreateNew, DeleteOld, RollBack, Relabel, RootStep, Uniform, Valid,
         IsTree;
    if amount :| RootStep(p, s, s', amount) {
      RootWriteKeeps(p, s, s', amount);
    } else if CreateNew(p, s, s') || DeleteOld(s, s') || RollBack(s, s') {
      ObjectStepKeeps(p, s, s');
    } else if Relabel(p, s, s') {
      RelabelKeeps(p, s, s');
    } else {
      var op :| Admitted(p, s, op) && LeavesRoom(p, s, op) && s' == Outside(s, op);
      OutsideSolventIff(p, s, op);
    }
  }

  lemma BeginSolvent(p: Plan)
    requires p.Valid() && p.OldParent() != p.to
    ensures Fitting(p, Begin(p)) && Solvent(p, Begin(p))
  {
    hide IsTree, Path, Under, Free, Sum;
    PathStep(p.tree, p.n);
    PathStep(p.tree, p.to);
  }

  /** Over every run of a migration among other admitted writes that leave room in its window, nobody but
      the root is ever overdrawn, and the root only by what it was lowered by, until something is written
      below it. */
  lemma {:induction false} AlwaysSolvent(p: Plan, tr: seq<Shared>, k: nat)
    requires p.Valid() && p.OldParent() != p.to && SharedRun(p, tr) && tr[0] == Begin(p) && k < |tr|
    ensures Fitting(p, tr[k]) && Solvent(p, tr[k])
  {
    hide Fitting, Solvent, SharedStep, Begin, Plan.Valid, Uniform, Valid, IsTree;
    if k == 0 {
      BeginSolvent(p);
    } else {
      AlwaysSolvent(p, tr, k - 1);
      StepKeepsSolvent(p, tr[k - 1], tr[k]);
    }
  }
}
