/** The books of a migration among other writers: at every moment the free quota of a namespace is what it
    was at the start, plus what the writes of others changed there, plus where the migration stands.  A
    finished migration drops out of the books.
 */
module SharedLedger {
  import opened Hierarchy
  import opened Moves
  import opened Resources
  import opened Quota
  import opened Admission
  import opened UpdateQuota
  import opened Migration
  import opened SharedMigration

  /** Who made a step: the migration controller, one of the two UpdateQuotas, or somebody else. */
  datatype Act = Own | There | Back | Foreign(op: Op)

  /** A state together with how many writes the two UpdateQuotas have made. */
  datatype Position = Position(at: Shared, gone: nat, back: nat)

  // ---------- the books ----------

  /** What a write changes at `x`: the written namespace gains what its parent gives. */
  ghost function Effect(s: Shared, op: Op, x: Name, r: Resource): int {
    match op
    case Create(_, c, l) => -When(x == c, Get(l, r))
    case Update(m, l, _) =>
      if m in s.world.tree.parent && m in s.world.quota
      then var delta := Get(l, r) - Get(s.world.quota[m], r); When(x == m, delta) - When(x == s.world.tree.parent[m], delta)
      else 0
    case Delete(m) =>
      if m in s.world.tree.parent && m in s.world.quota
      then When(x == s.world.tree.parent[m], Get(s.world.quota[m], r))
      else 0
  }

  /** What the first `k` steps changed at `x` by the hands of others. */
  ghost function ByOthers(tr: seq<Position>, acts: seq<Act>, k: nat, x: Name, r: Resource): int
    requires k <= |acts| && |tr| == |acts| + 1
  {
    if k == 0 then 0 else ByOthers(tr, acts, k - 1, x, r) + Share(tr[k - 1].at, acts[k - 1], x, r)
  }

  /** What the step changes at `x` if somebody else makes it. */
  ghost function Share(s: Shared, act: Act, x: Name, r: Resource): int {
    if act.Foreign? then Effect(s, act.op, x, r) else 0
  }

  /** Where the migration stands at `x`. */
  ghost function Standing(p: Plan, pos: Position, x: Name, r: Resource): int
    requires p.Valid() && pos.gone <= p.There().Length() && pos.back <= p.Back().Length()
  {
    var a, s := Get(p.Amount(), r), pos.at;
    When(x == p.tree.root && s.raised, a) - When(x == p.tree.root && s.lowered, a)
    + When(x == p.OldParent() && s.sns == NewOnly, a) - When(x == p.to && s.sns != OldOnly, a)
    - When(x == p.There().Stop(0), a) + When(x == p.There().Stop(pos.gone), a)
    - When(x == p.Back().Stop(0), a) + When(x == p.Back().Stop(pos.back), a)
  }

  // ---------- steps ----------

  /** Write `i` of an UpdateQuota. */
  ghost function RouteWrite(p: Plan, s: Shared, route: Route, i: nat, used: ResourceList): Op
    requires i < route.Length() && route.Written(i) in s.world.quota && p.n in p.start
  {
    Update(route.Written(i), Shifted(s.world.quota[route.Written(i)], p.Amount(), route.Sign(i)), used)
  }

  ghost predicate RouteStep(p: Plan, s: Shared, s': Shared, route: Route, i: nat)
    requires Fitting(p, s) && p.n in p.start
  {
    && i < route.Length() && route.Written(i) in s.world.quota
    && exists used :: SharedMigration.Admitted(p, s, RouteWrite(p, s, route, i, used)) && s' == Outside(s, RouteWrite(p, s, route, i, used))
  }

  ghost predicate OwnStep(p: Plan, s: Shared, s': Shared)
    requires Fitting(p, s) && p.n in p.start
  {
    || SharedMigration.RootStep(p, s, s', p.Amount())
    || SharedMigration.CreateNew(p, s, s') || SharedMigration.DeleteOld(s, s') || SharedMigration.RollBack(s, s') || SharedMigration.Relabel(p, s, s')
  }

  /** Others leave the migrated namespace alone and do not delete a stop of the second UpdateQuota. */
  ghost predicate ForeignStep(p: Plan, s: Shared, s': Shared, op: Op)
    requires p.Valid() && Fitting(p, s)
  {
    && op.name != p.n && (op.Delete? ==> op.name !in p.Back().up)
    && SharedMigration.Admitted(p, s, op) && s' == Outside(s, op)
  }

  ghost predicate BookedStep(p: Plan, pos: Position, act: Act, pos': Position)
    requires p.Valid() && Fitting(p, pos.at)
  {
    match act
    case Own => OwnStep(p, pos.at, pos'.at) && pos'.gone == pos.gone && pos'.back == pos.back
    case There => RouteStep(p, pos.at, pos'.at, p.There(), pos.gone) && pos'.gone == pos.gone + 1 && pos'.back == pos.back
    case Back => RouteStep(p, pos.at, pos'.at, p.Back(), pos.back) && pos'.gone == pos.gone && pos'.back == pos.back + 1
    case Foreign(op) => ForeignStep(p, pos.at, pos'.at, op) && pos'.gone == pos.gone && pos'.back == pos.back
  }

  ghost predicate BookedRun(p: Plan, tr: seq<Position>, acts: seq<Act>)
    requires p.Valid()
    ensures BookedRun(p, tr, acts) ==> |tr| == |acts| + 1
  {
    && |tr| == |acts| + 1
    && forall i :: 0 <= i < |acts| && Fitting(p, tr[i].at) ==> BookedStep(p, tr[i], acts[i], tr[i + 1])
  }

  // ---------- what stays in place ----------

  /** The migrated quota is untouched and the links of the two routes are the original ones. */
  ghost predicate InPlace(p: Plan, s: Shared)
    requires p.Valid() && Fitting(p, s)
  {
    && s.world.quota[p.n] == p.Amount() && s.world.tree.root == p.tree.root
    && forall m :: m in p.There().down || m in p.Back().up ==> LinkKept(p, s, m)
  }

  ghost predicate LinkKept(p: Plan, s: Shared, m: Name) {
    m in p.tree.parent && m in s.world.tree.parent && s.world.tree.parent[m] == p.tree.parent[m]
  }

  lemma BeginInPlace(p: Plan)
    requires p.Valid() && Fitting(p, Begin(p))
    ensures InPlace(p, Begin(p))
  {
    hide IsTree, Path, Under, Free, Sum, Fitting, Uniform, Sound, Quota.Valid;
    RoutesOnTree(p);
  }

  /** Namespaces on the way to the destination have a child there and are not deleted. */
  lemma WayStays(p: Plan, s: Shared, m: Name)
    requires p.Valid() && Fitting(p, s) && InPlace(p, s) && m in p.There().down && m != p.to
    ensures s.world.tree.Children(m) != {}
  {
    hide IsTree, Under, Free, Sum, Fitting, Uniform, Sound, Quota.Valid;
    var path := Path(p.tree, p.to);
    PathStep(p.tree, p.to);
    PathShape(p.tree, p.to);
    var i :| 0 <= i < |path[1..]| && path[1..][i] == m;
    PathEdge(p.tree, p.to, i + 1);
    var c := path[i + 2];
    assert path[1..][i + 1] == c;
    assert LinkKept(p, s, c);
    assert c in s.world.tree.Children(m);
  }

  lemma WriteInPlace(p: Plan, s: Shared, op: Op)
    requires p.Valid() && Fitting(p, s) && InPlace(p, s) && SharedMigration.Admitted(p, s, op) && op.name != p.n
    requires op.Delete? ==> op.name !in p.Back().up
    requires Fitting(p, Outside(s, op))
    ensures InPlace(p, Outside(s, op))
  {
    hide IsTree, Path, Under, Free, Sum, Fitting, Uniform, Sound, Plan.Valid, AdmitsShared, Plan.There, Plan.Back,
         ParentHasRoom, Quota.Valid;
    var s' := Outside(s, op);
    forall m | m in p.There().down || m in p.Back().up ensures LinkKept(p, s', m) {
      assert LinkKept(p, s, m);
      if op.Delete? && m == op.name {
        WayStays(p, s, m);
        assert false;
      }
    }
  }

  /** A change of the world that leaves the migrated quota and every link but the migrated one. */
  ghost predicate Spares(n: Name, w: World, w': World) {
    && w'.tree.root == w.tree.root && w'.quota.Keys == w.quota.Keys
    && (n in w.quota && n in w'.quota ==> w'.quota[n] == w.quota[n])
    && forall m :: m in w.tree.parent && m != n ==> m in w'.tree.parent && w'.tree.parent[m] == w.tree.parent[m]
  }

  lemma RootWriteSpares(n: Name, w: World, l: ResourceList)
    requires n != w.tree.root && w.tree.root in w.quota
    ensures Spares(n, w, Write(w, w.tree.root, l))
  {
  }

  lemma MoveSpares(n: Name, w: World, to: Name)
    requires n in w.tree.parent
    ensures Spares(n, w, w.(tree := Attach(w.tree, n, to)))
  {
  }

  lemma OwnSpares(p: Plan, s: Shared, s': Shared)
    requires Fitting(p, s) && p.n in p.start && OwnStep(p, s, s')
    ensures Spares(p.n, s.world, s'.world)
  {
    hide Fitting, ParentHasRoom, RootShifted, Spares, ParamsGiven, Uniform, Quota.Valid, IsTree;
    if SharedMigration.RootStep(p, s, s', p.Amount()) {
      ToIsNotTheRoot(p, s);
      RootWriteSpares(p.n, s.world, s'.world.quota[s.world.tree.root]);
    } else if SharedMigration.Relabel(p, s, s') {
      MoveSpares(p.n, s.world, p.to);
    } else {
      assert s'.world == s.world;
      SparesSelf(p.n, s.world);
    }
  }

  lemma SparesSelf(n: Name, w: World)
    ensures Spares(n, w, w)
  {
  }

  lemma OwnInPlace(p: Plan, s: Shared, s': Shared)
    requires p.Valid() && Fitting(p, s) && InPlace(p, s) && OwnStep(p, s, s') && Fitting(p, s')
    ensures InPlace(p, s')
  {
    hide Fitting, Plan.Valid, Plan.There, Plan.Back, OwnStep, Uniform, Quota.Valid, IsTree;
    OwnSpares(p, s, s');
    forall m | m in p.There().down || m in p.Back().up ensures LinkKept(p, s', m) {
      assert LinkKept(p, s, m);
      OffTheRoutes(p, m);
    }
  }

  lemma OwnFitting(p: Plan, s: Shared, s': Shared)
    requires Fitting(p, s) && p.n in p.start && OwnStep(p, s, s')
    ensures Fitting(p, s')
  {
    hide Fitting, SharedMigration.RootStep, SharedMigration.CreateNew, SharedMigration.DeleteOld, SharedMigration.RollBack,
         SharedMigration.Relabel, Uniform, Quota.Valid, IsTree;
    if SharedMigration.RootStep(p, s, s', p.Amount()) {
      RootWriteFitting(p, s, s', p.Amount());
    } else if SharedMigration.Relabel(p, s, s') {
      RelabelFitting(p, s, s');
    } else {
      ObjectStepFitting(p, s, s');
    }
  }

  lemma OffTheRoutes(p: Plan, m: Name)
    requires p.Valid() && (m in p.There().down || m in p.Back().up)
    ensures m != p.n
  {
    hide IsTree, Path, Under, Free, Sum, Uniform, Sound;
    WriteSparesMoved(p);
    if m in p.There().down {
      var i :| 0 <= i < |p.There().down| && p.There().down[i] == m;
      assert p.There().Written(i) == m;
    } else {
      var i :| 0 <= i < |p.Back().up| && p.Back().up[i] == m;
      assert p.Back().Written(i) == m;
    }
  }

  /** The state is well-formed, and the UpdateQuotas have made no more writes than there are. */
  ghost predicate Orderly(p: Plan, pos: Position)
    requires p.Valid()
    ensures Orderly(p, pos) ==> Fitting(p, pos.at) && pos.gone <= p.There().Length() && pos.back <= p.Back().Length()
  {
    Fitting(p, pos.at) && InPlace(p, pos.at) && pos.gone <= p.There().Length() && pos.back <= p.Back().Length()
  }

  /** The free quota of `x` without the migration. */
  ghost function Account(p: Plan, pos: Position, x: Name, r: Resource): int
    requires p.Valid() && Orderly(p, pos) && x in pos.at.world.quota
  {
    RealFree(p, pos.at, x, r) - Standing(p, pos, x, r)
  }

  // ---------- every step keeps the books ----------

  lemma ForeignBooks(p: Plan, s: Shared, op: Op, x: Name, r: Resource)
    requires Fitting(p, s) && SharedMigration.Admitted(p, s, op) && Fitting(p, Outside(s, op)) && op.name != p.n
    requires x in s.world.quota && x in Outside(s, op).world.quota
    ensures RealFree(p, Outside(s, op), x, r) == RealFree(p, s, x, r) + Effect(s, op, x, r)
  {
    hide Fitting, RealFree, AdmitsShared, AdmitsCreate, Created, Deleted, Uniform, Quota.Valid, IsTree;
    match op
    case Create(m, _, _) =>
      CreateReal(p, s, op, x, r);
      NewIsNew(p, s, op);
    case Update(_, _, _) =>
      UpdateReal(p, s, op, x, r);
    case Delete(m) =>
      GoneIsGone(s, op);
      DeleteReal(p, s, op, x, r);
  }

  lemma NewIsNew(p: Plan, s: Shared, op: Op)
    requires Fitting(p, s) && op.Create? && SharedMigration.Admitted(p, s, op)
    ensures op.name !in s.world.quota
  {
    hide Fitting, ParentHasRoom, Uniform, Quota.Valid, IsTree;
  }

  lemma GoneIsGone(s: Shared, op: Op)
    requires op.Delete?
    ensures op.name !in Outside(s, op).world.quota
  {
  }

  lemma RouteBooks(p: Plan, s: Shared, s': Shared, route: Route, i: nat, x: Name, r: Resource)
    requires p.Valid() && Fitting(p, s) && InPlace(p, s) && (route == p.There() || route == p.Back())
    requires RouteStep(p, s, s', route, i) && Fitting(p, s') && x in s.world.quota && x in s'.world.quota && r in p.observed
    ensures RealFree(p, s', x, r) ==
            RealFree(p, s, x, r) - When(x == route.Stop(i), Get(p.Amount(), r)) + When(x == route.Stop(i + 1), Get(p.Amount(), r))
  {
    hide Fitting, RealFree, SharedMigration.Admitted, Plan.Valid, Plan.There, Plan.Back, Outside, Uniform, Quota.Valid, IsTree;
    var used :| SharedMigration.Admitted(p, s, RouteWrite(p, s, route, i, used)) && s' == Outside(s, RouteWrite(p, s, route, i, used));
    var op := RouteWrite(p, s, route, i, used);
    RouteLink(p, s, route, i);
    UpdateReal(p, s, op, x, r);
    UniformAt(p, s, route.Written(i), r);
  }

  /** The link that a write of a route goes along. */
  lemma RouteLink(p: Plan, s: Shared, route: Route, i: nat)
    requires p.Valid() && Fitting(p, s) && InPlace(p, s) && (route == p.There() || route == p.Back()) && i < route.Length()
    ensures route.Written(i) != p.n && route.Written(i) in s.world.tree.parent
    ensures s.world.tree.parent[route.Written(i)] == if i < |route.up| then route.Stop(i + 1) else route.Stop(i)
    ensures route.Written(i) == if i < |route.up| then route.Stop(i) else route.Stop(i + 1)
  {
    hide IsTree, Path, Under, Fitting, Uniform, Sound, Quota.Valid;
    RoutesOnTree(p);
    assert route.Written(i) in p.There().down || route.Written(i) in p.Back().up;
    OffTheRoutes(p, route.Written(i));
    assert LinkKept(p, s, route.Written(i));
  }

  lemma UniformAt(p: Plan, s: Shared, m: Name, r: Resource)
    requires Fitting(p, s) && m in s.world.quota && r in p.observed
    ensures r in s.world.quota[m]
  {
    hide IsTree, Path, Under;
  }

  lemma RootShiftedGet(hard: ResourceList, amount: ResourceList, r: Resource)
    ensures Get(RootShifted(hard, amount, 1), r) == Get(hard, r) + Get(amount, r)
    ensures Get(RootShifted(hard, amount, -1), r) == Get(hard, r) - Get(amount, r)
  {
  }

  /** Raising and lowering change the root's free quota alone. */
  lemma RootReal(p: Plan, s: Shared, s': Shared, x: Name, r: Resource)
    requires Fitting(p, s) && p.n in p.start && SharedMigration.RootStep(p, s, s', p.Amount()) && Fitting(p, s')
    requires x in s.world.quota && x in s'.world.quota
    ensures RealFree(p, s', x, r) ==
            RealFree(p, s, x, r) + When(x == s.world.tree.root, if s'.raised == s.raised then -Get(p.Amount(), r) else Get(p.Amount(), r))
  {
    hide Fitting, IsTree, Sum, Free, Uniform, ParamsGiven, RootShifted, Quota.Valid;
    RootWriteFree(s.world, s'.world.quota[s.world.tree.root], x, r);
    RootShiftedGet(s.world.quota[s.world.tree.root], p.Amount(), r);
    ToIsNotTheRoot(p, s);
  }

  /** Both positions are orderly and have `x`, and the UpdateQuotas have not moved between them. */
  ghost predicate Between(p: Plan, pos: Position, pos': Position, x: Name)
    requires p.Valid()
    ensures Between(p, pos, pos', x) ==> Orderly(p, pos) && Orderly(p, pos') && x in pos.at.world.quota && x in pos'.at.world.quota
  {
    && Orderly(p, pos) && Orderly(p, pos') && x in pos.at.world.quota && x in pos'.at.world.quota
    && pos'.gone == pos.gone && pos'.back == pos.back
  }

  lemma RootBooks(p: Plan, pos: Position, pos': Position, x: Name, r: Resource)
    requires p.Valid() && Between(p, pos, pos', x) && SharedMigration.RootStep(p, pos.at, pos'.at, p.Amount())
    ensures Account(p, pos', x, r) == Account(p, pos, x, r)
  {
    hide Fitting, RealFree, Plan.Valid, Plan.There, Plan.Back, Route.Stop, ParamsGiven, RootShifted, InPlace, Write, Uniform,
         Quota.Valid, IsTree;
    RootReal(p, pos.at, pos'.at, x, r);
    RootIsRoot(p, pos.at);
  }

  lemma RootIsRoot(p: Plan, s: Shared)
    requires p.Valid() && Fitting(p, s) && InPlace(p, s)
    ensures s.world.tree.root == p.tree.root
  {
    hide Fitting, Plan.Valid, Plan.There, Plan.Back, Uniform, Quota.Valid, IsTree;
  }

  lemma ObjectBooks(p: Plan, pos: Position, pos': Position, x: Name, r: Resource)
    requires p.Valid() && Between(p, pos, pos', x)
    requires var s, s' := pos.at, pos'.at;
             SharedMigration.CreateNew(p, s, s') || SharedMigration.DeleteOld(s, s') || SharedMigration.RollBack(s, s')
    ensures Account(p, pos', x, r) == Account(p, pos, x, r)
  {
    hide IsTree, Path, Under, Sum, Free, Plan.Valid, Plan.There, Plan.Back, Uniform, Route.Stop, ParentHasRoom;
  }

  lemma RelabelBooks(p: Plan, pos: Position, pos': Position, x: Name, r: Resource)
    requires p.Valid() && Between(p, pos, pos', x) && SharedMigration.Relabel(p, pos.at, pos'.at)
    ensures Account(p, pos', x, r) == Account(p, pos, x, r)
  {
    hide IsTree, Path, Under, Sum, Free, Plan.Valid, Plan.There, Plan.Back, Uniform, Route.Stop;
    MoveFree(pos.at.world, p.n, p.to, x, r);
  }

  lemma OwnBooks(p: Plan, pos: Position, pos': Position, x: Name, r: Resource)
    requires p.Valid() && Between(p, pos, pos', x) && OwnStep(p, pos.at, pos'.at)
    ensures Account(p, pos', x, r) == Account(p, pos, x, r)
  {
    hide Fitting, Account, Orderly, Plan.Valid, SharedMigration.RootStep, SharedMigration.CreateNew, SharedMigration.DeleteOld,
         SharedMigration.RollBack, SharedMigration.Relabel, Between, Uniform, Quota.Valid, IsTree;
    if SharedMigration.RootStep(p, pos.at, pos'.at, p.Amount()) {
      RootBooks(p, pos, pos', x, r);
    } else if SharedMigration.Relabel(p, pos.at, pos'.at) {
      RelabelBooks(p, pos, pos', x, r);
    } else {
      ObjectBooks(p, pos, pos', x, r);
    }
  }

  lemma OthersBooks(p: Plan, pos: Position, pos': Position, op: Op, x: Name, r: Resource)
    requires p.Valid() && Between(p, pos, pos', x) && ForeignStep(p, pos.at, pos'.at, op)
    ensures Account(p, pos', x, r) == Account(p, pos, x, r) + Effect(pos.at, op, x, r)
  {
    hide Fitting, InPlace, RealFree, Effect, Plan.Valid, Plan.There, Plan.Back, SharedMigration.Admitted, UnderRoot, Route.Stop,
         Uniform, Quota.Valid, IsTree;
    ForeignBooks(p, pos.at, op, x, r);
  }

  lemma OrderlyInPlace(p: Plan, pos: Position)
    requires p.Valid() && Orderly(p, pos)
    ensures InPlace(p, pos.at)
  {
    hide Fitting, InPlace, Plan.Valid, Plan.There, Plan.Back, Uniform, Quota.Valid, IsTree;
  }

  /** The controller is where it was. */
  ghost predicate SameStage(s: Shared, s': Shared) {
    s'.raised == s.raised && s'.lowered == s.lowered && s'.sns == s.sns
  }

  lemma ThereStanding(p: Plan, pos: Position, pos': Position, x: Name, r: Resource)
    requires p.Valid() && pos.gone < p.There().Length() && pos.back <= p.Back().Length()
    requires SameStage(pos.at, pos'.at) && pos'.gone == pos.gone + 1 && pos'.back == pos.back
    ensures Standing(p, pos', x, r) == Standing(p, pos, x, r)
            - When(x == p.There().Stop(pos.gone), Get(p.Amount(), r)) + When(x == p.There().Stop(pos.gone + 1), Get(p.Amount(), r))
  {
    hide Plan.Valid, Plan.There, Plan.Back, Route.Stop;
  }

  lemma BackStanding(p: Plan, pos: Position, pos': Position, x: Name, r: Resource)
    requires p.Valid() && pos.gone <= p.There().Length() && pos.back < p.Back().Length()
    requires SameStage(pos.at, pos'.at) && pos'.gone == pos.gone && pos'.back == pos.back + 1
    ensures Standing(p, pos', x, r) == Standing(p, pos, x, r)
            - When(x == p.Back().Stop(pos.back), Get(p.Amount(), r)) + When(x == p.Back().Stop(pos.back + 1), Get(p.Amount(), r))
  {
    hide Plan.Valid, Plan.There, Plan.Back, Route.Stop;
  }

  lemma ThereBooks(p: Plan, pos: Position, pos': Position, x: Name, r: Resource)
    requires p.Valid() && Orderly(p, pos) && Orderly(p, pos') && x in pos.at.world.quota && x in pos'.at.world.quota && r in p.observed
    requires RouteStep(p, pos.at, pos'.at, p.There(), pos.gone) && pos'.gone == pos.gone + 1 && pos'.back == pos.back
    ensures Account(p, pos', x, r) == Account(p, pos, x, r)
  {
    hide Fitting, Orderly, RouteStep, RealFree, Plan.Valid, Plan.There, Plan.Back, Route.Stop, Standing, Uniform, Quota.Valid,
         IsTree;
    OrderlyInPlace(p, pos);
    RouteBooks(p, pos.at, pos'.at, p.There(), pos.gone, x, r);
    RouteStage(p, pos.at, pos'.at, p.There(), pos.gone);
    ThereStanding(p, pos, pos', x, r);
  }

  lemma BackBooks(p: Plan, pos: Position, pos': Position, x: Name, r: Resource)
    requires p.Valid() && Orderly(p, pos) && Orderly(p, pos') && x in pos.at.world.quota && x in pos'.at.world.quota && r in p.observed
    requires RouteStep(p, pos.at, pos'.at, p.Back(), pos.back) && pos'.gone == pos.gone && pos'.back == pos.back + 1
    ensures Account(p, pos', x, r) == Account(p, pos, x, r)
  {
    hide Fitting, Orderly, RouteStep, RealFree, Plan.Valid, Plan.There, Plan.Back, Route.Stop, Standing, Uniform, Quota.Valid,
         IsTree;
    OrderlyInPlace(p, pos);
    RouteBooks(p, pos.at, pos'.at, p.Back(), pos.back, x, r);
    RouteStage(p, pos.at, pos'.at, p.Back(), pos.back);
    BackStanding(p, pos, pos', x, r);
  }

  /** A write of an UpdateQuota leaves the controller where it is. */
  lemma RouteStage(p: Plan, s: Shared, s': Shared, route: Route, i: nat)
    requires Fitting(p, s) && p.n in p.start && RouteStep(p, s, s', route, i)
    ensures SameStage(s, s')
  {
    hide Fitting, SharedMigration.Admitted, UnderRoot, Uniform, Quota.Valid, IsTree;
  }

  // ---------- runs ----------

  lemma RouteOrderly(p: Plan, s: Shared, s': Shared, route: Route, i: nat)
    requires p.Valid() && Fitting(p, s) && InPlace(p, s) && (route == p.There() || route == p.Back()) && RouteStep(p, s, s', route, i)
    ensures Fitting(p, s') && InPlace(p, s') && i < route.Length()
  {
    hide Fitting, InPlace, SharedMigration.Admitted, Plan.Valid, Plan.There, Plan.Back, Outside, Uniform, Quota.Valid, IsTree;
    var used :| SharedMigration.Admitted(p, s, RouteWrite(p, s, route, i, used)) && s' == Outside(s, RouteWrite(p, s, route, i, used));
    RouteLink(p, s, route, i);
    OutsideFitting(p, s, RouteWrite(p, s, route, i, used));
    WriteInPlace(p, s, RouteWrite(p, s, route, i, used));
  }

  lemma StepOrderly(p: Plan, pos: Position, act: Act, pos': Position)
    requires p.Valid() && Orderly(p, pos) && BookedStep(p, pos, act, pos')
    ensures Orderly(p, pos')
  {
    hide Fitting, InPlace, OwnStep, RouteStep, SharedMigration.Admitted, Outside, Plan.Valid, Plan.There, Plan.Back, Uniform,
         Quota.Valid, IsTree;
    match act
    case Own =>
      OwnFitting(p, pos.at, pos'.at);
      OwnInPlace(p, pos.at, pos'.at);
    case There => RouteOrderly(p, pos.at, pos'.at, p.There(), pos.gone);
    case Back => RouteOrderly(p, pos.at, pos'.at, p.Back(), pos.back);
    case Foreign(op) =>
      OutsideFitting(p, pos.at, op);
      WriteInPlace(p, pos.at, op);
  }

  /** One step changes the account by what others did. */
  lemma StepBooks(p: Plan, pos: Position, act: Act, pos': Position, x: Name, r: Resource)
    requires p.Valid() && Orderly(p, pos) && Orderly(p, pos') && BookedStep(p, pos, act, pos')
    requires x in pos.at.world.quota && x in pos'.at.world.quota && r in p.observed
    ensures Account(p, pos', x, r) == Account(p, pos, x, r) + Share(pos.at, act, x, r)
  {
    hide Fitting, Orderly, OwnStep, RouteStep, ForeignStep, Account, Effect, Plan.Valid, Plan.There, Plan.Back, Uniform,
         Quota.Valid, IsTree;
    match act
    case Own => OwnBooks(p, pos, pos', x, r);
    case There => ThereBooks(p, pos, pos', x, r);
    case Back => BackBooks(p, pos, pos', x, r);
    case Foreign(op) => OthersBooks(p, pos, pos', op, x, r);
  }

  /** The namespace is there all the time. */
  ghost predicate Lasts(tr: seq<Position>, k: nat, x: Name)
    requires k < |tr|
  {
    forall i :: 0 <= i <= k ==> x in tr[i].at.world.quota
  }

  lemma BeginOrderly(p: Plan)
    requires p.Valid() && p.OldParent() != p.to
    ensures Orderly(p, Position(Begin(p), 0, 0))
  {
    hide Fitting, InPlace, Plan.Valid, Plan.There, Plan.Back, Solvent, Uniform, Quota.Valid, IsTree;
    BeginSolvent(p);
    BeginInPlace(p);
  }

  lemma BeginBooks(p: Plan, x: Name, r: Resource)
    requires p.Valid() && Orderly(p, Position(Begin(p), 0, 0)) && x in p.start
    ensures Account(p, Position(Begin(p), 0, 0), x, r) == Free(World0(p), x, r)
  {
    hide IsTree, Path, Under, Free, Sum, Fitting, Uniform, Sound, InPlace, Plan.There, Plan.Back, Quota.Valid;
  }

  lemma {:induction false} AlwaysOrderly(p: Plan, tr: seq<Position>, acts: seq<Act>, k: nat)
    requires p.Valid() && p.OldParent() != p.to && BookedRun(p, tr, acts) && tr[0] == Position(Begin(p), 0, 0) && k <= |acts|
    ensures Orderly(p, tr[k])
  {
    hide Fitting, Orderly, Plan.Valid, BookedStep, Begin, Uniform, Quota.Valid, IsTree;
    if k == 0 {
      BeginOrderly(p);
    } else {
      AlwaysOrderly(p, tr, acts, k - 1);
      StepOrderly(p, tr[k - 1], acts[k - 1], tr[k]);
    }
  }

  lemma StepOf(p: Plan, tr: seq<Position>, acts: seq<Act>, i: nat)
    requires p.Valid() && BookedRun(p, tr, acts) && i < |acts| && Fitting(p, tr[i].at)
    ensures BookedStep(p, tr[i], acts[i], tr[i + 1])
  {
    hide Fitting, Plan.Valid, BookedStep, Uniform, Quota.Valid, IsTree;
  }

  /** At every moment of every run, the free quota of a namespace that is there all the time, apart from
      where the migration stands, is what it was at the start and what others changed there. */
  lemma {:induction false} BooksAgree(p: Plan, tr: seq<Position>, acts: seq<Act>, k: nat, x: Name, r: Resource)
    requires p.Valid() && p.OldParent() != p.to && BookedRun(p, tr, acts) && tr[0] == Position(Begin(p), 0, 0) && k <= |acts|
    requires Lasts(tr, k, x) && r in p.observed
    ensures x in p.start && Orderly(p, tr[k])
    ensures Account(p, tr[k], x, r) == Free(World0(p), x, r) + ByOthers(tr, acts, k, x, r)
  {
    hide Fitting, Orderly, Plan.Valid, BookedStep, Share, Free, Account, BookedRun, Uniform, Quota.Valid, IsTree;
    AlwaysOrderly(p, tr, acts, k);
    if k == 0 {
      BeginBooks(p, x, r);
    } else {
      BooksAgree(p, tr, acts, k - 1, x, r);
      StepOf(p, tr, acts, k - 1);
      StepBooks(p, tr[k - 1], acts[k - 1], tr[k], x, r);
    }
  }

  /** Once the migration and both its UpdateQuotas are done, every namespace has the free quota that it had
      at the start, changed by exactly what others wrote there. */
  lemma FinishedRestores(p: Plan, tr: seq<Position>, acts: seq<Act>, k: nat, x: Name, r: Resource)
    requires p.Valid() && p.OldParent() != p.to && BookedRun(p, tr, acts) && tr[0] == Position(Begin(p), 0, 0) && k <= |acts|
    requires Lasts(tr, k, x) && r in p.observed
    requires tr[k].at.raised && tr[k].at.lowered && tr[k].gone == p.There().Length() && tr[k].back == p.Back().Length()
    ensures x in p.start && Fitting(p, tr[k].at)
    ensures Free(tr[k].at.world, x, r) == Free(World0(p), x, r) + ByOthers(tr, acts, k, x, r)
  {
    hide IsTree, Path, Under, Free, Sum, Uniform, Sound, BookedRun, Plan.There, Plan.Back, InPlace;
    BooksAgree(p, tr, acts, k, x, r);
    RouteEnds(p);
  }

  lemma RouteEnds(p: Plan)
    requires p.Valid()
    ensures p.There().Stop(0) == p.tree.root && p.There().Stop(p.There().Length()) == p.to
    ensures p.Back().Stop(0) == p.OldParent() && p.Back().Stop(p.Back().Length()) == p.tree.root
  {
    hide Plan.Valid;
    RoutesOnTree(p);
  }
}
