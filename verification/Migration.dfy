/** MigrationHierarchy: moving a subtree under a new parent together with its quota.

    The controller raises the root quota, has an UpdateQuota bring the amount to the new parent,
    replaces the Subnamespace, relabels, asks for a second UpdateQuota that returns the amount from
    the old parent to the root, and lowers the root without waiting for it.  The two UpdateQuotas
    run on their own, so their writes interleave with the controller's steps.
 */
module Migration {
  import opened Api
  import opened Hierarchy
  import opened Moves
  import opened Resources
  import opened Quota
  import opened Admission
  import opened DisplayName
  import opened UpdateQuota
  import opened UpdateQuotaController

  /** What is migrated: `n` goes under `to`, starting from quotas `start`.  `pointer` is the crq-pointer of
      `to`, which is where the first UpdateQuota is sent. */
  datatype Plan = Plan(tree: Tree, start: map<Name, ResourceList>, observed: set<Resource>, n: Name, to: Name, pointer: Name) {
    ghost predicate Valid()
      ensures Valid() ==> IsTree(tree) && start.Keys == tree.Nodes() && n in start && tree.root in start
    {
      && Uniform(World(tree, start), observed)
      && Sound(World(tree, start), observed)
      && n in tree.parent && to in tree.parent && !Under(tree, n, to)
    }

    function OldParent(): Name
      requires n in tree.parent
    {
      tree.parent[n]
    }

    /** The quota of the migrated namespace, which is the amount that travels. */
    function Amount(): ResourceList
      requires n in start
    {
      start[n]
    }

    /** The quota object exists and is not zeroed. */
    ghost predicate HasQuota()
      requires n in start
    {
      exists r :: r in start[n] && start[n][r] != 0
    }

    /** From the root down to the new parent. */
    ghost function There(): (route: Route)
      requires Valid()
    {
      Route([], tree.root, Path(tree, to)[1..])
    }

    /** From the old parent up to the root. */
    ghost function Back(): (route: Route)
      requires Valid()
      ensures route.down == []
    {
      PathStep(tree, n);
      Route(Reversed(Path(tree, OldParent())[1..]), tree.root, [])
    }

    ghost function Moved(): Tree {
      Attach(tree, n, to)
    }
  }

  datatype SnsStage = OldOnly | Both | NewOnly

  datatype State = State(
    quota: map<Name, ResourceList>,
    phase: Phase,
    raised: bool,
    asked: bool,
    gone: nat,
    sns: SnsStage,
    relabelled: bool,
    askedBack: bool,
    back: nat,
    lowered: bool)

  function Initial(start: map<Name, ResourceList>): State {
    State(start, NoPhase, false, false, 0, OldOnly, false, false, 0, false)
  }

  // ---------- steps ----------

  /** The root Hard map after adding (or subtracting) the amount resource by resource. */
  ghost function RootShifted(hard: ResourceList, amount: ResourceList, sign: int): ResourceList {
    map r | r in hard.Keys + amount.Keys :: Get(hard, r) + sign * Get(amount, r)
  }

  ghost predicate RaiseRoot(p: Plan, s: State, s': State)
    requires p.Valid() && p.tree.root in s.quota
  {
    && p.HasQuota() && s.phase == NoPhase && !s.raised
    && s' == s.(raised := true,
                quota := s.quota[p.tree.root := RootShifted(s.quota[p.tree.root], p.Amount(), 1)])
  }

  /** The first UpdateQuota is only accepted when the crq-pointer names the destination: a regular destination
      points to itself or to no namespace. */
  ghost predicate AskThere(p: Plan, s: State, s': State) {
    s.phase == NoPhase && s.raised && !s.asked && p.pointer == p.to && s' == s.(asked := true)
  }

  ghost predicate Proceed(p: Plan, s: State, s': State)
    requires p.Valid()
  {
    s.phase == NoPhase && (p.HasQuota() ==> s.asked) && s' == s.(phase := InProgress)
  }

  ghost predicate CreateNew(p: Plan, s: State, s': State)
    requires p.Valid()
  {
    && s.phase == InProgress && s.sns == OldOnly && (p.HasQuota() ==> s.gone == p.There().Length())
    && s' == s.(sns := Both)
  }

  ghost predicate DeleteOld(p: Plan, s: State, s': State) {
    s.phase == InProgress && s.sns == Both && s' == s.(sns := NewOnly)
  }

  /** Deleting the old Subnamespace failed: the new one is taken back. */
  ghost predicate RollBack(p: Plan, s: State, s': State) {
    s.phase == InProgress && s.sns == Both && s' == s.(sns := OldOnly, phase := Error)
  }

  ghost predicate Relabel(p: Plan, s: State, s': State) {
    s.phase == InProgress && s.sns == NewOnly && !s.relabelled && s' == s.(relabelled := true)
  }

  ghost predicate AskBack(p: Plan, s: State, s': State)
    requires p.Valid()
  {
    s.phase == InProgress && s.relabelled && p.HasQuota() && !s.askedBack && s' == s.(askedBack := true)
  }

  ghost predicate LowerRoot(p: Plan, s: State, s': State)
    requires p.Valid() && p.tree.root in s.quota
  {
    && s.phase == InProgress && s.askedBack && !s.lowered
    && s' == s.(lowered := true,
                quota := s.quota[p.tree.root := RootShifted(s.quota[p.tree.root], p.Amount(), -1)])
  }

  ghost predicate Finish(p: Plan, s: State, s': State)
    requires p.Valid()
  {
    s.phase == InProgress && s.relabelled && (p.HasQuota() ==> s.lowered) && s' == s.(phase := Complete)
  }

  /** Any other failure ends the migration where it stands. */
  ghost predicate Abort(p: Plan, s: State, s': State) {
    s.phase in {NoPhase, InProgress} && s' == s.(phase := Error)
  }

  /** One write of the first UpdateQuota, run by its own controller. */
  ghost predicate WriteThere(p: Plan, s: State, s': State)
    requires p.Valid() && s.quota.Keys == p.tree.Nodes()
  {
    && s.asked && s.gone < p.There().Length()
    && p.There().Written(s.gone) in s.quota
    && s' == s.(gone := s.gone + 1,
                quota := Shift(World(p.tree, s.quota), p.There().Written(s.gone), p.Amount(), p.There().Sign(s.gone)).quota)
  }

  /** One write of the second UpdateQuota. */
  ghost predicate WriteBack(p: Plan, s: State, s': State)
    requires p.Valid() && s.quota.Keys == p.tree.Nodes()
  {
    && s.askedBack && s.back < p.Back().Length()
    && p.Back().Written(s.back) in s.quota
    && s' == s.(back := s.back + 1,
                quota := Shift(World(p.tree, s.quota), p.Back().Written(s.back), p.Amount(), p.Back().Sign(s.back)).quota)
  }

  /** A step that changes no quota. */
  ghost predicate ControlStep(p: Plan, s: State, s': State)
    requires p.Valid()
  {
    && s' == s.(phase := s'.phase, asked := s'.asked, sns := s'.sns, relabelled := s'.relabelled, askedBack := s'.askedBack)
    && (|| AskThere(p, s, s') || Proceed(p, s, s') || CreateNew(p, s, s') || DeleteOld(p, s, s')
        || RollBack(p, s, s') || Relabel(p, s, s') || AskBack(p, s, s') || Finish(p, s, s') || Abort(p, s, s'))
  }

  ghost predicate Next(p: Plan, s: State, s': State)
    requires p.Valid() && s.quota.Keys == p.tree.Nodes()
  {
    || RaiseRoot(p, s, s') || LowerRoot(p, s, s') || WriteThere(p, s, s') || WriteBack(p, s, s')
    || ControlStep(p, s, s')
  }

  ghost predicate Behaviour(p: Plan, tr: seq<State>)
    requires p.Valid()
  {
    && |tr| > 0
    && forall i :: 0 <= i < |tr| - 1 && tr[i].quota.Keys == p.tree.Nodes() ==> Next(p, tr[i], tr[i + 1])
  }

  // ---------- routes ----------

  lemma RoutesOnTree(p: Plan)
    requires p.Valid()
    ensures OnTree(p.tree, p.There()) && p.There().Length() > 0
    ensures p.There().Stop(0) == p.tree.root && p.There().Stop(p.There().Length()) == p.to
    ensures OnTree(p.tree, p.Back())
    ensures p.Back().Stop(0) == p.OldParent() && p.Back().Stop(p.Back().Length()) == p.tree.root
  {
    hide IsTree, OnTree, Uniform, Sound;
    var t := p.tree;
    PathStep(t, t.root);
    PathStep(t, p.n);
    PathStep(t, p.to);
    PathShape(t, p.to);
    PathShape(t, p.OldParent());
    assert Path(t, t.root) == [t.root];
    assert LastMatch(Path(t, t.root), Path(t, p.to), 0, 0);
    RouteOnTree(t, t.root, p.to, 0);
    assert Path(t, t.root)[1..] == [];
    assert RouteAlong(Path(t, t.root), Path(t, p.to), 0) == p.There();
    assert LastMatch(Path(t, p.OldParent()), Path(t, t.root), 0, 0);
    RouteOnTree(t, p.OldParent(), t.root, 0);
    assert RouteAlong(Path(t, p.OldParent()), Path(t, t.root), 0) == p.Back();
  }

  // ---------- where the quota is at every moment ----------

  function When(b: bool, v: int): int {
    if b then v else 0
  }

  ghost function World0(p: Plan): World {
    World(p.tree, p.start)
  }

  ghost function Now(p: Plan, s: State): World {
    World(p.tree, s.quota)
  }

  /** The free quota of `x` by the original parent links: what it was at the start, plus the raise,
      minus the lowering, and with each UpdateQuota's amount at the stop that it has reached. */
  ghost function Expected(p: Plan, s: State, x: Name, r: Resource): int
    requires p.Valid() && x in p.start && s.gone <= p.There().Length() && s.back <= p.Back().Length()
  {
    var a := Get(p.Amount(), r);
    Free(World0(p), x, r)
    + When(x == p.tree.root && s.raised, a) - When(x == p.tree.root && s.lowered, a)
    - When(x == p.There().Stop(0), a) + When(x == p.There().Stop(s.gone), a)
    - When(x == p.Back().Stop(0), a) + When(x == p.Back().Stop(s.back), a)
  }

  /** The order in which things can have happened. */
  ghost predicate Ordered(p: Plan, s: State)
    requires p.Valid()
    ensures Ordered(p, s) ==> s.gone <= p.There().Length() && s.back <= p.Back().Length()
  {
    && s.gone <= p.There().Length() && s.back <= p.Back().Length()
    && (s.gone > 0 ==> s.asked) && (s.asked ==> s.raised)
    && (s.raised ==> p.HasQuota())
    && (s.sns != OldOnly && p.HasQuota() ==> s.gone == p.There().Length())
    && (s.relabelled ==> s.sns == NewOnly) && (s.askedBack ==> s.relabelled && s.raised)
    && (s.lowered ==> s.askedBack) && (s.back > 0 ==> s.askedBack)
    && (s.phase == Complete ==> s.relabelled && (p.HasQuota() ==> s.lowered))
    && (s.phase == InProgress && p.HasQuota() ==> s.raised)
    && (s.asked ==> p.pointer == p.to) && (s.phase in {InProgress, Complete} && p.HasQuota() ==> s.asked)
  }

  ghost predicate FreeAccounted(p: Plan, s: State, x: Name, r: Resource)
    requires p.Valid() && Ordered(p, s) && s.quota.Keys == p.tree.Nodes() && x in s.quota
  {
    Free(Now(p, s), x, r) == Expected(p, s, x, r)
  }

  ghost predicate RootAccounted(p: Plan, s: State, r: Resource)
    requires p.Valid() && s.quota.Keys == p.tree.Nodes()
  {
    Get(s.quota[p.tree.root], r) ==
    Get(p.start[p.tree.root], r) + When(s.raised, Get(p.Amount(), r)) - When(s.lowered, Get(p.Amount(), r))
  }

  ghost predicate Accounted(p: Plan, s: State)
    requires p.Valid() && Ordered(p, s) && Uniform(Now(p, s), p.observed)
  {
    && s.quota[p.n] == p.start[p.n]
    && (forall r :: r in p.observed ==> RootAccounted(p, s, r))
    && forall x, r :: x in s.quota && r in p.observed ==> FreeAccounted(p, s, x, r)
  }

  ghost predicate Invariant(p: Plan, s: State)
    requires p.Valid()
    ensures Invariant(p, s) ==> s.quota.Keys == p.tree.Nodes()
  {
    Ordered(p, s) && Uniform(Now(p, s), p.observed) && Accounted(p, s)
  }

  lemma InitialInvariant(p: Plan)
    requires p.Valid()
    ensures Invariant(p, Initial(p.start))
  {
    hide IsTree, Free, Sound;
  }

  /** Writing the root's own quota changes only its own free quota. */
  lemma RootWriteFree(w: World, l: ResourceList, x: Name, r: Resource)
    requires IsTree(w.tree) && w.quota.Keys == w.tree.Nodes() && x in w.quota
    ensures Free(Write(w, w.tree.root, l), x, r) ==
            Free(w, x, r) + When(x == w.tree.root, Get(l, r) - Get(w.quota[w.tree.root], r))
  {
    hide Sum;
    PathStep(w.tree, w.tree.root);
    assert ChildQuotas(Write(w, w.tree.root, l), x, r) == ChildQuotas(w, x, r);
  }

  lemma RootStep(p: Plan, s: State, s': State, sign: int)
    requires p.Valid() && Invariant(p, s) && Ordered(p, s')
    requires s'.quota == s.quota[p.tree.root := RootShifted(s.quota[p.tree.root], p.Amount(), sign)]
    requires if sign == 1 then !s.raised && s' == s.(raised := true, quota := s'.quota)
             else sign == -1 && !s.lowered && s' == s.(lowered := true, quota := s'.quota)
    ensures Invariant(p, s')
  {
    hide IsTree, Free, Sound, Ordered, Expected, Uniform, FreeAccounted, RootAccounted;
    RootStepUniform(p, s, s', sign);
    forall x, r | x in s'.quota && r in p.observed ensures FreeAccounted(p, s', x, r) {
      assert FreeAccounted(p, s, x, r);
      RootStepFree(p, s, s', sign, x, r);
    }
    forall r | r in p.observed ensures RootAccounted(p, s', r) {
      assert RootAccounted(p, s, r);
      RootStepRoot(p, s, s', sign, r);
    }
    PathStep(p.tree, p.tree.root);
  }

  lemma RootStepUniform(p: Plan, s: State, s': State, sign: int)
    requires p.Valid() && Uniform(Now(p, s), p.observed)
    requires s'.quota == s.quota[p.tree.root := RootShifted(s.quota[p.tree.root], p.Amount(), sign)]
    ensures Uniform(Now(p, s'), p.observed)
  {
    hide IsTree, Free, Sound;
    var w, l := Now(p, s), RootShifted(s.quota[p.tree.root], p.Amount(), sign);
    assert l.Keys == p.observed;
    WriteValid(w, p.observed, p.tree.root, l);
    assert Now(p, s') == Write(w, p.tree.root, l);
  }

  lemma RootStepRoot(p: Plan, s: State, s': State, sign: int, r: Resource)
    requires p.Valid() && s.quota.Keys == p.tree.Nodes() == s'.quota.Keys && RootAccounted(p, s, r)
    requires s'.quota[p.tree.root] == RootShifted(s.quota[p.tree.root], p.Amount(), sign)
    requires if sign == 1 then !s.raised && s'.raised && s'.lowered == s.lowered
             else sign == -1 && !s.lowered && s'.lowered && s'.raised == s.raised
    ensures RootAccounted(p, s', r)
  {
    hide IsTree, Free, Sound, Uniform;
  }

  lemma RootStepFree(p: Plan, s: State, s': State, sign: int, x: Name, r: Resource)
    requires p.Valid() && Ordered(p, s) && Ordered(p, s') && s.quota.Keys == p.tree.Nodes() == s'.quota.Keys && x in s.quota
    requires FreeAccounted(p, s, x, r)
    requires s'.quota == s.quota[p.tree.root := RootShifted(s.quota[p.tree.root], p.Amount(), sign)]
    requires if sign == 1 then !s.raised && s' == s.(raised := true, quota := s'.quota)
             else sign == -1 && !s.lowered && s' == s.(lowered := true, quota := s'.quota)
    ensures FreeAccounted(p, s', x, r)
  {
    hide IsTree, Free, Sound, Ordered, Expected, Uniform;
    var w, l := Now(p, s), RootShifted(s.quota[p.tree.root], p.Amount(), sign);
    RootWriteFree(w, l, x, r);
    RootExpected(p, s, s', x, r);
  }

  lemma RootExpected(p: Plan, s: State, s': State, x: Name, r: Resource)
    requires p.Valid() && x in p.start && s.gone <= p.There().Length() && s.back <= p.Back().Length()
    requires s'.gone == s.gone && s'.back == s.back
    ensures Expected(p, s', x, r) == Expected(p, s, x, r)
            + When(x == p.tree.root, When(s'.raised, Get(p.Amount(), r)) - When(s'.lowered, Get(p.Amount(), r)))
            - When(x == p.tree.root, When(s.raised, Get(p.Amount(), r)) - When(s.lowered, Get(p.Amount(), r)))
  {
    hide IsTree, Free, Sound, Uniform;
  }

  lemma WriteSparesMoved(p: Plan)
    requires p.Valid()
    ensures forall i: nat :: i < p.There().Length() ==> p.There().Written(i) != p.n
    ensures forall i: nat :: i < p.Back().Length() ==> p.Back().Written(i) != p.n
  {
    hide IsTree, Uniform, Sound;
    ChildSubtree(p.tree, p.n);
    PathStep(p.tree, p.n);
    assert p.n !in Path(p.tree, p.OldParent());
  }

  /** What a write of either UpdateQuota leaves accounted, once its route and position are given. */
  ghost predicate IsRouteWrite(p: Plan, s: State, s': State, route: Route, i: nat)
    requires p.Valid() && s.quota.Keys == p.tree.Nodes()
  {
    && OnTree(p.tree, route) && i < route.Length() && route.Written(i) in s.quota && route.Written(i) != p.n
    && s'.quota == Shift(Now(p, s), route.Written(i), p.Amount(), route.Sign(i)).quota
    && s'.raised == s.raised && s'.lowered == s.lowered
  }

  lemma RouteStepUniform(p: Plan, s: State, s': State, route: Route, i: nat)
    requires p.Valid() && Uniform(Now(p, s), p.observed) && IsRouteWrite(p, s, s', route, i)
    ensures Uniform(Now(p, s'), p.observed) && s'.quota[p.n] == s.quota[p.n]
    ensures s'.quota[p.tree.root] == s.quota[p.tree.root]
  {
    hide IsTree, Free, Sound, OnTree, Plan.Valid, Route.Stop, Tree.Nodes, Valid;
    var w, n := Now(p, s), route.Written(i);
    var l := Shifted(w.quota[n], p.Amount(), route.Sign(i));
    WriteValid(w, p.observed, n, l);
    assert Now(p, s') == Write(w, n, l);
    WrittenHasParent(p.tree, route, i);
    PathStep(p.tree, n);
  }

  lemma RouteStepFree(p: Plan, s: State, s': State, route: Route, i: nat, x: Name, r: Resource)
    requires p.Valid() && Uniform(Now(p, s), p.observed) && IsRouteWrite(p, s, s', route, i)
    requires x in s.quota && r in p.observed
    ensures s'.quota.Keys == s.quota.Keys
    ensures Free(Now(p, s'), x, r) ==
            Free(Now(p, s), x, r) - When(x == route.Stop(i), Get(p.Amount(), r)) + When(x == route.Stop(i + 1), Get(p.Amount(), r))
  {
    hide IsTree, Free, Sound, OnTree, Plan.Valid;
    ShiftFree(Now(p, s), route, p.Amount(), i, x, r);
  }

  lemma ThereExpected(p: Plan, s: State, s': State, x: Name, r: Resource)
    requires p.Valid() && x in p.start && s.gone < p.There().Length() && s.back <= p.Back().Length()
    requires s'.gone == s.gone + 1 && s'.back == s.back && s'.raised == s.raised && s'.lowered == s.lowered
    ensures Expected(p, s', x, r) == Expected(p, s, x, r)
            - When(x == p.There().Stop(s.gone), Get(p.Amount(), r)) + When(x == p.There().Stop(s.gone + 1), Get(p.Amount(), r))
  {
    hide IsTree, Free, Sound, Uniform;
  }

  lemma BackExpected(p: Plan, s: State, s': State, x: Name, r: Resource)
    requires p.Valid() && x in p.start && s.gone <= p.There().Length() && s.back < p.Back().Length()
    requires s'.gone == s.gone && s'.back == s.back + 1 && s'.raised == s.raised && s'.lowered == s.lowered
    ensures Expected(p, s', x, r) == Expected(p, s, x, r)
            - When(x == p.Back().Stop(s.back), Get(p.Amount(), r)) + When(x == p.Back().Stop(s.back + 1), Get(p.Amount(), r))
  {
    hide IsTree, Free, Sound, Uniform;
  }

  lemma ThereStep(p: Plan, s: State, s': State)
    requires p.Valid() && Invariant(p, s) && WriteThere(p, s, s') && Ordered(p, s')
    ensures Invariant(p, s')
  {
    hide IsTree, Free, Sound, Ordered, OnTree, Expected, Uniform, Shift, Valid, Plan.Valid;
    RoutesOnTree(p);
    WriteSparesMoved(p);
    RouteStepUniform(p, s, s', p.There(), s.gone);
    forall x, r | x in s'.quota && r in p.observed ensures FreeAccounted(p, s', x, r) {
      assert FreeAccounted(p, s, x, r);
      ThereExpected(p, s, s', x, r);
      RouteStepFree(p, s, s', p.There(), s.gone, x, r);
    }
    forall r | r in p.observed ensures RootAccounted(p, s', r) {
      assert RootAccounted(p, s, r);
    }
  }

  lemma BackStep(p: Plan, s: State, s': State)
    requires p.Valid() && Invariant(p, s) && WriteBack(p, s, s') && Ordered(p, s')
    ensures Invariant(p, s')
  {
    hide IsTree, Free, Sound, Ordered, OnTree, Expected, Uniform, Shift, Valid, Plan.Valid;
    RoutesOnTree(p);
    WriteSparesMoved(p);
    RouteStepUniform(p, s, s', p.Back(), s.back);
    forall x, r | x in s'.quota && r in p.observed ensures FreeAccounted(p, s', x, r) {
      assert FreeAccounted(p, s, x, r);
      BackExpected(p, s, s', x, r);
      RouteStepFree(p, s, s', p.Back(), s.back, x, r);
    }
    forall r | r in p.observed ensures RootAccounted(p, s', r) {
      assert RootAccounted(p, s, r);
    }
  }

  lemma FlagStep(p: Plan, s: State, s': State)
    requires p.Valid() && Invariant(p, s) && Ordered(p, s')
    requires s'.quota == s.quota && s'.raised == s.raised && s'.lowered == s.lowered && s'.gone == s.gone && s'.back == s.back
    ensures Invariant(p, s')
  {
    hide IsTree, Free, Sound, Ordered, Expected, Uniform, Valid;
    forall x, r | x in s'.quota && r in p.observed ensures FreeAccounted(p, s', x, r) {
      assert FreeAccounted(p, s, x, r);
      RootExpected(p, s, s', x, r);
    }
    forall r | r in p.observed ensures RootAccounted(p, s', r) {
      assert RootAccounted(p, s, r);
    }
  }

  lemma RootStepOrdered(p: Plan, s: State, s': State)
    requires p.Valid() && Ordered(p, s) && p.tree.root in s.quota && (RaiseRoot(p, s, s') || LowerRoot(p, s, s'))
    ensures Ordered(p, s')
  {
    hide IsTree, Free, Sound, Uniform, Plan.Valid, Plan.There, Plan.Back, Plan.HasQuota;
  }

  lemma WriteOrdered(p: Plan, s: State, s': State)
    requires p.Valid() && Ordered(p, s) && s.quota.Keys == p.tree.Nodes() && (WriteThere(p, s, s') || WriteBack(p, s, s'))
    ensures Ordered(p, s')
  {
    hide IsTree, Free, Sound, Uniform, Plan.Valid, Plan.There, Plan.Back, Plan.HasQuota, Shift;
  }

  lemma ControlOrdered(p: Plan, s: State, s': State)
    requires p.Valid() && Ordered(p, s) && ControlStep(p, s, s')
    ensures Ordered(p, s')
  {
    hide IsTree, Free, Sound, Uniform, Plan.Valid, Plan.There, Plan.Back, Plan.HasQuota;
  }

  lemma LoweredHadQuota(p: Plan, s: State)
    requires p.Valid() && Ordered(p, s) && s.askedBack
    ensures p.HasQuota()
  {
    hide IsTree, Uniform, Sound;
  }

  lemma NextInvariant(p: Plan, s: State, s': State)
    requires p.Valid() && Invariant(p, s) && Next(p, s, s')
    ensures Invariant(p, s')
  {
    hide IsTree, Free, Sound, Accounted, Ordered, Uniform, Plan.Valid, WriteThere, WriteBack, AskThere, Proceed, CreateNew,
         DeleteOld, RollBack, Relabel, AskBack, Finish, Abort;
    if RaiseRoot(p, s, s') {
      RootStepOrdered(p, s, s');
      RootStep(p, s, s', 1);
    } else if LowerRoot(p, s, s') {
      RootStepOrdered(p, s, s');
      LoweredHadQuota(p, s);
      RootStep(p, s, s', -1);
    } else if WriteThere(p, s, s') {
      WriteOrdered(p, s, s');
      ThereStep(p, s, s');
    } else if WriteBack(p, s, s') {
      WriteOrdered(p, s, s');
      BackStep(p, s, s');
    } else {
      ControlOrdered(p, s, s');
      FlagStep(p, s, s');
    }
  }

  lemma {:induction false} AlwaysAccounted(p: Plan, tr: seq<State>, k: nat)
    requires p.Valid() && Behaviour(p, tr) && tr[0] == Initial(p.start) && k < |tr|
    ensures Invariant(p, tr[k])
  {
    hide Next, Invariant, Initial;
    if k == 0 {
      InitialInvariant(p);
    } else {
      AlwaysAccounted(p, tr, k - 1);
      NextInvariant(p, tr[k - 1], tr[k]);
    }
  }

  // ---------- what holds in every intermediate state ----------

  /** Free quota as the Subnamespace objects have it: between creating the new one and deleting the
      old one, the migrated quota counts under both parents. */
  ghost function SnsFree(p: Plan, s: State, x: Name, r: Resource): int
    requires p.Valid() && s.quota.Keys == p.tree.Nodes() && x in s.quota
  {
    match s.sns
    case OldOnly => Free(Now(p, s), x, r)
    case Both => Free(Now(p, s), x, r) - When(x == p.to, Get(s.quota[p.n], r))
    case NewOnly => Free(World(p.Moved(), s.quota), x, r)
  }

  /** Free quota as the namespaces' parent labels have it. */
  ghost function LabelFree(p: Plan, s: State, x: Name, r: Resource): int
    requires p.Valid() && s.quota.Keys == p.tree.Nodes() && x in s.quota
  {
    if s.relabelled then Free(World(p.Moved(), s.quota), x, r) else Free(Now(p, s), x, r)
  }

  /** The root owes the amount while it has been lowered but the second UpdateQuota has not finished. */
  ghost function Debt(p: Plan, s: State, r: Resource): int
    requires p.Valid()
  {
    When(s.lowered && s.back < p.Back().Length(), Get(p.Amount(), r))
  }

  /** Where the two UpdateQuotas can be, told apart by root, new parent and old parent. */
  lemma StopFacts(p: Plan, s: State)
    requires p.Valid() && Ordered(p, s)
    ensures p.There().Stop(0) == p.tree.root && p.Back().Stop(0) == p.OldParent()
    ensures p.There().Stop(s.gone) == p.tree.root <==> s.gone == 0
    ensures s.gone == p.There().Length() ==> p.There().Stop(s.gone) == p.to
    ensures p.Back().Stop(s.back) == p.tree.root <==> s.back == p.Back().Length()
    ensures p.to != p.tree.root && p.OldParent() in p.start
  {
    hide IsTree, Sound, Uniform;
    RoutesOnTree(p);
    PathStep(p.tree, p.tree.root);
    PathStep(p.tree, p.n);
    if s.back < p.Back().Length() {
      WrittenHasParent(p.tree, p.Back(), s.back);
    }
  }

  lemma AmountFacts(p: Plan, r: Resource)
    requires p.Valid() && r in p.observed
    ensures Get(p.Amount(), r) >= 0
    ensures !p.HasQuota() ==> Get(p.Amount(), r) == 0
    ensures forall x :: x in p.start ==> Free(World0(p), x, r) >= 0
  {
    hide IsTree, Free;
  }

  /** In every intermediate state no namespace other than the root is overdrawn under either reading,
      and the root is overdrawn by the debt at most; while there is a debt it is exactly that. */
  lemma OnlyRootOwes(p: Plan, s: State, x: Name, r: Resource)
    requires p.Valid() && Invariant(p, s) && x in s.quota && r in p.observed
    ensures SnsFree(p, s, x, r) >= -When(x == p.tree.root, Debt(p, s, r))
    ensures LabelFree(p, s, x, r) >= -When(x == p.tree.root, Debt(p, s, r))
    ensures s.lowered && s.back < p.Back().Length() && x == p.tree.root ==>
              SnsFree(p, s, x, r) == LabelFree(p, s, x, r) == Free(World0(p), x, r) - Get(p.Amount(), r)
  {
    hide IsTree, Free, Sound, Uniform, OnTree, Plan.There, Plan.Back;
    assert FreeAccounted(p, s, x, r);
    StopFacts(p, s);
    AmountFacts(p, r);
    MoveFree(Now(p, s), p.n, p.to, x, r);
  }

  /** When the migration is Complete and the second UpdateQuota has finished, the root owns what it
      owned before and every namespace has the free quota it had before. */
  lemma CompletedMigrationConserves(p: Plan, s: State, x: Name, r: Resource)
    requires p.Valid() && Invariant(p, s) && x in s.quota && r in p.observed
    requires s.phase == Complete && s.back == (if p.HasQuota() then p.Back().Length() else 0)
    ensures Get(s.quota[p.tree.root], r) == Get(p.start[p.tree.root], r)
    ensures Free(World(p.Moved(), s.quota), x, r) == Free(World0(p), x, r)
  {
    hide IsTree, Free, Sound, Uniform, OnTree, Plan.There, Plan.Back;
    assert FreeAccounted(p, s, x, r) && RootAccounted(p, s, r);
    StopFacts(p, s);
    AmountFacts(p, r);
    MoveFree(Now(p, s), p.n, p.to, x, r);
  }

  /** The migrated tree is a tree again. */
  lemma MovedIsTree(p: Plan)
    requires p.Valid()
    ensures IsTree(p.Moved()) && p.Moved().Nodes() == p.tree.Nodes()
  {
    ReparentIsTree(p.tree, p.n, p.to);
  }

  // ---------- no step is held up by the quota checks ----------

  /** Every write of the first UpdateQuota is admitted. */
  lemma ThereAdmitted(p: Plan, s: State, s': State)
    requires p.Valid() && Invariant(p, s) && WriteThere(p, s, s')
    ensures p.There().Written(s.gone) in p.tree.parent
    ensures var n := p.There().Written(s.gone);
            AdmitsQuota(Now(p, s), p.observed, n, Shifted(s.quota[n], p.Amount(), p.There().Sign(s.gone)))
  {
    hide IsTree, Free, Sound, OnTree, Accounted, AdmitsQuota;
    RoutesOnTree(p);
    var n := p.There().Written(s.gone);
    WrittenHasParent(p.tree, p.There(), s.gone);
    NextInvariant(p, s, s');
    forall x, r | x in s'.quota && r in p.observed ensures Free(Now(p, s'), x, r) >= 0 {
      OnlyRootOwes(p, s', x, r);
    }
    AdmittedWhenNotOverdrawn(Now(p, s), p.observed, n, Shifted(s.quota[n], p.Amount(), p.There().Sign(s.gone)), s'.quota);
  }

  /** A write is admitted when afterwards neither its namespace's subtree nor its parent is overdrawn. */
  lemma AdmittedWhenNotOverdrawn(w: World, observed: set<Resource>, n: Name, l: ResourceList, after: map<Name, ResourceList>)
    requires Uniform(w, observed) && n in w.tree.parent && l.Keys == observed
    requires after == w.quota[n := l]
    requires forall x, r :: x in after && r in observed && (x in Subtree(w.tree, n) || x == w.tree.parent[n]) ==>
               Free(World(w.tree, after), x, r) >= 0
    ensures AdmitsQuota(w, observed, n, l)
  {
    hide IsTree, Free, AdmitsQuota, Uniform;
    var w' := Write(w, n, l);
    WriteValid(w, observed, n, l);
    UpdateAdmittedIff(w, observed, n, l);
    UnderSelf(w.tree, n);
    PathStep(w.tree, n);
    forall r | r in observed
      ensures l[r] >= 0 && Free(w', n, r) >= 0 && Free(w', w.tree.parent[n], r) >= 0
    {
      FreeMeansQuota(w', observed, n, r);
    }
  }

  /** Every write of the second UpdateQuota is admitted, also while the root is in debt. */
  lemma BackAdmitted(p: Plan, s: State, s': State)
    requires p.Valid() && Invariant(p, s) && WriteBack(p, s, s')
    ensures IsTree(p.Moved()) && Uniform(World(p.Moved(), s.quota), p.observed)
    ensures p.Back().Written(s.back) in p.Moved().parent
    ensures var n := p.Back().Written(s.back);
            AdmitsQuota(World(p.Moved(), s.quota), p.observed, n, Shifted(s.quota[n], p.Amount(), p.Back().Sign(s.back)))
  {
    hide IsTree, Free, Sound, OnTree, Accounted, AdmitsQuota, Uniform, Plan.Valid;
    RoutesOnTree(p);
    var n := p.Back().Written(s.back);
    WrittenHasParent(p.tree, p.Back(), s.back);
    WriteSparesMoved(p);
    MovedIsTree(p);
    MovedUniform(p, s);
    NextInvariant(p, s, s');
    assert s'.sns == NewOnly;
    BackWriteSpan(p, s);
    forall x, r | x in s'.quota && r in p.observed && (x in Subtree(p.Moved(), n) || x == p.Moved().parent[n])
      ensures Free(World(p.Moved(), s'.quota), x, r) >= 0
    {
      OnlyRootOwes(p, s', x, r);
      assert SnsFree(p, s', x, r) == Free(World(p.Moved(), s'.quota), x, r);
      BackSpanNotOwing(p, s, s', x, r);
    }
    BackWriteAdmitted(p, s, s', n);
  }

  lemma BackWriteAdmitted(p: Plan, s: State, s': State, n: Name)
    requires p.Valid() && s.quota.Keys == p.tree.Nodes() && s.back < p.Back().Length() && n == p.Back().Written(s.back)
    requires WriteBack(p, s, s') && IsTree(p.Moved()) && Uniform(World(p.Moved(), s.quota), p.observed) && n in p.Moved().parent
    requires s'.quota.Keys == s.quota.Keys && p.Moved().Nodes() == p.tree.Nodes()
    requires forall x, r :: x in s'.quota && r in p.observed && (x in Subtree(p.Moved(), n) || x == p.Moved().parent[n]) ==>
               Free(World(p.Moved(), s'.quota), x, r) >= 0
    ensures AdmitsQuota(World(p.Moved(), s.quota), p.observed, n, Shifted(s.quota[n], p.Amount(), p.Back().Sign(s.back)))
  {
    hide IsTree, Free, Sound, OnTree, AdmitsQuota, Plan.Valid;
    AdmittedWhenNotOverdrawn(World(p.Moved(), s.quota), p.observed, n,
                             Shifted(s.quota[n], p.Amount(), p.Back().Sign(s.back)), s'.quota);
  }

  lemma MovedUniform(p: Plan, s: State)
    requires p.Valid() && Uniform(Now(p, s), p.observed)
    ensures Uniform(World(p.Moved(), s.quota), p.observed)
  {
    hide IsTree, Plan.Valid;
    MovedIsTree(p);
  }

  /** The root is neither below a namespace that is written back nor, before the last write, its parent. */
  lemma BackWriteSpan(p: Plan, s: State)
    requires p.Valid() && Ordered(p, s) && s.back < p.Back().Length()
    requires IsTree(p.Moved()) && p.Back().Written(s.back) in p.Moved().parent
    ensures p.tree.root !in Subtree(p.Moved(), p.Back().Written(s.back))
    ensures p.Moved().parent[p.Back().Written(s.back)] == p.Back().Stop(s.back + 1)
  {
    hide IsTree, Sound, Uniform, Plan.Valid;
    RoutesOnTree(p);
    WriteSparesMoved(p);
    PathStep(p.Moved(), p.tree.root);
  }

  lemma BackSpanNotOwing(p: Plan, s: State, s': State, x: Name, r: Resource)
    requires p.Valid() && Ordered(p, s) && Ordered(p, s') && s.back < p.Back().Length() && s'.back == s.back + 1
    requires IsTree(p.Moved()) && p.Back().Written(s.back) in p.Moved().parent && r in p.observed
    requires x in Subtree(p.Moved(), p.Back().Written(s.back)) || x == p.Moved().parent[p.Back().Written(s.back)]
    ensures When(x == p.tree.root, Debt(p, s', r)) == 0
  {
    hide IsTree, Sound, Uniform, Plan.Valid, Subtree, OnTree, Plan.Back, Plan.There;
    BackWriteSpan(p, s);
    StopFacts(p, s');
  }

  /** Creating the Subnamespace under the new parent passes its quota checks. */
  lemma CreateNewAdmitted(p: Plan, s: State, s': State)
    requires p.Valid() && Invariant(p, s) && CreateNew(p, s, s')
    ensures ParamsGiven(p.observed, s.quota[p.n]) && ParentHasRoom(Now(p, s), p.to, s.quota[p.n])
  {
    hide IsTree, Free, Sound, OnTree, Accounted, Ordered, Plan.There, Plan.HasQuota;
    forall r | r in p.observed ensures Free(Now(p, s), p.to, r) - Get(s.quota[p.n], r) >= 0 && Get(s.quota[p.n], r) >= 0 {
      RoomForMoved(p, s, s', r);
    }
  }

  lemma RoomForMoved(p: Plan, s: State, s': State, r: Resource)
    requires p.Valid() && Invariant(p, s) && CreateNew(p, s, s') && r in p.observed
    ensures p.to in s.quota && Free(Now(p, s), p.to, r) - Get(s.quota[p.n], r) >= 0 && Get(s.quota[p.n], r) >= 0
  {
    hide IsTree, Free, Sound, OnTree, Accounted, Ordered, Uniform, Plan.There, Plan.HasQuota;
    NextInvariant(p, s, s');
    OnlyRootOwes(p, s', p.to, r);
    ToIsNotRoot(p);
    AmountFacts(p, r);
    QuotaOfMoved(p, s);
  }

  lemma ToIsNotRoot(p: Plan)
    requires p.Valid()
    ensures p.to in p.tree.Nodes() && p.to != p.tree.root
  {
    hide IsTree, Sound, Uniform;
    PathStep(p.tree, p.to);
  }

  lemma QuotaOfMoved(p: Plan, s: State)
    requires p.Valid() && Invariant(p, s)
    ensures s.quota[p.n] == p.Amount()
  {
    hide IsTree, Free, Sound, Uniform;
  }

  /** Over every interleaving of the controller with its two UpdateQuotas: nobody but the root is ever
      overdrawn, the root only by the debt, and a finished migration has put everything back. */
  lemma MigrationTheorem(p: Plan, tr: seq<State>, k: nat, x: Name, r: Resource)
    requires p.Valid() && Behaviour(p, tr) && tr[0] == Initial(p.start) && k < |tr|
    requires x in p.start && r in p.observed
    ensures tr[k].quota.Keys == p.tree.Nodes() && Ordered(p, tr[k])
    ensures SnsFree(p, tr[k], x, r) >= -When(x == p.tree.root, Debt(p, tr[k], r))
    ensures LabelFree(p, tr[k], x, r) >= -When(x == p.tree.root, Debt(p, tr[k], r))
    ensures tr[k].phase == Complete && (p.HasQuota() ==> tr[k].back == p.Back().Length()) ==>
              && Get(tr[k].quota[p.tree.root], r) == Get(p.start[p.tree.root], r)
              && Free(World(p.Moved(), tr[k].quota), x, r) == Free(World0(p), x, r)
  {
    hide IsTree, Free, Sound, Accounted, Behaviour, Uniform, Plan.Valid;
    AlwaysAccounted(p, tr, k);
    OnlyRootOwes(p, tr[k], x, r);
    if tr[k].phase == Complete && (p.HasQuota() ==> tr[k].back == p.Back().Length()) {
      CompletedMigrationConserves(p, tr[k], x, r);
    }
  }
}
