/** The UpdateQuota controller: finds the route from the display names and makes the writes one by
    one, each behind the admission check, stopping at the first that is denied.
 */
module UpdateQuotaController {
  import opened Api
  import opened Hierarchy
  import opened Listings
  import opened Resources
  import opened Quota
  import opened Admission
  import opened DisplayName
  import opened UpdateQuota

  /** The route the controller has to take between two namespaces. */
  ghost predicate IsRoute(t: Tree, a: Name, b: Name, route: Route)
    requires IsTree(t) && a in t.Nodes() && b in t.Nodes()
  {
    exists d: nat :: LastMatch(Path(t, a), Path(t, b), d, d) && route == RouteAlong(Path(t, a), Path(t, b), d)
  }

  /** Every write before `k` passed both the quota and the usage checks. */
  ghost predicate PassedUpTo(w: World, observed: set<Resource>, used: map<Name, ResourceList>,
                             route: Route, amount: ResourceList, k: nat)
    requires Valid(w, observed) && OnTree(w.tree, route) && k <= route.Length()
  {
    forall i: nat :: i < k ==> Passes(w, observed, used, route, amount, i)
  }

  ghost predicate Passes(w: World, observed: set<Resource>, used: map<Name, ResourceList>,
                         route: Route, amount: ResourceList, i: nat)
    requires Valid(w, observed) && OnTree(w.tree, route) && i < route.Length()
  {
    var v := After(w, route, amount, i);
    var n := route.Written(i);
    AdmitsUpdate(v, observed, n, Shifted(v.quota[n], amount, route.Sign(i)), Used(used, n))
  }

  function Used(used: map<Name, ResourceList>, n: Name): ResourceList {
    if n in used then used[n] else map[]
  }

  lemma PassedOneMore(w: World, observed: set<Resource>, used: map<Name, ResourceList>,
                      route: Route, amount: ResourceList, i: nat)
    requires Valid(w, observed) && OnTree(w.tree, route) && i < route.Length()
    requires PassedUpTo(w, observed, used, route, amount, i) && Passes(w, observed, used, route, amount, i)
    ensures PassedUpTo(w, observed, used, route, amount, i + 1)
  {
    hide IsTree, Passes, OnTree;
  }

  lemma NothingPassed(w: World, observed: set<Resource>, used: map<Name, ResourceList>)
    requires Valid(w, observed)
    ensures forall route, amount :: OnTree(w.tree, route) ==> PassedUpTo(w, observed, used, route, amount, 0)
  {
  }

  lemma WrittenHasParent(t: Tree, route: Route, i: nat)
    requires OnTree(t, route) && i < route.Length()
    ensures route.Written(i) in t.parent
  {
    hide IsTree;
  }

  class Controller {
    var world: World
    const display: map<Name, string>
    const observed: set<Resource>
    const used: map<Name, ResourceList>

    constructor (world: World, display: map<Name, string>, observed: set<Resource>, used: map<Name, ResourceList>)
      ensures this.world == world && this.display == display && this.observed == observed && this.used == used
    {
      this.world := world;
      this.display := display;
      this.observed := observed;
      this.used := used;
    }

    /** Display names are the joined paths, and names carry no slash. */
    ghost predicate Ready()
      reads this
      ensures Ready() ==> Valid(world, observed) && display.Keys == world.tree.Nodes()
    {
      Valid(world, observed) && DisplaysPaths(world.tree, display)
    }

    /** Changes the spec of one Subnamespace and waits for its quota object to follow. */
    method ChangeSnsQuota(n: Name, amount: ResourceList, sign: int) returns (ok: bool)
      requires Ready() && n in world.tree.parent
      modifies this`world
      ensures ok <==> old(AdmitsUpdate(world, observed, n, Shifted(world.quota[n], amount, sign), Used(used, n)))
      ensures world == if ok then Shift(old(world), n, amount, sign) else old(world)
      ensures Ready()
    {
      var hard := ShiftHard(world.quota[n], amount, sign);
      var siblings := ListNames(world.tree.Children(world.tree.parent[n]));
      var children := ListNames(world.tree.Children(n));
      ok := HandleUpdate(world, observed, n, hard, Used(used, n), siblings, children, REGULAR);
      RegularUpdate(world, observed, n, hard, Used(used, n));
      if ok {
        WriteValid(world, observed, n, hard);
        world := Write(world, n, hard);
      }
    }

    /** The Subnamespaces between the ancestor and the namespace, highest first. */
    method SnsListDown(ancestor: Name, n: Name, ghost d: nat) returns (list: seq<Name>)
      requires Ready() && n in display && d < |Path(world.tree, n)| && Path(world.tree, n)[d] == ancestor
      ensures list == Path(world.tree, n)[d + 1..]
    {
      hide IsTree, Valid, Tree.Nodes;
      SplitsToPath(world.tree, display, n);
      PathShape(world.tree, n);
      var names := SplitPieces(display[n]);
      var index := IndexOf(ancestor, names);
      var arr := names[index..];
      list := [];
      for i := 1 to |arr|
        invariant list == arr[1..i]
      {
        list := list + [arr[i]];
      }
    }

    /** The same Subnamespaces, lowest first. */
    method SnsListUp(n: Name, ancestor: Name, ghost d: nat) returns (list: seq<Name>)
      requires Ready() && n in display && d < |Path(world.tree, n)| && Path(world.tree, n)[d] == ancestor
      ensures list == Reversed(Path(world.tree, n)[d + 1..])
    {
      hide IsTree, Reversed;
      SplitsToPath(world.tree, display, n);
      PathShape(world.tree, n);
      var names := SplitPieces(display[n]);
      var index := IndexOf(ancestor, names);
      assert names[index..][1..] == names[d + 1..];
      list := LowestFirst(names[index..]);
    }

    /** Write `i` of a route. */
    method WriteStop(n: Name, amount: ResourceList, sign: int, ghost w: World, ghost route: Route, ghost i: nat) returns (ok: bool)
      requires Ready() && Valid(w, observed) && OnTree(w.tree, route) && i < route.Length()
      requires n == route.Written(i) && sign == route.Sign(i)
      requires world == After(w, route, amount, i) && PassedUpTo(w, observed, used, route, amount, i)
      modifies this`world
      ensures Ready() && (ok <==> Passes(w, observed, used, route, amount, i))
      ensures world == After(w, route, amount, if ok then i + 1 else i)
      ensures PassedUpTo(w, observed, used, route, amount, if ok then i + 1 else i)
    {
      hide IsTree, AdmitsUpdate, After, OnTree, Ready, Shift, PassedUpTo;
      AfterStep(w, route, amount, i + 1);
      WrittenHasParent(w.tree, route, i);
      ok := ChangeSnsQuota(n, amount, sign);
      if ok {
        PassedOneMore(w, observed, used, route, amount, i);
      }
    }

    /** Subtracts along the up leg until a write is denied. */
    method MoveUp(list: seq<Name>, amount: ResourceList, ghost w: World, ghost route: Route) returns (ok: bool, writes: nat)
      requires Ready() && Valid(w, observed) && OnTree(w.tree, route) && list == route.up && world == w
      modifies this`world
      ensures Ready() && writes <= |list| && (ok <==> writes == |list|)
      ensures world == After(w, route, amount, writes) && PassedUpTo(w, observed, used, route, amount, writes)
      ensures !ok ==> !Passes(w, observed, used, route, amount, writes)
    {
      hide IsTree, After, Passes, Ready, OnTree, Valid, Route.Stop, Tree.Nodes;
      AfterStep(w, route, amount, 0);
      for i := 0 to |list|
        invariant Ready() && world == After(w, route, amount, i) && PassedUpTo(w, observed, used, route, amount, i)
      {
        var done := WriteStop(list[i], amount, -1, w, route, i);
        if !done {
          return false, i;
        }
      }
      return true, |list|;
    }

    /** Adds along the down leg until a write is denied. */
    method MoveDown(list: seq<Name>, amount: ResourceList, ghost w: World, ghost route: Route) returns (ok: bool, writes: nat)
      requires Ready() && Valid(w, observed) && OnTree(w.tree, route) && list == route.down
      requires world == After(w, route, amount, |route.up|) && PassedUpTo(w, observed, used, route, amount, |route.up|)
      modifies this`world
      ensures Ready() && writes <= |list| && (ok <==> writes == |list|)
      ensures world == After(w, route, amount, |route.up| + writes)
      ensures PassedUpTo(w, observed, used, route, amount, |route.up| + writes)
      ensures !ok ==> !Passes(w, observed, used, route, amount, |route.up| + writes)
    {
      hide IsTree, After, Passes, PassedUpTo, Ready, OnTree, Valid, Route.Stop, Tree.Nodes;
      for i := 0 to |list|
        invariant Ready() && world == After(w, route, amount, |route.up| + i)
        invariant PassedUpTo(w, observed, used, route, amount, |route.up| + i)
      {
        var done := WriteStop(list[i], amount, 1, w, route, |route.up| + i);
        if !done {
          return false, i;
        }
      }
      return true, |list|;
    }

    /** The lowest common ancestor, from the pieces of the two display names. */
    method FindAncestor(source: Name, dest: Name) returns (ancestor: Name, ghost d: nat)
      requires Ready() && source in display && dest in display
      ensures d < |Path(world.tree, source)| && d < |Path(world.tree, dest)|
      ensures LastMatch(Path(world.tree, source), Path(world.tree, dest), d, d)
      ensures ancestor == Path(world.tree, source)[d] == Path(world.tree, dest)[d]
      ensures IsLowestCommon(world.tree, source, dest, ancestor)
      ensures source == ancestor <==> d == |Path(world.tree, source)| - 1
      ensures dest == ancestor <==> d == |Path(world.tree, dest)| - 1
    {
      hide IsTree;
      ghost var t := world.tree;
      SplitsToPath(t, display, source);
      SplitsToPath(t, display, dest);
      var sourceSliced := SplitPieces(display[source]);
      var destSliced := SplitPieces(display[dest]);
      PathShape(t, source);
      PathShape(t, dest);
      assert t.root in sourceSliced && t.root in destSliced;
      var found, name, isRoot := GetAncestor(sourceSliced, destSliced);
      ancestor := name;
      ghost var i, j :| LastMatch(sourceSliced, destSliced, i, j) && ancestor == sourceSliced[i];
      d := i;
      LastMatchIsLowest(t, source, dest, i, j);
    }

    /** One UpdateQuota.  It makes exactly the writes of the route up to the first denied one, and it
        is Complete only if none was denied. */
    method Reconcile(source: Name, dest: Name, amount: ResourceList) returns (phase: Phase, writes: nat, ghost route: Route)
      requires Ready() && source in display && dest in display
      modifies this`world
      ensures Ready()
      ensures old(IsRoute(world.tree, source, dest, route)) && old(OnTree(world.tree, route))
      ensures writes <= route.Length() && world == After(old(world), route, amount, writes)
      ensures PassedUpTo(old(world), observed, used, route, amount, writes)
      ensures phase == if writes == route.Length() then Complete else Error
      ensures phase == Error ==> !Passes(old(world), observed, used, route, amount, writes)
    {
      hide IsTree, After, Passes, OnTree, Ready, Path, LastMatch, Reversed, Valid, IsLowestCommon, Route.Stop, PassedUpTo, Tree.Nodes;
      NothingPassed(world, observed, used);
      ghost var w, t := world, world.tree;
      var ancestor;
      ghost var d;
      ancestor, d := FindAncestor(source, dest);
      route := RouteAlong(Path(t, source), Path(t, dest), d);
      RouteOnTree(t, source, dest, d);
      AfterStep(w, route, amount, 0);
      var ok, done := true, 0;
      if source == ancestor {
        var list := SnsListDown(ancestor, dest, d);
        ok, done := MoveDown(list, amount, w, route);
      } else if dest == ancestor {
        var list := SnsListUp(source, ancestor, d);
        ok, done := MoveUp(list, amount, w, route);
      } else {
        var up := SnsListUp(source, ancestor, d);
        ok, done := MoveUp(up, amount, w, route);
        if ok {
          var down := SnsListDown(ancestor, dest, d);
          ok, done := MoveDown(down, amount, w, route);
          done := |up| + done;
        }
      }
      writes := done;
      phase := if ok then Complete else Error;
    }
  }

  // ---------- what a run of the controller keeps ----------

  /** However many writes an UpdateQuota made before it stopped, the hierarchy is sound. */
  lemma StoppedAnywhereSound(w: World, observed: set<Resource>, used: map<Name, ResourceList>,
                             route: Route, amount: ResourceList, k: nat)
    requires Valid(w, observed) && Sound(w, observed) && OnTree(w.tree, route) && k <= route.Length()
    requires PassedUpTo(w, observed, used, route, amount, k)
    ensures Valid(After(w, route, amount, k), observed) && Sound(After(w, route, amount, k), observed)
    ensures exists ws, ops :: Run(observed, ws, ops) && |ops| == k && ws[0] == w && ws[k] == After(w, route, amount, k)
  {
    var ws, ops := RouteRun(w, observed, used, route, amount, k);
    RunKeepsSound(observed, ws, ops, k);
  }

  /** A write that passed leaves no quantity of the written quota below what is used there. */
  lemma PassedCoversUsage(w: World, observed: set<Resource>, used: map<Name, ResourceList>,
                          route: Route, amount: ResourceList, i: nat)
    requires Valid(w, observed) && OnTree(w.tree, route) && i < route.Length() && Passes(w, observed, used, route, amount, i)
    ensures route.Written(i) in w.quota
    ensures var n := route.Written(i);
            var quota := After(w, route, amount, i + 1).quota[n];
            n in used ==> forall r :: r in quota ==> Get(used[n], r) <= quota[r]
  {
    hide IsTree, After, OnTree, AdmitsQuota, Free, Valid;
    AfterStep(w, route, amount, i + 1);
  }

  lemma EmptyRun(observed: set<Resource>, w: World)
    ensures Run(observed, [w], [])
  {
  }

  lemma ExtendRun(observed: set<Resource>, ws: seq<World>, ops: seq<Op>, op: Op, w: World)
    returns (ws': seq<World>, ops': seq<Op>)
    requires Run(observed, ws, ops) && Valid(ws[|ops|], observed) && Step(observed, ws[|ops|], op, w)
    ensures ws' == ws + [w] && ops' == ops + [op] && Run(observed, ws', ops')
  {
    hide Valid, Step;
    ws', ops' := ws + [w], ops + [op];
    forall i | 0 <= i < |ops'| && Valid(ws'[i], observed) ensures Step(observed, ws'[i], ops'[i], ws'[i + 1]) {
      assert i < |ops| ==> ws'[i] == ws[i] && ws'[i + 1] == ws[i + 1] && ops'[i] == ops[i];
    }
  }

  /** The writes of an UpdateQuota are a run of admitted updates. */
  lemma {:induction false} RouteRun(w: World, observed: set<Resource>, used: map<Name, ResourceList>,
                                    route: Route, amount: ResourceList, k: nat)
    returns (ws: seq<World>, ops: seq<Op>)
    requires Valid(w, observed) && OnTree(w.tree, route) && k <= route.Length()
    requires PassedUpTo(w, observed, used, route, amount, k)
    ensures |ws| == k + 1 && |ops| == k && ws[0] == w && ws[k] == After(w, route, amount, k)
    ensures Run(observed, ws, ops)
  {
    hide IsTree, After, AdmitsUpdate, OnTree, Run;
    AfterStep(w, route, amount, k);
    if k == 0 {
      ws, ops := [w], [];
      EmptyRun(observed, w);
      return;
    }
    var ws', ops' := RouteRun(w, observed, used, route, amount, k - 1);
    var v, n := ws'[k - 1], route.Written(k - 1);
    var op := Update(n, Shifted(v.quota[n], amount, route.Sign(k - 1)), Used(used, n));
    WrittenHasParent(w.tree, route, k - 1);
    assert Passes(w, observed, used, route, amount, k - 1);
    ws, ops := ExtendRun(observed, ws', ops', op, After(w, route, amount, k));
  }
}
