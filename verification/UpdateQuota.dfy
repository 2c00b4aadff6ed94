/** UpdateQuota: moving resources between two namespaces as a sequence of separate quota writes
    along source -> lowest common ancestor -> destination.

    Every single write hands free quota from one stop of the route to the next, whichever of the
    two namespaces it writes.  Invariants over every prefix, conservation and all-or-nothing
    admission follow from that.
 */
module UpdateQuota {
  import opened Hierarchy
  import opened Resources
  import opened Quota
  import opened Admission
  import opened DisplayName

  // ---------- routes ----------

  /** The namespaces that lose quota, lowest first; the common ancestor, which is not written; and
      the namespaces that gain quota, highest first. */
  datatype Route = Route(up: seq<Name>, top: Name, down: seq<Name>) {
    function Length(): nat {
      |up| + |down|
    }

    function Stop(i: nat): Name
      requires i <= Length()
    {
      if i < |up| then up[i] else if i == |up| then top else down[i - |up| - 1]
    }

    /** The namespace written by write `i`. */
    function Written(i: nat): Name
      requires i < Length()
    {
      if i < |up| then up[i] else down[i - |up|]
    }

    function Sign(i: nat): int {
      if i < |up| then -1 else 1
    }
  }

  ghost predicate OnTree(t: Tree, route: Route) {
    && route.Stop(0) in t.Nodes()
    && (forall i :: 0 <= i < |route.up| ==> route.up[i] in t.parent && t.parent[route.up[i]] == route.Stop(i + 1))
    && (forall i :: 0 <= i < |route.down| ==>
          route.down[i] in t.parent && t.parent[route.down[i]] == route.Stop(|route.up| + i))
    && (forall i :: 0 < i <= route.Length() ==> route.Stop(i) in t.Nodes() && route.Stop(i) != route.Stop(0))
  }

  /** The route along two root-to-node paths that agree up to index `d`. */
  function RouteAlong(p: seq<Name>, q: seq<Name>, d: nat): Route
    requires d < |p| && d < |q|
  {
    Route(Reversed(p[d + 1..]), p[d], q[d + 1..])
  }

  lemma RouteStops(p: seq<Name>, q: seq<Name>, d: nat, i: nat)
    requires d < |p| && d < |q| && i <= RouteAlong(p, q, d).Length()
    ensures RouteAlong(p, q, d).Stop(i) ==
            if i <= |p| - 1 - d then p[|p| - 1 - i] else q[d + i - (|p| - 1 - d)]
  {
  }

  lemma RouteStopInTree(t: Tree, a: Name, b: Name, d: nat, i: nat)
    requires IsTree(t) && a in t.Nodes() && b in t.Nodes()
    requires LastMatch(Path(t, a), Path(t, b), d, d)
    requires i <= RouteAlong(Path(t, a), Path(t, b), d).Length()
    ensures RouteAlong(Path(t, a), Path(t, b), d).Stop(i) in t.Nodes()
    ensures i > 0 ==> RouteAlong(Path(t, a), Path(t, b), d).Stop(i) != a
  {
    hide IsTree, Path;
    var p, q := Path(t, a), Path(t, b);
    PathShape(t, a);
    PathShape(t, b);
    RouteStops(p, q, d, i);
    if i <= |p| - 1 - d {
      PrefixIsPath(t, a, |p| - 1 - i);
    } else {
      PrefixIsPath(t, b, d + i - (|p| - 1 - d));
      if d < |p| - 1 {
        assert p[d + 1..][|p| - 2 - d] == a;
        assert a !in q;
      }
    }
  }

  /** Consecutive stops are linked in the tree, and the route runs from `a` to `b`. */
  lemma RouteOnTree(t: Tree, a: Name, b: Name, d: nat)
    requires IsTree(t) && a in t.Nodes() && b in t.Nodes()
    requires LastMatch(Path(t, a), Path(t, b), d, d)
    ensures OnTree(t, RouteAlong(Path(t, a), Path(t, b), d))
    ensures RouteAlong(Path(t, a), Path(t, b), d).Stop(0) == a
    ensures var r := RouteAlong(Path(t, a), Path(t, b), d); r.Stop(r.Length()) == b
  {
    hide IsTree, Path;
    var p, q := Path(t, a), Path(t, b);
    var route := RouteAlong(p, q, d);
    RouteEnds(t, a, b, d);
    forall i: nat | i <= route.Length()
      ensures route.Stop(i) in t.Nodes() && (i > 0 ==> route.Stop(i) != a)
    {
      RouteStopInTree(t, a, b, d, i);
    }
    forall i | 0 <= i < |route.up|
      ensures route.up[i] in t.parent && t.parent[route.up[i]] == route.Stop(i + 1)
    {
      RouteStops(p, q, d, i + 1);
      PathEdge(t, a, |p| - 2 - i);
    }
    forall i | 0 <= i < |route.down|
      ensures route.down[i] in t.parent && t.parent[route.down[i]] == route.Stop(|route.up| + i)
    {
      RouteDownLink(t, a, b, d, i);
    }
  }

  lemma RouteDownLink(t: Tree, a: Name, b: Name, d: nat, i: nat)
    requires IsTree(t) && a in t.Nodes() && b in t.Nodes()
    requires LastMatch(Path(t, a), Path(t, b), d, d) && i < |RouteAlong(Path(t, a), Path(t, b), d).down|
    ensures var r := RouteAlong(Path(t, a), Path(t, b), d);
            r.down[i] in t.parent && t.parent[r.down[i]] == r.Stop(|r.up| + i)
  {
    hide IsTree, Path;
    var p, q := Path(t, a), Path(t, b);
    RouteStops(p, q, d, |p| - 1 - d + i);
    PathEdge(t, b, d + i);
  }

  lemma RouteEnds(t: Tree, a: Name, b: Name, d: nat)
    requires IsTree(t) && a in t.Nodes() && b in t.Nodes()
    requires LastMatch(Path(t, a), Path(t, b), d, d)
    ensures RouteAlong(Path(t, a), Path(t, b), d).Stop(0) == a
    ensures var r := RouteAlong(Path(t, a), Path(t, b), d); r.Stop(r.Length()) == b
  {
    hide IsTree, Path;
    PathShape(t, a);
    PathShape(t, b);
    RouteStops(Path(t, a), Path(t, b), d, 0);
    RouteStops(Path(t, a), Path(t, b), d, RouteAlong(Path(t, a), Path(t, b), d).Length());
  }

  // ---------- the state after a number of writes ----------

  ghost function Shift(w: World, n: Name, amount: ResourceList, sign: int): World
    requires n in w.quota
  {
    Write(w, n, Shifted(w.quota[n], amount, sign))
  }

  ghost function After(w: World, route: Route, amount: ResourceList, k: nat): (w': World)
    requires w.quota.Keys == w.tree.Nodes() && OnTree(w.tree, route) && k <= route.Length()
    ensures w'.tree == w.tree && w'.quota.Keys == w.quota.Keys
    ensures forall n :: n in w.quota ==> w'.quota[n].Keys == w.quota[n].Keys
  {
    if k == 0 then w
    else
      var v := After(w, route, amount, k - 1);
      Shift(v, route.Written(k - 1), amount, route.Sign(k - 1))
  }

  /** Each write hands `amount` of free quota from one stop to the next. */
  lemma ShiftFree(w: World, route: Route, amount: ResourceList, i: nat, x: Name, r: Resource)
    requires IsTree(w.tree) && w.quota.Keys == w.tree.Nodes() && OnTree(w.tree, route) && i < route.Length()
    requires x in w.quota && forall n :: n in w.quota ==> r in w.quota[n]
    ensures route.Written(i) in w.tree.parent
    ensures Free(Shift(w, route.Written(i), amount, route.Sign(i)), x, r) ==
            Free(w, x, r)
            - (if x == route.Stop(i) then Get(amount, r) else 0)
            + (if x == route.Stop(i + 1) then Get(amount, r) else 0)
  {
    hide Free, IsTree;
    var n := route.Written(i);
    assert w.tree.parent[n] == if i < |route.up| then route.Stop(i + 1) else route.Stop(i);
    WriteFree(w, n, Shifted(w.quota[n], amount, route.Sign(i)), x, r);
  }

  lemma AfterStep(w: World, route: Route, amount: ResourceList, k: nat)
    requires w.quota.Keys == w.tree.Nodes() && OnTree(w.tree, route) && k <= route.Length()
    ensures k == 0 ==> After(w, route, amount, k) == w
    ensures k > 0 ==> route.Written(k - 1) in w.quota
    ensures k > 0 ==> After(w, route, amount, k) ==
                      Shift(After(w, route, amount, k - 1), route.Written(k - 1), amount, route.Sign(k - 1))
  {
  }

  /** After `k` writes, exactly the start of the route has given and stop `k` has received. */
  lemma {:induction false} AfterFree(w: World, route: Route, amount: ResourceList, k: nat, x: Name, r: Resource)
    requires IsTree(w.tree) && w.quota.Keys == w.tree.Nodes() && OnTree(w.tree, route) && k <= route.Length()
    requires x in w.quota && forall n :: n in w.quota ==> r in w.quota[n]
    ensures Free(After(w, route, amount, k), x, r) ==
            Free(w, x, r)
            - (if x == route.Stop(0) then Get(amount, r) else 0)
            + (if x == route.Stop(k) then Get(amount, r) else 0)
  {
    hide Free, IsTree, Shift, OnTree, After, Get, Tree.Nodes;
    AfterStep(w, route, amount, k);
    if k > 0 {
      AfterFree(w, route, amount, k - 1, x, r);
      ShiftFree(After(w, route, amount, k - 1), route, amount, k - 1, x, r);
    }
  }

  // ---------- admission of the writes ----------

  /** The quota checks admit write `k` in the state that the earlier writes left. */
  ghost predicate Admitted(w: World, observed: set<Resource>, route: Route, amount: ResourceList, k: nat)
    requires Valid(w, observed) && OnTree(w.tree, route) && k < route.Length()
  {
    var v := After(w, route, amount, k);
    AdmitsQuota(v, observed, route.Written(k), Shifted(v.quota[route.Written(k)], amount, route.Sign(k)))
  }

  /** Non-negative free quota in a subtree already makes its quota non-negative: quota adds up from the leaves. */
  lemma {:induction false} FreeMeansQuota(w: World, observed: set<Resource>, n: Name, r: Resource)
    requires Valid(w, observed) && n in w.quota && r in observed
    requires forall x :: x in Subtree(w.tree, n) ==> Free(w, x, r) >= 0
    ensures Get(w.quota[n], r) >= 0
    decreases Subtree(w.tree, n)
  {
    hide Sum, IsTree;
    forall c | c in w.tree.parent && w.tree.parent[c] == n ensures Get(w.quota[c], r) >= 0 {
      ChildSubtree(w.tree, c);
      FreeMeansQuota(w, observed, c, r);
    }
    AllocatedNonNegative(w, observed, n, r);
    UnderSelf(w.tree, n);
    assert Free(w, n, r) >= 0;
  }

  /** The start of the route has the amount, and stop `k` is not overdrawn by receiving it.  The second
      half only matters for negative amounts. */
  ghost predicate CanReach(w: World, observed: set<Resource>, route: Route, amount: ResourceList, k: nat)
    requires Valid(w, observed) && OnTree(w.tree, route) && k <= route.Length()
  {
    forall r :: r in observed ==>
                  && Free(w, route.Stop(0), r) - Get(amount, r) >= 0
                  && Free(w, route.Stop(k), r) + Get(amount, r) >= 0
  }

  /** What a caller can check before asking for the move. */
  ghost predicate Passable(w: World, observed: set<Resource>, route: Route, amount: ResourceList)
    requires Valid(w, observed) && OnTree(w.tree, route)
  {
    forall k: nat :: 0 < k <= route.Length() ==> CanReach(w, observed, route, amount, k)
  }

  /** The state after `k` writes is sound exactly when the start can give and stop `k` can take. */
  lemma AfterSoundIff(w: World, observed: set<Resource>, route: Route, amount: ResourceList, k: nat)
    requires Valid(w, observed) && Sound(w, observed) && OnTree(w.tree, route) && k <= route.Length()
    ensures Valid(After(w, route, amount, k), observed)
    ensures Sound(After(w, route, amount, k), observed) <==>
            k == 0 || CanReach(w, observed, route, amount, k)
  {
    hide Free, IsTree, Shift, OnTree, After;
    AfterStep(w, route, amount, k);
    if k > 0 && Sound(After(w, route, amount, k), observed) {
      SoundAfterCanReach(w, observed, route, amount, k);
    }
    if k > 0 && CanReach(w, observed, route, amount, k) {
      CanReachSoundAfter(w, observed, route, amount, k);
    }
  }

  lemma SoundAfterCanReach(w: World, observed: set<Resource>, route: Route, amount: ResourceList, k: nat)
    requires Valid(w, observed) && OnTree(w.tree, route) && 0 < k <= route.Length()
    requires Valid(After(w, route, amount, k), observed) && Sound(After(w, route, amount, k), observed)
    ensures CanReach(w, observed, route, amount, k)
  {
    hide Free, IsTree, Shift, After;
    var v := After(w, route, amount, k);
    var s, e := route.Stop(0), route.Stop(k);
    forall r | r in observed
      ensures Free(w, s, r) - Get(amount, r) >= 0 && Free(w, e, r) + Get(amount, r) >= 0
    {
      AfterFree(w, route, amount, k, s, r);
      AfterFree(w, route, amount, k, e, r);
      assert s in v.quota && e in v.quota;
    }
  }

  lemma CanReachSoundAfter(w: World, observed: set<Resource>, route: Route, amount: ResourceList, k: nat)
    requires Valid(w, observed) && Sound(w, observed) && OnTree(w.tree, route) && k <= route.Length()
    requires Valid(After(w, route, amount, k), observed)
    requires CanReach(w, observed, route, amount, k)
    ensures Sound(After(w, route, amount, k), observed)
  {
    hide Free, IsTree, Shift, After, OnTree;
    var v := After(w, route, amount, k);
    forall x, r | x in v.quota && r in observed ensures Free(v, x, r) >= 0 {
      AfterFree(w, route, amount, k, x, r);
      assert Free(w, x, r) >= 0;
    }
    forall x, r | x in v.quota && r in observed ensures Get(v.quota[x], r) >= 0 {
      FreeMeansQuota(v, observed, x, r);
    }
  }

  /** Starting sound, write `k` is admitted exactly when the state after it is sound. */
  lemma AdmittedIffSound(w: World, observed: set<Resource>, route: Route, amount: ResourceList, k: nat)
    requires Uniform(w, observed) && OnTree(w.tree, route) && k < route.Length()
    requires Valid(After(w, route, amount, k), observed) && Sound(After(w, route, amount, k), observed)
    ensures Valid(After(w, route, amount, k + 1), observed)
    ensures Admitted(w, observed, route, amount, k) <==> Sound(After(w, route, amount, k + 1), observed)
  {
    hide Free, IsTree, Sound, AdmitsQuota, After, Route.Stop, Tree.Nodes;
    AfterStep(w, route, amount, k + 1);
    var v := After(w, route, amount, k);
    var n := route.Written(k);
    UpdateAdmissionExact(v, observed, n, Shifted(v.quota[n], amount, route.Sign(k)));
  }

  lemma {:induction false} AdmittedSoFarSound(w: World, observed: set<Resource>, route: Route, amount: ResourceList, k: nat)
    requires Uniform(w, observed) && Sound(w, observed) && OnTree(w.tree, route) && k <= route.Length()
    requires forall i: nat :: i < k ==> Admitted(w, observed, route, amount, i)
    ensures Valid(After(w, route, amount, k), observed) && Sound(After(w, route, amount, k), observed)
  {
    hide Free, IsTree, Sound, Admitted, OnTree, After;
    AfterStep(w, route, amount, k);
    if k > 0 {
      AdmittedSoFarSound(w, observed, route, amount, k - 1);
      AdmittedIffSound(w, observed, route, amount, k - 1);
    }
  }

  /** For amounts of any sign: every write of the route is admitted if and only if it is passable. */
  lemma AllAdmittedIff(w: World, observed: set<Resource>, route: Route, amount: ResourceList)
    requires Uniform(w, observed) && Sound(w, observed) && OnTree(w.tree, route)
    ensures (forall k: nat :: k < route.Length() ==> Admitted(w, observed, route, amount, k)) <==>
            Passable(w, observed, route, amount)
  {
    hide Free, IsTree, Admitted, OnTree, After, CanReach, Sound;
    if forall k: nat :: k < route.Length() ==> Admitted(w, observed, route, amount, k) {
      forall k: nat | 0 < k <= route.Length() ensures CanReach(w, observed, route, amount, k) {
        AdmittedSoFarSound(w, observed, route, amount, k);
        AfterSoundIff(w, observed, route, amount, k);
      }
    }
    if Passable(w, observed, route, amount) {
      forall k: nat | k < route.Length() ensures Admitted(w, observed, route, amount, k) {
        AfterSoundIff(w, observed, route, amount, k);
        AfterSoundIff(w, observed, route, amount, k + 1);
        AdmittedIffSound(w, observed, route, amount, k);
      }
    }
  }

  lemma AnyStopCanReceive(w: World, observed: set<Resource>, route: Route, amount: ResourceList, k: nat)
    requires Valid(w, observed) && Sound(w, observed) && OnTree(w.tree, route) && 0 < k <= route.Length()
    requires forall r :: r in observed ==> Get(amount, r) >= 0
    requires CanReach(w, observed, route, amount, 1)
    ensures CanReach(w, observed, route, amount, k)
  {
    hide Free, IsTree;
    assert route.Stop(k) in w.quota;
  }

  /** All or nothing: for amounts that are not negative, the first write decides for the whole route. */
  lemma FirstWriteDecides(w: World, observed: set<Resource>, route: Route, amount: ResourceList)
    requires Uniform(w, observed) && Sound(w, observed) && OnTree(w.tree, route) && route.Length() > 0
    requires forall r :: r in observed ==> Get(amount, r) >= 0
    requires Admitted(w, observed, route, amount, 0)
    ensures forall k: nat :: k < route.Length() ==> Admitted(w, observed, route, amount, k)
  {
    hide Free, IsTree, Admitted, After, OnTree, CanReach, Sound;
    AfterSoundIff(w, observed, route, amount, 0);
    AdmittedIffSound(w, observed, route, amount, 0);
    AfterSoundIff(w, observed, route, amount, 1);
    forall k: nat | 0 < k <= route.Length() ensures CanReach(w, observed, route, amount, k) {
      AnyStopCanReceive(w, observed, route, amount, k);
    }
    AllAdmittedIff(w, observed, route, amount);
  }

  /** Conservation: the completed move takes `amount` from the free quota of the source, gives it to
      the destination and leaves every other namespace's free quota as it was. */
  lemma CompletedMoveConserves(w: World, observed: set<Resource>, a: Name, b: Name, d: nat, amount: ResourceList,
                               x: Name, r: Resource)
    requires Valid(w, observed) && a in w.quota && b in w.quota && x in w.quota && r in observed
    requires LastMatch(Path(w.tree, a), Path(w.tree, b), d, d)
    ensures OnTree(w.tree, RouteAlong(Path(w.tree, a), Path(w.tree, b), d))
    ensures var route := RouteAlong(Path(w.tree, a), Path(w.tree, b), d);
            Free(After(w, route, amount, route.Length()), x, r) ==
            Free(w, x, r) - (if x == a then Get(amount, r) else 0) + (if x == b then Get(amount, r) else 0)
  {
    hide Free, IsTree, After;
    RouteOnTree(w.tree, a, b, d);
    var route := RouteAlong(Path(w.tree, a), Path(w.tree, b), d);
    AfterFree(w, route, amount, route.Length(), x, r);
  }
}
