/** The quota admission checks of Subnamespace creates and updates, and what every run of
    admitted writes keeps.
 */
module Admission {
  import opened Hierarchy
  import opened Listings
  import opened Moves
  import opened Resources
  import opened Quota

  // ---------- what the checks read ----------

  /** The Hard maps of the listed namespaces' quota objects. */
  function Hards(w: World, kids: seq<Name>): (hards: seq<ResourceList>)
    requires forall k :: k in kids ==> k in w.quota
    ensures |hards| == |kids| && forall i :: 0 <= i < |kids| ==> hards[i] == w.quota[kids[i]]
  {
    if kids == [] then [] else Hards(w, kids[..|kids| - 1]) + [w.quota[kids[|kids| - 1]]]
  }

  /** Collects the quota objects of the listed namespaces. */
  method QuotaObjects(w: World, kids: seq<Name>) returns (objects: seq<ResourceList>)
    requires forall k :: k in kids ==> k in w.quota
    ensures objects == Hards(w, kids)
  {
    objects := [];
    for i := 0 to |kids|
      invariant |objects| == i && forall j :: 0 <= j < i ==> objects[j] == w.quota[kids[j]]
    {
      objects := objects + [w.quota[kids[i]]];
    }
  }

  ghost predicate AllEmpty(objects: seq<ResourceList>) {
    forall j :: 0 <= j < |objects| ==> objects[j] == map[]
  }

  /** Adds up the Hard maps of quota objects, object by object and resource by resource. */
  method QuotaObjectsTotal(objects: seq<ResourceList>) returns (total: ResourceList)
    ensures forall r :: Get(total, r) == Total(objects, r)
    ensures total == map[] <==> AllEmpty(objects)
  {
    total := map[];
    for i := 0 to |objects|
      invariant forall r :: Get(total, r) == Total(objects[..i], r)
      invariant total == map[] <==> forall j :: 0 <= j < i ==> objects[j] == map[]
    {
      var hard := objects[i];
      ghost var before := total;
      var todo := hard.Keys;
      while todo != {}
        invariant todo <= hard.Keys
        invariant forall r :: Get(total, r) == Get(before, r) + (if r in hard && r !in todo then hard[r] else 0)
        invariant total.Keys == before.Keys + (hard.Keys - todo)
        decreases todo
      {
        var r :| r in todo;
        total := total[r := if r in total then total[r] + hard[r] else hard[r]];
        todo := todo - {r};
      }
      assert objects[..i + 1] == objects[..i] + [hard];
      assert objects[..i + 1][..i] == objects[..i];
      assert total == map[] <==> before == map[] && hard == map[] by {
        assert total == map[] <==> total.Keys == {};
        assert before == map[] <==> before.Keys == {};
        assert hard == map[] <==> hard.Keys == {};
      }
    }
    assert objects[..|objects|] == objects;
  }

  /** Any listing of the children adds up to what is allocated to them. */
  lemma ListingTotal(w: World, n: Name, kids: seq<Name>, r: Resource)
    requires w.tree.parent.Keys <= w.quota.Keys && Lists(kids, w.tree.Children(n))
    requires forall k :: k in kids ==> k in w.quota
    ensures Total(Hards(w, kids), r) == Allocated(w, n, r)
  {
    hide Sum;
    PartialTotal(w, kids, r, |kids|);
    assert kids[..|kids|] == kids;
    assert QuotasOf(w, kids, r) == ChildQuotas(w, n, r);
  }

  ghost function QuotasOf(w: World, kids: seq<Name>, r: Resource): map<Name, int>
    requires forall k :: k in kids ==> k in w.quota
  {
    map c | c in kids :: Get(w.quota[c], r)
  }

  lemma {:induction false} PartialTotal(w: World, kids: seq<Name>, r: Resource, i: nat)
    requires forall k :: k in kids ==> k in w.quota
    requires forall i, j :: 0 <= i < j < |kids| ==> kids[i] != kids[j]
    requires i <= |kids|
    ensures Total(Hards(w, kids[..i]), r) == Sum(QuotasOf(w, kids[..i], r))
  {
    hide Sum, QuotasOf, Hards, Total;
    if i == 0 {
      NothingYet(w, r);
      assert kids[..0] == [];
    } else {
      PartialTotal(w, kids, r, i - 1);
      assert kids[..i] == kids[..i - 1] + [kids[i - 1]];
      OneMore(w, kids[..i - 1], kids[i - 1], r);
    }
  }

  lemma NothingYet(w: World, r: Resource)
    ensures Total(Hards(w, []), r) == Sum(QuotasOf(w, [], r))
  {
    SumEmpty(QuotasOf(w, [], r));
  }

  lemma OneMore(w: World, kids: seq<Name>, k: Name, r: Resource)
    requires (forall k :: k in kids ==> k in w.quota) && k in w.quota && k !in kids
    ensures forall c :: c in kids + [k] ==> c in w.quota
    ensures Total(Hards(w, kids + [k]), r) == Total(Hards(w, kids), r) + Get(w.quota[k], r)
    ensures Sum(QuotasOf(w, kids + [k], r)) == Sum(QuotasOf(w, kids, r)) + Get(w.quota[k], r)
  {
    hide Sum;
    assert (kids + [k])[..|kids|] == kids;
    assert Hards(w, kids + [k])[..|kids|] == Hards(w, kids);
    var m := QuotasOf(w, kids, r);
    assert QuotasOf(w, kids + [k], r) == m[k := Get(w.quota[k], r)];
    SumSet(m, k, Get(w.quota[k], r));
  }

  // ---------- the checks ----------

  /** Every observed resource is given and none is negative. */
  ghost predicate ParamsGiven(observed: set<Resource>, l: ResourceList) {
    observed <= l.Keys && forall r :: r in observed ==> l[r] >= 0
  }

  ghost predicate ParentHasRoom(w: World, p: Name, l: ResourceList)
    requires w.tree.parent.Keys <= w.quota.Keys && p in w.quota
  {
    forall r :: r in w.quota[p] ==> Free(w, p, r) - Get(l, r) >= 0
  }

  ghost predicate ParentHasRoomForUpdate(w: World, n: Name, l: ResourceList)
    requires w.tree.parent.Keys <= w.quota.Keys && n in w.tree.parent && w.tree.parent[n] in w.quota
  {
    forall r :: r in l ==> Free(w, w.tree.parent[n], r) - l[r] + Get(w.quota[n], r) >= 0
  }

  ghost predicate HasNamingChild(w: World, n: Name)
    requires w.tree.parent.Keys <= w.quota.Keys
  {
    exists c :: c in w.tree.Children(n) && w.quota[c] != map[]
  }

  /** The check is skipped when the children's quotas name no resource at all. */
  ghost predicate CoversChildren(w: World, n: Name, l: ResourceList)
    requires w.tree.parent.Keys <= w.quota.Keys
  {
    HasNamingChild(w, n) ==>
      forall r :: r in l ==> l[r] - Allocated(w, n, r) >= 0
  }

  ghost predicate CoversUsage(l: ResourceList, used: ResourceList) {
    forall r :: r in l ==> l[r] - Get(used, r) >= 0
  }

  ghost predicate AdmitsCreate(w: World, observed: set<Resource>, n: Name, p: Name, l: ResourceList)
    requires Valid(w, observed)
  {
    n !in w.tree.Nodes() && p in w.tree.Nodes() && ParamsGiven(observed, l) && ParentHasRoom(w, p, l)
  }

  /** The quota part of the update check, without the live-usage comparison. */
  ghost predicate AdmitsQuota(w: World, observed: set<Resource>, n: Name, l: ResourceList)
    requires Valid(w, observed) && n in w.tree.parent
  {
    PathStep(w.tree, n);
    ParamsGiven(observed, l) && ParentHasRoomForUpdate(w, n, l) && CoversChildren(w, n, l)
  }

  ghost predicate AdmitsUpdate(w: World, observed: set<Resource>, n: Name, l: ResourceList, used: ResourceList)
    requires Valid(w, observed) && n in w.tree.parent
  {
    AdmitsQuota(w, observed, n, l) && CoversUsage(l, used)
  }

  method ValidateParams(observed: set<Resource>, l: ResourceList) returns (ok: bool)
    ensures ok <==> forall r :: r in observed ==> r in l && l[r] >= 0
  {
    ok := true;
    var todo := observed;
    while todo != {}
      invariant todo <= observed
      invariant ok <==> forall r :: r in observed && r !in todo ==> r in l && l[r] >= 0
      decreases todo
    {
      var r :| r in todo;
      todo := todo - {r};
      if r !in l || l[r] < 0 {
        ok := false;
      }
    }
  }

  method ValidateParentHasRoom(w: World, p: Name, l: ResourceList, siblings: seq<Name>) returns (ok: bool)
    requires w.tree.parent.Keys <= w.quota.Keys && p in w.quota && Lists(siblings, w.tree.Children(p))
    ensures ok <==> forall r :: r in w.quota[p] ==> Get(l, r) <= Free(w, p, r)
  {
    hide Sum, Total, Hards;
    assert forall k :: k in siblings ==> k in w.tree.Children(p);
    var objects := QuotaObjects(w, siblings);
    var taken := QuotaObjectsTotal(objects);
    forall r ensures Get(taken, r) == Allocated(w, p, r) {
      ListingTotal(w, p, siblings, r);
    }
    var todo := w.quota[p].Keys;
    while todo != {}
      invariant todo <= w.quota[p].Keys
      invariant forall r :: r in w.quota[p] && r !in todo ==> Free(w, p, r) - Get(l, r) >= 0
      decreases todo
    {
      var r :| r in todo;
      todo := todo - {r};
      var parent := w.quota[p][r];
      parent := parent - Get(taken, r);
      parent := parent - Get(l, r);
      if parent < 0 {
        return false;
      }
    }
    return true;
  }

  method ValidateUpdateRequest(w: World, n: Name, l: ResourceList, used: ResourceList, siblings: seq<Name>) returns (ok: bool)
    requires w.tree.parent.Keys <= w.quota.Keys && n in w.tree.parent && w.tree.parent[n] in w.quota
    requires Lists(siblings, w.tree.Children(w.tree.parent[n]))
    ensures ok <==> forall r :: r in l ==> l[r] - Get(w.quota[n], r) <= Free(w, w.tree.parent[n], r) && Get(used, r) <= l[r]
  {
    hide Sum, Total, Hards;
    var p := w.tree.parent[n];
    assert forall k :: k in siblings ==> k in w.tree.Children(p);
    var objects := QuotaObjects(w, siblings);
    var taken := QuotaObjectsTotal(objects);
    forall r ensures Get(taken, r) == Allocated(w, p, r) {
      ListingTotal(w, p, siblings, r);
    }
    var todo := l.Keys;
    while todo != {}
      invariant todo <= l.Keys
      invariant forall r :: r in l && r !in todo ==>
                  Free(w, p, r) - l[r] + Get(w.quota[n], r) >= 0 && l[r] - Get(used, r) >= 0
      decreases todo
    {
      var r :| r in todo;
      todo := todo - {r};
      var parent := Get(w.quota[p], r);
      parent := parent - Get(taken, r);
      parent := parent - l[r];
      parent := parent + Get(w.quota[n], r);
      if parent < 0 {
        return false;
      }
      if l[r] - Get(used, r) < 0 {
        return false;
      }
    }
    return true;
  }

  lemma NoneNamed(w: World, n: Name, children: seq<Name>, objects: seq<ResourceList>)
    requires w.tree.parent.Keys <= w.quota.Keys && Lists(children, w.tree.Children(n))
    requires |objects| == |children| && forall k :: k in children ==> k in w.quota
    requires forall i :: 0 <= i < |children| ==> objects[i] == w.quota[children[i]]
    ensures AllEmpty(objects) <==> !HasNamingChild(w, n)
  {
    if !AllEmpty(objects) {
      var j :| 0 <= j < |objects| && objects[j] != map[];
      assert children[j] in w.tree.Children(n) && w.quota[children[j]] != map[];
    }
  }

  method ValidateCoversChildren(w: World, n: Name, l: ResourceList, children: seq<Name>) returns (ok: bool)
    requires w.tree.parent.Keys <= w.quota.Keys && Lists(children, w.tree.Children(n))
    ensures ok <==> ((exists c :: c in w.tree.Children(n) && w.quota[c] != map[]) ==> forall r :: r in l ==> Allocated(w, n, r) <= l[r])
  {
    hide Sum, Total, Hards;
    assert forall k :: k in children ==> k in w.tree.Children(n);
    var objects := QuotaObjects(w, children);
    var given := QuotaObjectsTotal(objects);
    forall r ensures Get(given, r) == Allocated(w, n, r) {
      ListingTotal(w, n, children, r);
    }
    NoneNamed(w, n, children, objects);
    if given == map[] {
      return true;
    }
    var todo := l.Keys;
    while todo != {}
      invariant todo <= l.Keys
      invariant forall r :: r in l && r !in todo ==> l[r] - Allocated(w, n, r) >= 0
      decreases todo
    {
      var r :| r in todo;
      todo := todo - {r};
      if l[r] - Get(given, r) < 0 {
        return false;
      }
    }
    return true;
  }

  /** What an update does to the pool label, and whether the quota object exists.  `upper` says that the
      Subnamespace is now an upper pool. */
  datatype Change = Change(dropsLabel: bool, wasPool: bool, isPool: bool, upper: bool, parentPool: bool, hasObject: bool)

  /** An update of a regular Subnamespace that stays regular. */
  const REGULAR := Change(false, false, false, false, false, true)

  method ValidateResourceQuotaParams(observed: set<Resource>, l: ResourceList, isPool: bool, upper: bool) returns (ok: bool)
    ensures !isPool ==> (ok <==> forall r :: r in observed ==> r in l && l[r] >= 0)
    ensures isPool ==> (ok <==> !(upper && l == map[]))
  {
    if isPool {
      ok := !(upper && |l| == 0);
    } else {
      ok := ValidateParams(observed, l);
    }
  }

  /** What the request has to meet where a quota object is attached: the parent's room, live usage if the
      object is there to report any, and the children. */
  method ValidateOwner(w: World, n: Name, l: ResourceList, used: ResourceList, siblings: seq<Name>, children: seq<Name>,
                       hasObject: bool) returns (ok: bool)
    requires w.tree.parent.Keys <= w.quota.Keys && n in w.tree.parent && w.tree.parent[n] in w.quota
    requires Lists(siblings, w.tree.Children(w.tree.parent[n])) && Lists(children, w.tree.Children(n))
    ensures ok <==>
            && (hasObject ==>
                  forall r :: r in l ==> l[r] - Get(w.quota[n], r) <= Free(w, w.tree.parent[n], r) && Get(used, r) <= l[r])
            && (HasNamingChild(w, n) ==> forall r :: r in l ==> Allocated(w, n, r) <= l[r])
  {
    hide Lists, Free, Allocated;
    if hasObject {
      var fits := ValidateUpdateRequest(w, n, l, used, siblings);
      if !fits {
        return false;
      }
    }
    ok := ValidateCoversChildren(w, n, l, children);
  }

  /** The whole update check, pools included. */
  method HandleUpdate(w: World, observed: set<Resource>, n: Name, l: ResourceList, used: ResourceList,
                      siblings: seq<Name>, children: seq<Name>, ch: Change) returns (allowed: bool)
    requires Valid(w, observed) && n in w.tree.parent
    requires Lists(siblings, w.tree.Children(w.tree.parent[n])) && Lists(children, w.tree.Children(n))
    ensures w.tree.parent[n] in w.quota
    ensures allowed <==>
            && !ch.dropsLabel
            && !(ch.parentPool && ch.wasPool && !ch.isPool)
            && (!ch.wasPool && !ch.isPool ==> forall r :: r in observed ==> r in l && l[r] >= 0)
            && (!ch.wasPool && ch.isPool && ch.upper ==> l != map[])
            && ((!ch.isPool || ch.upper) && ch.hasObject ==>
                  forall r :: r in l ==> l[r] - Get(w.quota[n], r) <= Free(w, w.tree.parent[n], r) && Get(used, r) <= l[r])
            && ((!ch.isPool || ch.upper) && (exists c :: c in w.tree.Children(n) && w.quota[c] != map[]) ==>
                  forall r :: r in l ==> Allocated(w, n, r) <= l[r])
  {
    hide IsTree, Lists, Free, Allocated;
    PathStep(w.tree, n);
    if ch.dropsLabel {
      return false;
    }
    if ch.parentPool {
      if !ch.isPool && ch.wasPool {
        return false;
      }
    }
    if !ch.wasPool {
      var given := ValidateResourceQuotaParams(observed, l, ch.isPool, ch.upper);
      if !given {
        return false;
      }
    }
    if !ch.isPool || ch.upper {
      allowed := ValidateOwner(w, n, l, used, siblings, children, ch.hasObject);
      return;
    }
    return true;
  }

  /** For a regular Subnamespace this is the check that the quota results are about. */
  lemma RegularUpdate(w: World, observed: set<Resource>, n: Name, l: ResourceList, used: ResourceList)
    requires Valid(w, observed) && n in w.tree.parent && w.tree.parent[n] in w.quota
    ensures AdmitsUpdate(w, observed, n, l, used) <==>
            && (forall r :: r in observed ==> r in l && l[r] >= 0)
            && (forall r :: r in l ==> l[r] - Get(w.quota[n], r) <= Free(w, w.tree.parent[n], r) && Get(used, r) <= l[r])
            && (HasNamingChild(w, n) ==> forall r :: r in l ==> Allocated(w, n, r) <= l[r])
  {
    hide IsTree, Free, Allocated, HasNamingChild;
  }

  // ---------- what admission means ----------

  lemma NoChildrenNothingAllocated(w: World, n: Name, r: Resource)
    requires w.tree.parent.Keys <= w.quota.Keys && w.tree.Children(n) == {}
    ensures Allocated(w, n, r) == 0
  {
    hide Sum;
    assert forall c :: c in ChildQuotas(w, n, r) ==> c in w.tree.Children(n);
    SumEmpty(ChildQuotas(w, n, r));
  }

  /** A write to `n` is admitted exactly when, afterwards, `n` and its parent have no negative free
      quota and nothing given is negative.  This needs nothing of the state before. */
  lemma UpdateAdmittedIff(w: World, observed: set<Resource>, n: Name, l: ResourceList)
    requires Uniform(w, observed) && n in w.tree.parent && l.Keys == observed
    ensures w.tree.parent[n] in w.quota
    ensures AdmitsQuota(w, observed, n, l) <==>
            forall r :: r in observed ==>
                          && l[r] >= 0
                          && Free(Write(w, n, l), n, r) >= 0
                          && Free(Write(w, n, l), w.tree.parent[n], r) >= 0
  {
    hide Sum, Free, Allocated, IsTree;
    PathStep(w.tree, n);
    forall r | r in observed
      ensures Free(Write(w, n, l), n, r) == l[r] - Allocated(w, n, r)
      ensures Free(Write(w, n, l), w.tree.parent[n], r) == Free(w, w.tree.parent[n], r) - l[r] + Get(w.quota[n], r)
    {
      UpdateEnds(w, n, l, r);
    }
    if w.tree.Children(n) == {} {
      forall r ensures Allocated(w, n, r) == 0 {
        NoChildrenNothingAllocated(w, n, r);
      }
    } else if observed != {} {
      var c :| c in w.tree.Children(n);
      var r :| r in observed;
      assert r in w.quota[c];
    }
  }

  /** What the two ends of the written parent link have left. */
  lemma UpdateEnds(w: World, n: Name, l: ResourceList, r: Resource)
    requires IsTree(w.tree) && w.quota.Keys == w.tree.Nodes() && n in w.tree.parent
    ensures w.tree.parent[n] in w.quota
    ensures Free(Write(w, n, l), n, r) == Get(l, r) - Allocated(w, n, r)
    ensures Free(Write(w, n, l), w.tree.parent[n], r) == Free(w, w.tree.parent[n], r) - Get(l, r) + Get(w.quota[n], r)
  {
    hide Sum;
    PathStep(w.tree, n);
    ChildSubtree(w.tree, n);
    WriteFree(w, n, l, n, r);
    WriteFree(w, n, l, w.tree.parent[n], r);
  }

  lemma WriteSoundIff(w: World, observed: set<Resource>, n: Name, l: ResourceList)
    requires Valid(w, observed) && Sound(w, observed) && n in w.tree.parent && observed <= l.Keys
    ensures w.tree.parent[n] in w.quota && Valid(Write(w, n, l), observed)
    ensures Sound(Write(w, n, l), observed) <==>
            forall r :: r in observed ==>
                          && l[r] >= 0
                          && Free(Write(w, n, l), n, r) >= 0
                          && Free(Write(w, n, l), w.tree.parent[n], r) >= 0
  {
    hide Sum, Free, IsTree;
    PathStep(w.tree, n);
    WriteValid(w, observed, n, l);
    forall x, r | x in w.quota && r in observed && x != n && x != w.tree.parent[n]
      ensures Free(Write(w, n, l), x, r) == Free(w, x, r)
    {
      WriteFree(w, n, l, x, r);
    }
  }

  /** From a sound state the update check admits exactly the writes that leave the state sound. */
  lemma UpdateAdmissionExact(w: World, observed: set<Resource>, n: Name, l: ResourceList)
    requires Uniform(w, observed) && Sound(w, observed) && n in w.tree.parent && l.Keys == observed
    ensures Valid(Write(w, n, l), observed)
    ensures AdmitsQuota(w, observed, n, l) <==> Sound(Write(w, n, l), observed)
  {
    UpdateAdmittedIff(w, observed, n, l);
    WriteSoundIff(w, observed, n, l);
  }

  /** And with the live usage: admitted exactly when the state afterwards is sound and no quantity is below
      what is used. */
  lemma UpdateWithUsageExact(w: World, observed: set<Resource>, n: Name, l: ResourceList, used: ResourceList)
    requires Uniform(w, observed) && Sound(w, observed) && n in w.tree.parent && l.Keys == observed
    ensures Valid(Write(w, n, l), observed)
    ensures AdmitsUpdate(w, observed, n, l, used) <==>
            Sound(Write(w, n, l), observed) && forall r :: r in observed ==> Get(used, r) <= l[r]
  {
    hide IsTree, Sound, AdmitsQuota, Uniform;
    UpdateAdmissionExact(w, observed, n, l);
  }

  /** Quotas may name further resources: an admitted update still keeps the observed ones sound. */
  lemma UpdateKeepsSound(w: World, observed: set<Resource>, n: Name, l: ResourceList)
    requires Valid(w, observed) && Sound(w, observed) && n in w.tree.parent && AdmitsQuota(w, observed, n, l)
    ensures Valid(Write(w, n, l), observed) && Sound(Write(w, n, l), observed)
  {
    PathStep(w.tree, n);
    ChildSubtree(w.tree, n);
    WriteSoundIff(w, observed, n, l);
    forall r | r in observed
      ensures Free(Write(w, n, l), n, r) >= 0 && Free(Write(w, n, l), w.tree.parent[n], r) >= 0
    {
      WriteFree(w, n, l, n, r);
      WriteFree(w, n, l, w.tree.parent[n], r);
      assert r in l;
      if w.tree.Children(n) == {} {
        NoChildrenNothingAllocated(w, n, r);
      } else {
        var c :| c in w.tree.Children(n);
        assert r in w.quota[c];
      }
    }
  }

  // ---------- creates and deletes ----------

  function Created(w: World, n: Name, p: Name, l: ResourceList): World {
    World(Attach(w.tree, n, p), w.quota[n := l])
  }

  function Deleted(w: World, n: Name): World {
    World(RemoveLeaf(w.tree, n), w.quota - {n})
  }

  lemma CreateFree(w: World, n: Name, p: Name, l: ResourceList, x: Name, r: Resource)
    requires IsTree(w.tree) && w.quota.Keys == w.tree.Nodes() && n !in w.tree.Nodes() && p in w.tree.Nodes()
    requires x == n || x in w.quota
    ensures Free(Created(w, n, p, l), x, r) ==
            if x == n then Get(l, r) else Free(w, x, r) - (if x == p then Get(l, r) else 0)
  {
    forall c | c in w.tree.parent ensures w.tree.parent[c] != n {
      PathStep(w.tree, c);
    }
    CreateAllocated(w, n, p, l, x, r);
  }

  lemma CreateAllocated(w: World, n: Name, p: Name, l: ResourceList, x: Name, r: Resource)
    requires w.tree.parent.Keys <= w.quota.Keys && n !in w.quota && p != n
    requires forall c :: c in w.tree.parent ==> w.tree.parent[c] != n
    ensures Allocated(Created(w, n, p, l), x, r) ==
            if x == n then 0 else Allocated(w, x, r) + (if x == p then Get(l, r) else 0)
  {
    hide Sum;
    var w' := Created(w, n, p, l);
    if x == n {
      NoChildrenNothingAllocated(w', n, r);
    } else if x == p {
      assert ChildQuotas(w', x, r) == ChildQuotas(w, x, r)[n := Get(l, r)];
      SumSet(ChildQuotas(w, x, r), n, Get(l, r));
    } else {
      assert ChildQuotas(w', x, r) == ChildQuotas(w, x, r);
    }
  }

  lemma CreateValid(w: World, observed: set<Resource>, n: Name, p: Name, l: ResourceList)
    requires Valid(w, observed) && n !in w.tree.Nodes() && p in w.tree.Nodes() && observed <= l.Keys
    ensures Valid(Created(w, n, p, l), observed)
    ensures Uniform(w, observed) && l.Keys == observed ==> Uniform(Created(w, n, p, l), observed)
  {
    hide IsTree, Path;
    AddLeafPaths(w.tree, n, p);
  }

  /** From a sound state the create check admits exactly the creates that leave the state sound. */
  lemma CreateAdmissionExact(w: World, observed: set<Resource>, n: Name, p: Name, l: ResourceList)
    requires Uniform(w, observed) && Sound(w, observed)
    requires n !in w.tree.Nodes() && p in w.tree.Nodes() && l.Keys == observed
    ensures Valid(Created(w, n, p, l), observed)
    ensures AdmitsCreate(w, observed, n, p, l) <==> Sound(Created(w, n, p, l), observed)
  {
    hide Sum;
    CreateValid(w, observed, n, p, l);
    var w' := Created(w, n, p, l);
    if AdmitsCreate(w, observed, n, p, l) {
      CreateKeepsSound(w, observed, n, p, l);
    }
    if Sound(w', observed) {
      CreateSoundOnlyIfRoom(w, observed, n, p, l);
    }
  }

  lemma CreateSoundOnlyIfRoom(w: World, observed: set<Resource>, n: Name, p: Name, l: ResourceList)
    requires Uniform(w, observed) && n !in w.tree.Nodes() && p in w.tree.Nodes() && l.Keys == observed
    requires Valid(Created(w, n, p, l), observed) && Sound(Created(w, n, p, l), observed)
    ensures AdmitsCreate(w, observed, n, p, l)
  {
    hide Sum;
    var w' := Created(w, n, p, l);
    forall r | r in observed ensures l[r] >= 0 && Free(w, p, r) - Get(l, r) >= 0 {
      CreateFree(w, n, p, l, n, r);
      CreateFree(w, n, p, l, p, r);
      assert n in w'.quota && p in w'.quota;
      assert Free(w', n, r) >= 0 && Free(w', p, r) >= 0;
    }
  }

  lemma CreateKeepsSound(w: World, observed: set<Resource>, n: Name, p: Name, l: ResourceList)
    requires Valid(w, observed) && Sound(w, observed) && AdmitsCreate(w, observed, n, p, l)
    ensures Valid(Created(w, n, p, l), observed) && Sound(Created(w, n, p, l), observed)
  {
    hide Sum, Free, IsTree;
    CreateValid(w, observed, n, p, l);
    var w' := Created(w, n, p, l);
    forall x, r | x in w'.quota && r in observed ensures Get(w'.quota[x], r) >= 0 && Free(w', x, r) >= 0 {
      CreateFree(w, n, p, l, x, r);
    }
  }

  lemma DeleteFree(w: World, n: Name, x: Name, r: Resource)
    requires w.tree.parent.Keys <= w.quota.Keys && n in w.tree.parent && x in w.quota && x != n
    ensures Free(Deleted(w, n), x, r) ==
            Free(w, x, r) + (if x == w.tree.parent[n] then Get(w.quota[n], r) else 0)
  {
    hide Sum;
    var before, after := ChildQuotas(w, x, r), ChildQuotas(Deleted(w, n), x, r);
    if x == w.tree.parent[n] {
      assert before == after[n := Get(w.quota[n], r)];
      SumSet(after, n, Get(w.quota[n], r));
    } else {
      assert before == after;
    }
  }

  lemma DeleteValid(w: World, observed: set<Resource>, n: Name)
    requires Valid(w, observed) && n in w.tree.parent && w.tree.Children(n) == {}
    ensures Valid(Deleted(w, n), observed)
    ensures Uniform(w, observed) ==> Uniform(Deleted(w, n), observed)
  {
    RemoveLeafPaths(w.tree, n);
  }

  lemma DeleteKeepsSound(w: World, observed: set<Resource>, n: Name)
    requires Valid(w, observed) && Sound(w, observed) && n in w.tree.parent && w.tree.Children(n) == {}
    ensures Valid(Deleted(w, n), observed) && Sound(Deleted(w, n), observed)
  {
    hide Sum;
    DeleteValid(w, observed, n);
    var w' := Deleted(w, n);
    forall x, r | x in w'.quota && r in observed ensures Get(w'.quota[x], r) >= 0 && Free(w', x, r) >= 0 {
      DeleteFree(w, n, x, r);
    }
  }

  // ---------- runs ----------

  /** One admitted write.  Every write of an UpdateQuota is an `Update`, so a run in which any number
      of UpdateQuotas are interleaved and stopped anywhere is a run of these steps. */
  datatype Op =
    | Create(name: Name, under: Name, hard: ResourceList)
    | Update(name: Name, hard: ResourceList, used: ResourceList)
    | Delete(name: Name)

  ghost predicate Step(observed: set<Resource>, w: World, op: Op, w': World)
    requires Valid(w, observed)
  {
    match op
    case Create(n, p, l) => AdmitsCreate(w, observed, n, p, l) && w' == Created(w, n, p, l)
    case Update(n, l, used) => n in w.tree.parent && AdmitsUpdate(w, observed, n, l, used) && w' == Write(w, n, l)
    case Delete(n) => n in w.tree.parent && w.tree.Children(n) == {} && w' == Deleted(w, n)
  }

  ghost predicate Run(observed: set<Resource>, ws: seq<World>, ops: seq<Op>) {
    && |ws| == |ops| + 1
    && forall i :: 0 <= i < |ops| && Valid(ws[i], observed) ==> Step(observed, ws[i], ops[i], ws[i + 1])
  }

  lemma SoundAllocation(w: World, observed: set<Resource>, n: Name, r: Resource)
    requires Valid(w, observed) && Sound(w, observed) && n in w.quota && r in observed
    ensures 0 <= Allocated(w, n, r) <= Get(w.quota[n], r)
  {
    hide Sum, IsTree;
    AllocatedNonNegative(w, observed, n, r);
    assert Free(w, n, r) >= 0;
  }

  lemma StepKeepsSound(observed: set<Resource>, w: World, op: Op, w': World)
    requires Valid(w, observed) && Sound(w, observed) && Step(observed, w, op, w')
    ensures Valid(w', observed) && Sound(w', observed)
  {
    match op
    case Create(n, p, l) => CreateKeepsSound(w, observed, n, p, l);
    case Update(n, l, used) => UpdateKeepsSound(w, observed, n, l);
    case Delete(n) => DeleteKeepsSound(w, observed, n);
  }

  /** In every state of every run of admitted writes, each namespace has 0 <= allocated <= own quota. */
  lemma {:induction false} RunKeepsSound(observed: set<Resource>, ws: seq<World>, ops: seq<Op>, k: nat)
    requires Run(observed, ws, ops) && Valid(ws[0], observed) && Sound(ws[0], observed) && k < |ws|
    ensures Valid(ws[k], observed) && Sound(ws[k], observed)
    ensures forall n, r :: n in ws[k].quota && r in observed ==>
                             0 <= Allocated(ws[k], n, r) <= Get(ws[k].quota[n], r)
  {
    hide Sum, IsTree, Free, Step;
    if k > 0 {
      RunKeepsSound(observed, ws, ops, k - 1);
      StepKeepsSound(observed, ws[k - 1], ops[k - 1], ws[k]);
    }
    forall n, r | n in ws[k].quota && r in observed ensures 0 <= Allocated(ws[k], n, r) <= Get(ws[k].quota[n], r) {
      SoundAllocation(ws[k], observed, n, r);
    }
  }
}
