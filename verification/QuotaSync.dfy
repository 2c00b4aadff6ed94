/** One sync of a regular Subnamespace or upper pool: its quota object follows the spec, an object of
    the other kind does not get in the way, and the status splits the spec into allocated and free.
 */
module QuotaSync {
  import opened Resources

  datatype Object = Missing | Stored(hard: ResourceList)

  datatype Status = Status(handedOut: ResourceList, free: ResourceList)

  /** The limits that every namespace with a ClusterResourceQuota also gets. */
  const DEFAULT_HARD: ResourceList :=
    map["configmaps" := 100, "count/builds.build.openshift.io" := 100, "count/cronjobs.batch" := 100,
        "count/daemonsets.apps" := 100, "count/deployments.apps" := 100, "count/jobs.batch" := 100,
        "count/replicasets.apps" := 100, "count/routes.route.openshift.io" := 100, "secrets" := 100,
        "count/deploymentconfigs.apps.openshift.io" := 100, "count/buildconfigs.build.openshift.io" := 100,
        "count/serviceaccounts" := 100, "count/statefulsets.apps" := 100,
        "count/templates.template.openshift.io" := 100, "openshift.io/imagestreams" := 100]

  ghost predicate Zeroed(hard: ResourceList) {
    forall r :: r in hard ==> hard[r] == 0
  }

  ghost predicate DefaultOnly(hard: ResourceList) {
    forall r :: r in hard ==> r in DEFAULT_HARD
  }

  /** An object that limits nothing the Subnamespace asked for. */
  ghost predicate Harmless(o: Object) {
    o.Missing? || Zeroed(o.hard) || DefaultOnly(o.hard)
  }

  method IsZeroed(hard: ResourceList) returns (b: bool)
    ensures b <==> forall r :: r in hard ==> hard[r] == 0
  {
    var todo := hard.Keys;
    while todo != {}
      invariant todo <= hard.Keys && forall r :: r in hard && r !in todo ==> hard[r] == 0
      decreases todo
    {
      var r :| r in todo;
      if hard[r] != 0 {
        return false;
      }
      todo := todo - {r};
    }
    return true;
  }

  method IsDefault(hard: ResourceList) returns (b: bool)
    ensures b <==> forall r :: r in hard ==> r in DEFAULT_HARD
  {
    var todo := hard.Keys;
    while todo != {}
      invariant todo <= hard.Keys && forall r :: r in hard && r !in todo ==> r in DEFAULT_HARD
      decreases todo
    {
      var r :| r in todo;
      if r !in DEFAULT_HARD {
        return false;
      }
      todo := todo - {r};
    }
    return true;
  }

  /** Same resources with the same quantities. */
  method ResourceListEqual(a: ResourceList, b: ResourceList) returns (equal: bool)
    ensures equal <==> a == b
  {
    if |a| != |b| {
      return false;
    }
    var todo := a.Keys;
    while todo != {}
      invariant todo <= a.Keys && forall r :: r in a && r !in todo ==> r in b && b[r] == a[r]
      decreases todo
    {
      var r :| r in todo;
      if r !in b || a[r] != b[r] {
        return false;
      }
      todo := todo - {r};
    }
    SameSizeSameKeys(a, b);
    return true;
  }

  lemma SameSizeSameKeys(a: ResourceList, b: ResourceList)
    requires |a| == |b| && forall r :: r in a ==> r in b && b[r] == a[r]
    ensures a == b
  {
    assert |a.Keys| == |b.Keys|;
    if r :| r in b && r !in a {
      assert a.Keys <= b.Keys - {r};
      SubsetSize(a.Keys, b.Keys - {r});
      assert false;
    }
  }

  // ---------- allocated and free ----------

  /** What the children's specs add up to. */
  method AllocatedToChildren(specs: seq<ResourceList>) returns (handedOut: ResourceList)
    ensures forall r :: Get(handedOut, r) == Total(specs, r)
  {
    handedOut := map[];
    for i := 0 to |specs|
      invariant forall r :: Get(handedOut, r) == Total(specs[..i], r)
    {
      var hard := specs[i];
      ghost var before := handedOut;
      var todo := hard.Keys;
      while todo != {}
        invariant todo <= hard.Keys
        invariant forall r :: Get(handedOut, r) == Get(before, r) + (if r in hard && r !in todo then hard[r] else 0)
        decreases todo
      {
        var r :| r in todo;
        handedOut := handedOut[r := hard[r] + Get(handedOut, r)];
        todo := todo - {r};
      }
      assert specs[..i + 1][..i] == specs[..i];
    }
    assert specs[..|specs|] == specs;
  }

  method FreeToAllocate(spec: ResourceList, handedOut: ResourceList) returns (free: ResourceList)
    ensures free == map r | r in spec :: spec[r] - Get(handedOut, r)
  {
    free := map[];
    var todo := spec.Keys;
    while todo != {}
      invariant todo <= spec.Keys && free.Keys == spec.Keys - todo
      invariant forall r :: r in free ==> free[r] == spec[r] - Get(handedOut, r)
      decreases todo
    {
      var r :| r in todo;
      free := free[r := spec[r] - Get(handedOut, r)];
      todo := todo - {r};
    }
  }

  // ---------- the sync ----------

  class Subnamespace {
    var spec: ResourceList
    var rq: Object
    var crq: Object
    var status: Status

    constructor (spec: ResourceList, rq: Object, crq: Object, status: Status)
      ensures this.spec == spec && this.rq == rq && this.crq == crq && this.status == status
    {
      this.spec, this.rq, this.crq, this.status := spec, rq, crq, status;
    }

    function Kind(isRq: bool): Object
      reads this
    {
      if isRq then rq else crq
    }

    /** The quota object of that kind exists and is not zeroed. */
    ghost predicate Limits(isRq: bool)
      reads this
    {
      Kind(isRq).Stored? && !Zeroed(Kind(isRq).hard)
    }

    method Put(isRq: bool, o: Object)
      modifies this
      ensures Kind(isRq) == o && Kind(!isRq) == old(Kind(!isRq)) && spec == old(spec) && status == old(status)
    {
      if isRq {
        rq := o;
      } else {
        crq := o;
      }
    }

    /** Deletes a real quota object of the other kind, and no other. */
    method DropOther(isRq: bool)
      modifies this
      ensures Kind(isRq) == old(Kind(isRq)) && spec == old(spec) && status == old(status)
      ensures Harmless(Kind(!isRq))
      ensures Kind(!isRq) == if Harmless(old(Kind(!isRq))) then old(Kind(!isRq)) else Missing
    {
      var other := Kind(!isRq);
      if other.Stored? {
        var zeroed := IsZeroed(other.hard);
        var defaultOnly := IsDefault(other.hard);
        if !zeroed && !defaultOnly {
          Put(!isRq, Missing);
        }
      }
    }

    /** Creates the quota object, or fills a zeroed one.  A spec without resources is first filled with
        what the object reports as used; `requeue` says that nothing is reported yet. */
    method EnsureObject(isRq: bool, observed: ResourceList, used: Object) returns (requeue: bool)
      modifies this
      ensures status == old(status) && Kind(!isRq) == old(Kind(!isRq))
      ensures requeue <==> old(spec) == map[] && used.Missing?
      ensures spec == if old(spec) == map[] && used.Stored? then used.hard else old(spec)
      ensures var first := if old(Kind(isRq)).Missing? && old(spec) == map[] then Stored(observed) else old(Kind(isRq));
              Kind(isRq) == if !requeue && (first.Missing? || Zeroed(first.hard)) then Stored(spec) else first
    {
      if spec == map[] {
        if Kind(isRq).Missing? {
          Put(isRq, Stored(observed));
        }
        if used.Missing? {
          return true;
        }
        spec := used.hard;
      }
      var o := Kind(isRq);
      if o.Missing? {
        Put(isRq, Stored(spec));
      } else {
        var zeroed := IsZeroed(o.hard);
        if zeroed {
          Put(isRq, Stored(spec));
        }
      }
      return false;
    }

    /** Creates or updates the quota object of the right kind.  That `EnsureObject` asks to be called again
        is not passed on. */
    method SyncQuotaObject(isRq: bool, observed: ResourceList, used: Object)
      modifies this
      ensures status == old(status)
      ensures isRq ==> crq == old(crq)
      ensures !isRq ==> rq == if old(Limits(false)) && old(rq).Missing? then Stored(DEFAULT_HARD) else old(rq)
      ensures old(spec) != map[] ==> spec == old(spec) && Kind(isRq) == Stored(spec)
      ensures old(spec) == map[] && old(Limits(isRq)) ==> spec == map[] && Kind(isRq) == Stored(map[])
      ensures old(spec) == map[] && !old(Limits(isRq)) && used.Stored? ==>
                && spec == used.hard
                && (Kind(isRq) == Stored(spec) <==> old(Kind(isRq)).Stored? || Zeroed(observed) || observed == spec)
      ensures old(spec) == map[] && !old(Limits(isRq)) && used.Missing? ==>
                spec == map[] && Kind(isRq) == if old(Kind(isRq)).Stored? then old(Kind(isRq)) else Stored(observed)
    {
      var o := Kind(isRq);
      if o.Stored? {
        var zeroed := IsZeroed(o.hard);
        if !zeroed {
          if rq.Missing? {
            rq := Stored(DEFAULT_HARD);
          }
          Put(isRq, Stored(spec));
          return;
        }
      }
      var _ := EnsureObject(isRq, observed, used);
    }

    /** Writes the totals only if something differs from what is recorded. */
    method UpdateStatus(handedOut: ResourceList, free: ResourceList, sameChildren: bool)
      modifies this
      ensures status == Status(handedOut, free)
      ensures spec == old(spec) && rq == old(rq) && crq == old(crq)
    {
      var sameAllocated := ResourceListEqual(status.handedOut, handedOut);
      var sameFree := ResourceListEqual(status.free, free);
      if !sameChildren || !sameAllocated || !sameFree {
        status := Status(handedOut, free);
      }
    }

    /** From any prior mix of quota objects and any recorded status.  The status splits the spec that the
        sync started from, so it splits the spec that is left exactly when the sync did not fill it in. */
    method Sync(isRq: bool, observed: ResourceList, used: Object, children: seq<ResourceList>, sameChildren: bool)
      modifies this
      ensures Harmless(Kind(!isRq))
      ensures isRq ==> crq == if Harmless(old(crq)) then old(crq) else Missing
      ensures !isRq ==>
                var kept := if Harmless(old(rq)) then old(rq) else Missing;
                rq == if old(Limits(false)) && kept.Missing? then Stored(DEFAULT_HARD) else kept
      ensures old(spec) != map[] ==> spec == old(spec) && Kind(isRq) == Stored(spec)
      ensures old(spec) == map[] ==> spec == if !old(Limits(isRq)) && used.Stored? then used.hard else map[]
      ensures forall r :: Get(status.handedOut, r) == Total(children, r)
      ensures status.free.Keys == old(spec).Keys
      ensures forall r :: r in old(spec) ==> Get(status.free, r) + Get(status.handedOut, r) == old(spec)[r]
      ensures status.free.Keys == spec.Keys <==> spec == old(spec)
    {
      hide Zeroed, Total;
      var handedOut := AllocatedToChildren(children);
      var free := FreeToAllocate(spec, handedOut);
      DropOther(isRq);
      SyncQuotaObject(isRq, observed, used);
      UpdateStatus(handedOut, free, sameChildren);
      assert spec.Keys == {} <==> spec == map[];
    }
  }
}
