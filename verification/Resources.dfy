/** Resource lists (quota Hard maps) with whole-number quantities.  A resource that a list does
    not name reads as quantity zero, as the two-value map lookups of the controllers do.
 */
module Resources {
  type Resource = string
  type ResourceList = map<Resource, int>

  function Get(l: ResourceList, r: Resource): int {
    if r in l then l[r] else 0
  }

  /** `l` with `sign * amount` added to every resource that `l` names. */
  ghost function Shifted(l: ResourceList, amount: ResourceList, sign: int): ResourceList {
    map r | r in l :: l[r] + sign * Get(amount, r)
  }

  /** Adds `sign * amount` to each entry of a Hard map, one resource at a time. */
  method ShiftHard(hard: ResourceList, amount: ResourceList, sign: int) returns (out: ResourceList)
    ensures out == Shifted(hard, amount, sign)
    ensures out.Keys == hard.Keys && forall r :: r in out ==> out[r] == hard[r] + sign * Get(amount, r)
  {
    out := hard;
    var todo := hard.Keys;
    while todo != {}
      invariant todo <= hard.Keys && out.Keys == hard.Keys
      invariant forall r :: r in hard ==>
                  out[r] == if r in todo then hard[r] else hard[r] + sign * Get(amount, r)
      decreases todo
    {
      var r :| r in todo;
      out := out[r := out[r] + sign * Get(amount, r)];
      todo := todo - {r};
    }
  }

  /** What the lists hold of `r` together. */
  ghost function Total(lists: seq<ResourceList>, r: Resource): int {
    if lists == [] then 0 else Total(lists[..|lists| - 1], r) + Get(lists[|lists| - 1], r)
  }

  // ---------- sums over a finite map ----------

  ghost function Pick<K(!new)>(m: map<K, int>): (k: K)
    requires m != map[]
    ensures k in m
  {
    var k :| k in m.Keys; k
  }

  ghost function Sum<K(!new)>(m: map<K, int>): int
    decreases m.Keys
  {
    if m == map[] then 0 else m[Pick(m)] + Sum(m - {Pick(m)})
  }

  lemma SumEmpty<K(!new)>(m: map<K, int>)
    requires m.Keys == {}
    ensures Sum(m) == 0
  {
    assert m == map[];
  }

  /** The sum does not depend on the order in which entries are taken. */
  lemma {:induction false} SumPick<K(!new)>(m: map<K, int>, k: K)
    requires k in m
    ensures Sum(m) == m[k] + Sum(m - {k})
    decreases m.Keys
  {
    var j := Pick(m);
    if j != k {
      SumPick(m - {j}, k);
      SumPick(m - {k}, j);
      assert m - {j} - {k} == m - {k} - {j};
    }
  }

  /** Setting one entry changes the sum by the difference. */
  lemma SumSet<K(!new)>(m: map<K, int>, k: K, v: int)
    ensures Sum(m[k := v]) == Sum(m) + v - (if k in m then m[k] else 0)
  {
    SumPick(m[k := v], k);
    if k in m {
      SumPick(m, k);
      assert m[k := v] - {k} == m - {k};
    } else {
      assert m[k := v] - {k} == m;
    }
  }

  lemma {:induction false} SumNonNegative<K(!new)>(m: map<K, int>)
    requires forall k :: k in m ==> m[k] >= 0
    ensures Sum(m) >= 0
    decreases m.Keys
  {
    if m != map[] {
      SumNonNegative(m - {Pick(m)});
    }
  }

  lemma SubsetSize<T>(a: set<T>, b: set<T>)
    requires a <= b
    ensures |a| <= |b|
  {
    if a != {} {
      var x :| x in a;
      SubsetSize(a - {x}, b - {x});
    }
  }
}
