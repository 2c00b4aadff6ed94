/** The in-memory database: for every namespace at depth rq-depth + 1 (a key), the namespaces below it.

    `Grouped` says what it caches; the operations are specified as functions on the forest and the
    class runs them in place.
 */
module NamespaceDB {
  import opened Hierarchy
  import opened Moves
  import opened Listings
  import opened SliceRemoval

  type Forest = map<Name, seq<Name>>

  ghost predicate Holds(f: Forest, k: Name, ns: Name) {
    k in f && (k == ns || ns in f[k])
  }

  /** Some key holds the namespace. */
  ghost predicate Held(f: Forest, ns: Name) {
    exists k :: Holds(f, k, ns)
  }

  /** `g` is `f` with `ns` appended to the list of a key that holds `parent`. */
  ghost predicate JoinedKeyOf(f: Forest, parent: Name, ns: Name, g: Forest) {
    exists k :: Holds(f, k, parent) && k != ns && g == f[k := f[k] + [ns]]
  }

  /** No namespace belongs to two keys. */
  ghost predicate Disjoint(f: Forest) {
    forall k, l, ns :: Holds(f, k, ns) && Holds(f, l, ns) ==> k == l
  }

  ghost predicate ListsDistinct(f: Forest) {
    forall k :: k in f ==> NoDuplicates(f[k])
  }

  /** The first key in iteration order that holds the namespace, or the empty string. */
  ghost function FirstKey(f: Forest, order: seq<Name>, ns: Name): Name {
    if order == [] then "" else if Holds(f, order[0], ns) then order[0] else FirstKey(f, order[1..], ns)
  }

  /** A key that holds the namespace, or the empty string if none does. */
  ghost predicate Answer(f: Forest, ns: Name, k: Name) {
    Holds(f, k, ns) || (k == "" && forall l :: !Holds(f, l, ns))
  }

  /** Some key that holds the namespace. */
  ghost function KeyOf(f: Forest, ns: Name): (k: Name)
    ensures k != "" ==> Holds(f, k, ns)
    ensures (exists l :: Holds(f, l, ns)) && "" !in f ==> k != ""
  {
    if l :| Holds(f, l, ns) then l else ""
  }

  lemma {:induction false} FirstKeyAnswers(f: Forest, order: seq<Name>, ns: Name)
    ensures Holds(f, FirstKey(f, order, ns), ns) ||
            (FirstKey(f, order, ns) == "" && forall k :: k in order ==> !Holds(f, k, ns))
  {
    if order != [] {
      FirstKeyAnswers(f, order[1..], ns);
    }
  }

  lemma {:induction false} FirstKeyHolds(f: Forest, order: seq<Name>, ns: Name)
    requires "" !in f
    ensures FirstKey(f, order, ns) != "" ==> FirstKey(f, order, ns) in order && Holds(f, FirstKey(f, order, ns), ns)
    ensures FirstKey(f, order, ns) == "" ==> forall k :: k in order ==> !Holds(f, k, ns)
  {
    if order != [] {
      FirstKeyHolds(f, order[1..], ns);
    }
  }

  lemma FirstKeyIsKeyOf(f: Forest, order: seq<Name>, ns: Name)
    requires "" !in f && Disjoint(f) && Lists(order, f.Keys)
    ensures FirstKey(f, order, ns) == KeyOf(f, ns)
  {
    FirstKeyHolds(f, order, ns);
  }

  ghost predicate SameKey(f: Forest, o1: seq<Name>, o2: seq<Name>, ns: Name) {
    FirstKey(f, o1, ns) == FirstKey(f, o2, ns)
  }

  /** The lookup gives the same answer for every map iteration order exactly when keys and member lists
      are pairwise disjoint. */
  lemma KeyOrderIrrelevantIff(f: Forest)
    requires "" !in f
    ensures (forall o1, o2, ns :: Lists(o1, f.Keys) && Lists(o2, f.Keys) ==> SameKey(f, o1, o2, ns)) <==> Disjoint(f)
  {
    if Disjoint(f) {
      forall o1, o2, ns | Lists(o1, f.Keys) && Lists(o2, f.Keys) ensures SameKey(f, o1, o2, ns) {
        FirstKeyIsKeyOf(f, o1, ns);
        FirstKeyIsKeyOf(f, o2, ns);
      }
    }
    if forall o1, o2, ns :: Lists(o1, f.Keys) && Lists(o2, f.Keys) ==> SameKey(f, o1, o2, ns) {
      forall k, l, ns | Holds(f, k, ns) && Holds(f, l, ns) ensures k == l {
        var o1 := ListingFrom(f.Keys, k);
        var o2 := ListingFrom(f.Keys, l);
        assert SameKey(f, o1, o2, ns);
      }
    }
  }

  // ---------- the operations on the forest ----------

  /** A namespace added under its own name starts a fresh key. */
  function Added(f: Forest, key: Name, ns: Name): Forest {
    if key == ns then f[key := []] else if key in f then f[key := f[key] + [ns]] else f[key := [ns]]
  }

  ghost function Ensured(f: Forest, ns: Name, parent: Name, isRq: bool, hasCrq: bool): Forest {
    if KeyOf(f, ns) != "" || isRq then f
    else if KeyOf(f, parent) != "" then Added(f, KeyOf(f, parent), ns)
    else if hasCrq then Added(f, ns, ns)
    else f
  }

  /** What removing `ns` leaves, on any database, when the lookup answers `key`. */
  ghost predicate RemovedBy(f: Forest, ns: Name, key: Name, ok: bool, g: Forest)
    requires Answer(f, ns, key)
  {
    if key == "" || key == ns then ok && g == (if key == "" then f else f - {key})
    else (ok <==> !Overruns(f[key], ns)) && g == f[key := SkipRemove(f[key], ns)]
  }

  ghost function Removed(f: Forest, ns: Name): Forest {
    var k := KeyOf(f, ns);
    if k == "" then f else if k == ns then f - {k} else f[k := Without(f[k], ns)]
  }

  /** One namespace of a migrated subtree: out of the old list, unless there is none or the migrated
      namespace is itself the key, and into the new one, if there is one. */
  ghost function MovedOne(f: Forest, from: Name, to: Name, ns: Name, child: Name): Forest {
    var g := if from != "" && from != ns && from in f then f[from := Without(f[from], child)] else f;
    if to != "" then Added(g, to, child) else g
  }

  ghost function MovedAll(f: Forest, from: Name, to: Name, ns: Name, children: seq<Name>): Forest {
    if children == [] then f
    else MovedOne(MovedAll(f, from, to, ns, children[..|children| - 1]), from, to, ns, children[|children| - 1])
  }

  datatype Moving = Moving(ok: bool, forest: Forest)

  /** One round of the loop over the subtree, on any database; not ok where the removal slices out of range. */
  ghost function MoveRound(f: Forest, from: Name, to: Name, ns: Name, child: Name): Moving {
    var leaves := from != "" && from != ns;
    if leaves && from !in f then Moving(false, f)
    else
      var g := if leaves then f[from := SkipRemove(f[from], child)] else f;
      if leaves && Overruns(f[from], child) then Moving(false, g)
      else Moving(true, if to != "" then Added(g, to, child) else g)
  }

  ghost function MoveRounds(f: Forest, from: Name, to: Name, ns: Name, children: seq<Name>): Moving
    decreases |children|
  {
    if children == [] then Moving(true, f)
    else
      var m := MoveRound(f, from, to, ns, children[0]);
      if m.ok then MoveRounds(m.forest, from, to, ns, children[1..]) else m
  }

  /** Where lists stay free of duplicates, no round fails and the whole subtree moves. */
  lemma MovableMoves(f: Forest, from: Name, to: Name, ns: Name, children: seq<Name>)
    requires Movable(f, from, to, ns, children)
    ensures MoveRounds(f, from, to, ns, children) == Moving(true, MovedAll(f, from, to, ns, children))
  {
    MovableSoFar(f, from, to, ns, children, |children|);
    RoundsSoFar(f, from, to, ns, children, |children|);
    assert children[..|children|] == children && children[|children|..] == [];
  }

  lemma {:induction false} RoundsSoFar(f: Forest, from: Name, to: Name, ns: Name, children: seq<Name>, i: nat)
    requires Movable(f, from, to, ns, children) && i <= |children|
    ensures MoveRounds(f, from, to, ns, children) ==
            MoveRounds(MovedAll(f, from, to, ns, children[..i]), from, to, ns, children[i..])
  {
    hide Movable;
    if i == 0 {
      assert children[0..] == children;
    } else {
      RoundsSoFar(f, from, to, ns, children, i - 1);
      MovableSoFar(f, from, to, ns, children, i - 1);
      var g := MovedAll(f, from, to, ns, children[..i - 1]);
      var c := children[i - 1];
      assert children[i - 1..][1..] == children[i..];
      assert children[..i] == children[..i - 1] + [c];
      if from != "" && from != ns {
        RemovalOnDistinct(g[from], c);
      }
      assert MoveRound(g, from, to, ns, c) == Moving(true, MovedOne(g, from, to, ns, c));
    }
  }

  /** The lists stay free of duplicates while the subtree moves. */
  ghost predicate Movable(f: Forest, from: Name, to: Name, ns: Name, children: seq<Name>) {
    && ListsDistinct(f) && NoDuplicates(children)
    && (from != "" ==> from in f)
    && (to != "" ==> to in f && to !in children && forall c :: c in children && c in f[to] ==> from == to != ns)
  }

  ghost predicate Leaves(from: Name, ns: Name, k: Name) {
    from != "" && from != ns && k == from
  }

  /** `g` is `f` with `children` taken out of the old list and put into the new one. */
  ghost predicate IsMoved(f: Forest, g: Forest, from: Name, to: Name, ns: Name, children: seq<Name>) {
    && g.Keys == f.Keys && ListsDistinct(g)
    && forall k, x :: k in f ==> (x in g[k] <==> Belongs(f, from, to, ns, children, k, x))
  }

  /** Whether `x` is in the list of `k` after the move. */
  ghost predicate Belongs(f: Forest, from: Name, to: Name, ns: Name, children: seq<Name>, k: Name, x: Name)
    requires k in f
  {
    || (x in f[k] && !(Leaves(from, ns, k) && x in children))
    || (to != "" && k == to && x in children)
  }

  lemma MovedOneLists(f: Forest, g: Forest, from: Name, to: Name, ns: Name, children: seq<Name>, c: Name)
    requires Movable(f, from, to, ns, children + [c]) && IsMoved(f, g, from, to, ns, children)
    ensures IsMoved(f, MovedOne(g, from, to, ns, c), from, to, ns, children + [c])
  {
    assert c !in children by {
      assert forall i :: 0 <= i < |children| ==> (children + [c])[i] == children[i];
      assert (children + [c])[|children|] == c;
    }
    var h := if from != "" && from != ns && from in g then g[from := Without(g[from], c)] else g;
    if from != "" && from != ns {
      WithoutDistinct(g[from], c);
    }
    var m := MovedOne(g, from, to, ns, c);
    if to != "" {
      assert c in children + [c];
      assert to !in children + [c];
      assert c !in h[to];
      assert m == h[to := h[to] + [c]];
    }
    assert ListsDistinct(m);
    forall k, x | k in f
      ensures x in m[k] <==> Belongs(f, from, to, ns, children + [c], k, x)
    {
      assert x in children + [c] <==> x in children || x == c;
      assert x in g[k] <==> Belongs(f, from, to, ns, children, k, x);
    }
  }

  lemma {:induction false} MovedAllLists(f: Forest, from: Name, to: Name, ns: Name, children: seq<Name>)
    requires Movable(f, from, to, ns, children)
    ensures IsMoved(f, MovedAll(f, from, to, ns, children), from, to, ns, children)
  {
    if children != [] {
      var front, c := children[..|children| - 1], children[|children| - 1];
      assert children == front + [c];
      assert Movable(f, from, to, ns, front) by {
        assert forall i :: 0 <= i < |front| ==> front[i] == children[i];
      }
      MovedAllLists(f, from, to, ns, front);
      MovedOneLists(f, MovedAll(f, from, to, ns, front), from, to, ns, front, c);
    }
  }

  class Database {
    var forest: Forest

    constructor ()
      ensures forest == map[]
    {
      forest := map[];
    }

    ghost predicate Usable()
      reads this
    {
      "" !in forest && ListsDistinct(forest)
    }

    method Key(ns: Name) returns (key: Name)
      ensures Answer(forest, ns, key)
      ensures exists order :: Lists(order, forest.Keys) && key == FirstKey(forest, order, ns)
      ensures "" !in forest && Disjoint(forest) ==> key == KeyOf(forest, ns)
    {
      hide Lists, Answer, Disjoint;
      var order := ListNames(forest.Keys);
      key := Lookup(order, ns);
      OrderAnswers(forest, order, ns);
      if "" !in forest && Disjoint(forest) {
        FirstKeyIsKeyOf(forest, order, ns);
      }
    }

    /** The lookup in a given iteration order. */
    method Lookup(order: seq<Name>, ns: Name) returns (key: Name)
      requires forall k :: k in order ==> k in forest
      ensures key == FirstKey(forest, order, ns)
    {
      for i := 0 to |order|
        invariant FirstKey(forest, order, ns) == FirstKey(forest, order[i..], ns)
      {
        var k := order[i];
        var found := k == ns;
        var members := forest[k];
        for j := 0 to |members|
          invariant found <==> k == ns || ns in members[..j]
        {
          if members[j] == ns {
            found := true;
          }
        }
        assert members[..|members|] == members;
        if found {
          return k;
        }
        assert order[i..][1..] == order[i + 1..];
      }
      assert order[|order|..] == [];
      return "";
    }

    method KeyCount(key: Name) returns (count: nat)
      ensures count == if key in forest then |forest[key]| else 0
    {
      count := if key in forest then |forest[key]| else 0;
    }

    /** The limit check of a create: the branch of the parent is not full. */
    method HasRoomForCreate(parent: Name, max: nat) returns (ok: bool)
      requires "" !in forest && Disjoint(forest)
      ensures ok <==> KeyOf(forest, parent) == "" || |forest[KeyOf(forest, parent)]| < max
    {
      var key := Key(parent);
      if key == "" {
        return true;
      }
      var count := KeyCount(key);
      return count < max;
    }

    /** The limit check of a migration, made only when both ends have a key; `listed` is how many namespaces
        the migrated namespace's ClusterResourceQuota lists, if it has one. */
    method HasRoomForMigration(ns: Name, dest: Name, hasCrq: bool, listed: nat, max: nat) returns (ok: bool)
      requires "" !in forest && Disjoint(forest)
      ensures ok <==> (KeyOf(forest, ns) != "" && KeyOf(forest, dest) != "" ==>
                         hasCrq && |forest[KeyOf(forest, dest)]| + listed < max)
    {
      var currentKey := Key(ns);
      var toKey := Key(dest);
      if currentKey == "" || toKey == "" {
        return true;
      }
      if !hasCrq {
        return false;
      }
      var count := KeyCount(toKey);
      return count + listed < max;
    }

    method AddNSToKey(key: Name, ns: Name)
      modifies this
      ensures forest == Added(old(forest), key, ns)
      ensures forest == old(forest)[key := if key == ns then [] else if key in old(forest) then old(forest)[key] + [ns] else [ns]]
    {
      if key == ns {
        forest := forest[key := []];
      } else if key in forest {
        var list := forest[key];
        list := list + [ns];
        forest := forest[key := list];
      } else {
        forest := forest[key := [ns]];
      }
    }

    /** Fails when the key is missing, and when the removal loop runs out of range; then what it removed
        before stays removed. */
    method RemoveNS(ns: Name, key: Name) returns (ok: bool)
      modifies this
      ensures ok <==> key in old(forest) && !Overruns(old(forest)[key], ns)
      ensures forest == if key in old(forest) then old(forest)[key := SkipRemove(old(forest)[key], ns)] else old(forest)
    {
      if key !in forest {
        return false;
      }
      var out;
      ok, out := RemoveFromSlice(forest[key], ns);
      forest := forest[key := out];
    }

    method DeleteKey(key: Name)
      modifies this
      ensures forest == old(forest) - {key}
    {
      forest := forest - {key};
    }

    /** Called whenever a Subnamespace is initialised or synced.  A namespace that is held stays where it is;
        one of kind ResourceQuota is not added; any other joins a key that holds its parent, or becomes a key
        if it has a ClusterResourceQuota. */
    method EnsureSNSInDB(ns: Name, parent: Name, isRq: bool, hasCrq: bool)
      modifies this
      ensures isRq ==> forest == old(forest)
      ensures "" !in old(forest) ==>
                && (Held(old(forest), ns) ==> forest == old(forest))
                && (!Held(old(forest), ns) && !isRq && Held(old(forest), parent) ==> JoinedKeyOf(old(forest), parent, ns, forest))
                && (!Held(old(forest), ns) && !isRq && !Held(old(forest), parent) ==>
                      forest == if hasCrq then old(forest)[ns := []] else old(forest))
                && (Disjoint(old(forest)) ==> forest == Ensured(old(forest), ns, parent, isRq, hasCrq))
    {
      hide Disjoint;
      var key := Key(ns);
      if key == "" && !isRq {
        var keyNS := Key(parent);
        if keyNS != "" {
          assert keyNS == ns ==> Holds(forest, keyNS, ns);
          AddNSToKey(keyNS, ns);
          assert Holds(old(forest), keyNS, parent);
          assert keyNS != ns ==> forest == old(forest)[keyNS := old(forest)[keyNS] + [ns]];
        } else if hasCrq {
          AddNSToKey(ns, ns);
        }
      }
    }

    method DeleteNamespace(ns: Name) returns (ok: bool)
      modifies this
      ensures exists key :: Answer(old(forest), ns, key) && RemovedBy(old(forest), ns, key, ok, forest)
      ensures old(Usable()) && Disjoint(old(forest)) ==> ok && forest == Removed(old(forest), ns)
    {
      ok := true;
      var key := Key(ns);
      if key != "" {
        if key == ns {
          DeleteKey(key);
        } else {
          if NoDuplicates(forest[key]) {
            RemovalOnDistinct(forest[key], ns);
          }
          ok := RemoveNS(ns, key);
        }
      }
      assert RemovedBy(old(forest), ns, key, ok, forest);
    }

    /** `children` is the migrated namespace and all its descendants. */
    method MigrateNSHierarchy(ns: Name, dest: Name, children: seq<Name>) returns (ok: bool)
      modifies this
      ensures exists from, to :: Answer(old(forest), ns, from) && Answer(old(forest), dest, to) &&
                                 Moving(ok, forest) == MoveRounds(old(forest), from, to, ns, children)
      ensures "" !in old(forest) && Disjoint(old(forest)) &&
              Movable(old(forest), KeyOf(old(forest), ns), KeyOf(old(forest), dest), ns, children) ==>
                ok && forest == MovedAll(old(forest), KeyOf(old(forest), ns), KeyOf(old(forest), dest), ns, children)
    {
      hide Answer, Disjoint, Movable;
      var oldKey := Key(ns);
      var newKey := Key(dest);
      ok := MoveAll(oldKey, newKey, ns, children);
      if Movable(old(forest), oldKey, newKey, ns, children) {
        MovableMoves(old(forest), oldKey, newKey, ns, children);
      }
    }

    /** The loop over the subtree. */
    method MoveAll(oldKey: Name, newKey: Name, ns: Name, children: seq<Name>) returns (ok: bool)
      modifies this
      ensures Moving(ok, forest) == MoveRounds(old(forest), oldKey, newKey, ns, children)
    {
      hide SkipRemove, Overruns;
      for i := 0 to |children|
        invariant MoveRounds(old(forest), oldKey, newKey, ns, children) == MoveRounds(forest, oldKey, newKey, ns, children[i..])
      {
        var child := children[i];
        assert children[i..][1..] == children[i + 1..];
        if oldKey != "" && oldKey != ns {
          var removed := RemoveNS(child, oldKey);
          if !removed {
            return false;
          }
        }
        if newKey != "" {
          AddNSToKey(newKey, child);
        }
      }
      assert children[|children|..] == [];
      return true;
    }
  }

  /** Ensuring a namespace that some key holds changes nothing. */
  lemma HeldStays(f: Forest, ns: Name, parent: Name, isRq: bool, hasCrq: bool)
    requires "" !in f && Held(f, ns)
    ensures Ensured(f, ns, parent, isRq, hasCrq) == f
  {
  }

  lemma OrderAnswers(f: Forest, order: seq<Name>, ns: Name)
    requires Lists(order, f.Keys)
    ensures Answer(f, ns, FirstKey(f, order, ns))
  {
    FirstKeyAnswers(f, order, ns);
  }

  lemma MovableSoFar(f: Forest, from: Name, to: Name, ns: Name, children: seq<Name>, i: nat)
    requires Movable(f, from, to, ns, children) && i <= |children|
    ensures ListsDistinct(MovedAll(f, from, to, ns, children[..i]))
    ensures MovedAll(f, from, to, ns, children[..i]).Keys == f.Keys
    ensures from != "" ==> from in f
  {
    assert Movable(f, from, to, ns, children[..i]);
    MovedAllLists(f, from, to, ns, children[..i]);
  }
}
