/** The admission checks of creates as wholes: of a Subnamespace, and of a MigrationHierarchy. */
module Validators {
  import opened Hierarchy
  import opened Moves
  import opened Listings
  import opened Resources
  import opened Quota
  import opened Admission
  import opened DisplayName
  import opened NamespaceDB
  import opened Grouping
  import opened Labels
  import opened Relabelling
  import DatabaseRuns

  // ---------- creating a Subnamespace ----------

  /** What the create of a Subnamespace is about: whether a namespace of that name is in the way, the pool
      labels, and whether only pools may be created. */
  datatype Request = Request(taken: bool, isPool: bool, upper: bool, parentPool: bool, onlyPools: bool)

  const REGULAR_REQUEST := Request(false, false, false, false, false)

  method HandleCreate(db: Database, w: World, observed: set<Resource>, n: Name, p: Name, l: ResourceList,
                      siblings: seq<Name>, max: nat, req: Request) returns (allowed: bool)
    requires w.tree.parent.Keys <= w.quota.Keys && p in w.quota && Lists(siblings, w.tree.Children(p))
    requires "" !in db.forest && Disjoint(db.forest)
    ensures allowed <==>
            && |n| <= 63 && MatchesLabel(n) && !req.taken
            && (req.onlyPools ==> req.isPool)
            && (KeyOf(db.forest, p) == "" || |db.forest[KeyOf(db.forest, p)]| < max)
            && (req.parentPool ==> req.isPool)
            && (!req.isPool ==> forall r :: r in observed ==> r in l && l[r] >= 0)
            && (req.isPool && req.upper ==> l != map[])
            && forall r :: r in w.quota[p] ==> Get(l, r) <= Free(w, p, r)
  {
    hide Lists, Free, Disjoint, MatchesLabel, ValidName;
    ValidNameIff(n);
    if !ValidName(n) {
      return false;
    }
    if req.taken {
      return false;
    }
    if !req.isPool && req.onlyPools {
      return false;
    }
    var room := db.HasRoomForCreate(p, max);
    if !room {
      return false;
    }
    if !req.isPool && req.parentPool {
      return false;
    }
    var given := ValidateResourceQuotaParams(observed, l, req.isPool, req.upper);
    if !given {
      return false;
    }
    allowed := ValidateParentHasRoom(w, p, l, siblings);
  }

  /** For a new regular Subnamespace it is the conjunction of name, limit and quota check. */
  lemma RegularCreate(f: Forest, w: World, observed: set<Resource>, n: Name, p: Name, l: ResourceList, max: nat)
    requires Valid(w, observed) && p in w.quota && n !in w.tree.Nodes()
    ensures ValidName(n) && DatabaseRuns.CreateHasRoom(DatabaseRuns.State(w.tree, f), max, p) && AdmitsCreate(w, observed, n, p, l) <==>
            && |n| <= 63 && MatchesLabel(n)
            && (KeyOf(f, p) == "" || |f[KeyOf(f, p)]| < max)
            && (forall r :: r in observed ==> r in l && l[r] >= 0)
            && forall r :: r in w.quota[p] ==> Get(l, r) <= Free(w, p, r)
  {
    hide IsTree, Free, MatchesLabel, ValidName;
    ValidNameIff(n);
  }

  // ---------- creating a MigrationHierarchy ----------

  /** What else is asked about a migration: that both namespaces exist, permissions and secondary roots, which
      are decided elsewhere, the pool labels, and the migrated namespace's ClusterResourceQuota. */
  datatype Migration = Migration(exist: bool, permitted: bool, isPool: bool, upper: bool, toPool: bool, hasCrq: bool, listed: nat)

  /** `parent` is the parent label of the namespace, the displays are the two display names. */
  method HandleMigration(db: Database, n: Name, to: Name, parent: Name, display: string, toDisplay: string, max: nat,
                         m: Migration) returns (allowed: bool)
    requires "" !in db.forest && Disjoint(db.forest)
    ensures allowed <==>
            && n != to && m.exist && to != parent
            && !NoneFrom(Split(display), 0, Split(toDisplay)) && n !in Split(toDisplay) && m.permitted
            && (m.toPool ==> m.isPool) && (m.isPool && !m.toPool ==> m.upper)
            && (!m.isPool && !m.toPool && KeyOf(db.forest, n) != "" && KeyOf(db.forest, to) != "" ==>
                  m.hasCrq && |db.forest[KeyOf(db.forest, to)]| + m.listed < max)
  {
    hide Disjoint, Split;
    if n == to || !m.exist || to == parent {
      return false;
    }
    var sliced := SplitPieces(display);
    var toSliced := SplitPieces(toDisplay);
    var found, _, _ := GetAncestor(sliced, toSliced);
    if !found {
      return false;
    }
    var index := IndexOf(n, toSliced);
    if index != -1 {
      return false;
    }
    if !m.permitted {
      return false;
    }
    if !m.isPool && m.toPool {
      return false;
    }
    if m.isPool && !m.upper && !m.toPool {
      return false;
    }
    if !m.isPool && !m.toPool {
      allowed := db.HasRoomForMigration(n, to, m.hasCrq, m.listed, max);
      return;
    }
    return true;
  }

  /** Of a permitted migration of a regular namespace, with annotations that spell the hierarchy, it accepts
      exactly the moves to another parent outside the moved subtree that fit the limit. */
  lemma RegularMigration(f: Forest, t: Tree, ann: Annotated, rq: nat, n: Name, to: Name, max: nat, listed: nat)
    requires Agrees(t, ann) && Grouped(f, t, rq) && n in t.parent && to in t.Nodes() && n in ann
    ensures && n != to && to != t.parent[n]
            && !NoneFrom(Split(ann[n].display), 0, Split(ann[to].display)) && n !in Split(ann[to].display)
            && (KeyOf(f, n) != "" && KeyOf(f, to) != "" ==> |f[KeyOf(f, to)]| + listed < max)
            <==>
            && to != t.parent[n] && !Under(t, n, to)
            && (Depth(t, n) > rq && Depth(t, to) > rq ==> |Subtree(t, KeyAbove(t, rq, to))| + listed <= max)
  {
    hide IsTree, Agrees, Grouped, Under, Subtree, Depth, Path, Split;
    PathStep(t, n);
    DisplaySplits(t, ann, n);
    DisplaySplits(t, ann, to);
    LoopCheckExact(t, ann, n, to);
    UnderSelf(t, n);
    RootShared(t, n, to);
    DatabaseRuns.MigrateRoomIff(DatabaseRuns.State(t, f), rq, max, n, to, listed);
  }

  /** Two paths share at least the root. */
  lemma RootShared(t: Tree, n: Name, to: Name)
    requires IsTree(t) && n in t.Nodes() && to in t.Nodes()
    ensures !NoneFrom(Path(t, n), 0, Path(t, to))
  {
    hide IsTree;
    PathShape(t, n);
    PathShape(t, to);
    assert Path(t, n)[0] in Path(t, to);
  }
}
