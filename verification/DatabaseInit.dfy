/** Building the database at start-up from the leaves of the hierarchy.

    Every leaf contributes its path: the entry at index rq-depth of the path, sorted by depth
    annotation, becomes the key and the later entries its members.  The annotations are compared as
    text, so the result matches the hierarchy exactly when text order and number order agree.
 */
module DatabaseInit {
  import opened Hierarchy
  import opened Moves
  import opened Resources
  import opened Listings
  import opened DisplayName
  import opened SliceRemoval
  import opened NamespaceDB
  import opened Grouping
  import opened TextOrder
  import DatabaseRuns

  /** Among the depths 1..d, exactly the smaller ones come before rq + 1 in text order. */
  ghost predicate TextFits(d: nat, rq: nat) {
    forall m: nat :: 1 <= m <= d ==> (TextLess(Decimal(m), Decimal(rq + 1)) <==> m < rq + 1)
  }

  /** One-digit depths are ordered like numbers. */
  lemma SingleDigitsFit(d: nat, rq: nat)
    requires rq < d <= 9
    ensures TextFits(d, rq)
  {
  }

  /** With two digits they are not: depth 10 sorts before depth 2. */
  lemma TenthLevelDoesNotFit()
    ensures !TextFits(10, 1)
  {
    assert Decimal(10) == Decimal(1) + "0" == "10";
    assert TextLess(Decimal(10), Decimal(2));
  }

  /** Nothing sorts before depth 1, so rq-depth 0 works at every depth. */
  lemma FirstLevelAlwaysFits(d: nat)
    ensures TextFits(d, 0)
  {
    forall m: nat | 1 <= m <= d ensures !TextLess(Decimal(m), Decimal(1)) {
      FirstDigitPositive(m);
      assert Decimal(1) == "1";
      assert "1"[1..] == "";
    }
  }

  lemma {:induction false} FirstDigitPositive(m: nat)
    requires m > 0
    ensures Decimal(m)[0] >= '1'
  {
    if m >= 10 {
      FirstDigitPositive(m / 10);
    }
  }

  // ---------- one leaf ----------

  ghost function AnnotationTexts(t: Tree): map<Name, string>
    requires IsTree(t)
  {
    map x | x in t.Nodes() :: Decimal(Depth(t, x))
  }

  /** The path of `n` without the root, lowest first. */
  ghost function Up(t: Tree, n: Name): seq<Name>
    requires IsTree(t) && n in t.Nodes()
  {
    Reversed(Path(t, n)[1..])
  }

  ghost function SortedUp(t: Tree, n: Name): (s: seq<Name>)
    requires IsTree(t) && n in t.Nodes()
  {
    UpInTree(t, n);
    Sort(AnnotationTexts(t), Up(t, n))
  }

  lemma UpInTree(t: Tree, n: Name)
    requires IsTree(t) && n in t.Nodes()
    ensures forall x :: x in Up(t, n) <==> x in t.parent && Under(t, x, n)
    ensures forall x :: x in Up(t, n) ==> x in AnnotationTexts(t)
    ensures forall i, j :: 0 <= i < j < |Up(t, n)| ==> AnnotationTexts(t)[Up(t, n)[i]] != AnnotationTexts(t)[Up(t, n)[j]]
    ensures |Up(t, n)| == Depth(t, n)
  {
    hide IsTree, Path, Under, Decimal;
    forall x ensures x in Up(t, n) <==> x in t.parent && Under(t, x, n) {
      UpMember(t, n, x);
    }
    forall i, j | 0 <= i < j < |Up(t, n)| ensures AnnotationTexts(t)[Up(t, n)[i]] != AnnotationTexts(t)[Up(t, n)[j]] {
      UpTextsDiffer(t, n, i, j);
    }
  }

  lemma UpMember(t: Tree, n: Name, x: Name)
    requires IsTree(t) && n in t.Nodes()
    ensures x in Up(t, n) <==> x in t.parent && Under(t, x, n)
  {
    hide IsTree;
    var p, u := Path(t, n), Up(t, n);
    PathShape(t, n);
    if x in u {
      var i :| 0 <= i < |u| && u[i] == x;
      assert p[|p| - 1 - i] == x;
      PrefixIsPath(t, n, |p| - 1 - i);
      PathStep(t, x);
    }
    if x in t.parent && Under(t, x, n) {
      UnderPrefix(t, x, n);
      PathStep(t, x);
      PathStep(t, t.root);
      assert u[|p| - 1 - Depth(t, x)] == x;
    }
  }

  lemma UpTextsDiffer(t: Tree, n: Name, i: nat, j: nat)
    requires IsTree(t) && n in t.Nodes() && i < j < |Up(t, n)|
    ensures Up(t, n)[i] in t.Nodes() && Up(t, n)[j] in t.Nodes()
    ensures AnnotationTexts(t)[Up(t, n)[i]] != AnnotationTexts(t)[Up(t, n)[j]]
  {
    hide IsTree, Under, Decimal;
    var p, u, texts := Path(t, n), Up(t, n), AnnotationTexts(t);
    PrefixIsPath(t, n, |p| - 1 - i);
    PrefixIsPath(t, n, |p| - 1 - j);
    if texts[u[i]] == texts[u[j]] {
      DecimalInjective(Depth(t, u[i]), Depth(t, u[j]));
      assert false;
    }
  }

  lemma SortedUpFacts(t: Tree, n: Name)
    requires IsTree(t) && n in t.Nodes()
    ensures forall x :: x in SortedUp(t, n) <==> x in t.parent && Under(t, x, n)
    ensures forall i, j :: 0 <= i < j < |SortedUp(t, n)| ==> SortedUp(t, n)[i] != SortedUp(t, n)[j]
    ensures forall x :: x in SortedUp(t, n) ==> x in AnnotationTexts(t)
    ensures SortedByText(AnnotationTexts(t), SortedUp(t, n))
    ensures |SortedUp(t, n)| == Depth(t, n)
  {
    hide IsTree, Path, Depth, Under, AnnotationTexts, TextLess, Decimal;
    UpInTree(t, n);
    SortSorts(AnnotationTexts(t), Up(t, n));
    var s := set x | x in Up(t, n);
    ListingSize(SortedUp(t, n), s);
    assert Lists(Up(t, n), s);
    ListingSize(Up(t, n), s);
  }

  /** The names that the sort puts before the key are the shallower ones. */
  ghost predicate SplitsAtKey(t: Tree, rq: nat, n: Name)
    requires IsTree(t) && n in t.Nodes() && Depth(t, n) > rq
  {
    var s := SortedUp(t, n);
    && |s| > rq && s[rq] == KeyAbove(t, rq, n)
    && forall x :: x in s[rq + 1..] ==> x in t.Nodes() && Depth(t, x) > rq + 1
  }

  function Names(s: seq<Name>): set<Name> {
    set x | x in s
  }

  /** The ancestors of `n` at depth 1..rq. */
  ghost function Shallow(t: Tree, rq: nat, n: Name): set<Name>
    requires IsTree(t) && n in t.Nodes() && Depth(t, n) > rq
  {
    Names(Path(t, n)[1..rq + 1])
  }

  lemma ShallowFacts(t: Tree, rq: nat, n: Name)
    requires IsTree(t) && n in t.Nodes() && Depth(t, n) > rq
    ensures |Shallow(t, rq, n)| == rq
    ensures forall x :: x in Shallow(t, rq, n) <==> x in t.parent && Under(t, x, n) && x in t.Nodes() && Depth(t, x) <= rq
  {
    hide IsTree;
    var p := Path(t, n);
    PathShape(t, n);
    ListingSize(p[1..rq + 1], Shallow(t, rq, n));
    PathStep(t, t.root);
    forall x ensures x in Shallow(t, rq, n) <==> x in t.parent && Under(t, x, n) && x in t.Nodes() && Depth(t, x) <= rq {
      if x in Shallow(t, rq, n) {
        var i :| 1 <= i < rq + 1 && p[i] == x;
        PrefixIsPath(t, n, i);
        PathStep(t, x);
      }
      if x in t.parent && Under(t, x, n) && Depth(t, x) <= rq {
        UnderPrefix(t, x, n);
        PathStep(t, x);
        assert p[1..rq + 1][Depth(t, x) - 1] == x;
      }
    }
  }

  lemma SamePrefixSize(s: seq<Name>, i: nat, a: set<Name>)
    requires i <= |s| && (forall i, j :: 0 <= i < j < |s| ==> s[i] != s[j])
    requires forall x :: x in s[..i] <==> x in a
    ensures i == |a|
  {
    ListingSize(s[..i], a);
  }

  /** Where text order fits, the sort cuts the path at the right place. */
  lemma FittingTextSplits(t: Tree, rq: nat, n: Name)
    requires IsTree(t) && n in t.Nodes() && Depth(t, n) > rq && TextFits(Depth(t, n), rq)
    ensures SplitsAtKey(t, rq, n)
  {
    hide IsTree, Path, Depth, Under, TextLess, Decimal, Sort;
    var s, texts, k := SortedUp(t, n), AnnotationTexts(t), KeyAbove(t, rq, n);
    SortedUpFacts(t, n);
    ShallowFacts(t, rq, n);
    KeyAboveIs(t, rq, k, n);
    KeyHasParent(t, rq, k);
    var i :| 0 <= i < |s| && s[i] == k;
    forall j | 0 <= j < |s| ensures j < i <==> s[j] in Shallow(t, rq, n) {
      TextDecides(t, rq, n, s, i, j);
    }
    forall x ensures x in s[..i] <==> x in Shallow(t, rq, n) {
      if x in Shallow(t, rq, n) {
        assert x in s;
        var j :| 0 <= j < |s| && s[j] == x;
        assert s[..i][j] == x;
      }
    }
    SamePrefixSize(s, i, Shallow(t, rq, n));
    forall x | x in s[rq + 1..] ensures x in t.Nodes() && Depth(t, x) > rq + 1 {
      var j :| rq + 1 <= j < |s| && s[j] == x;
      assert s[j] in s;
      if Depth(t, x) == rq + 1 {
        KeyAboveIs(t, rq, x, n);
      }
    }
  }

  lemma KeyHasParent(t: Tree, rq: nat, k: Name)
    requires IsTree(t) && IsKey(t, rq, k)
    ensures k in t.parent
  {
    hide IsTree;
    PathStep(t, k);
  }

  /** Before the key in text order means shallower than it. */
  lemma TextDecides(t: Tree, rq: nat, n: Name, s: seq<Name>, i: nat, j: nat)
    requires IsTree(t) && n in t.Nodes() && Depth(t, n) > rq && TextFits(Depth(t, n), rq)
    requires s == SortedUp(t, n) && i < |s| && j < |s| && s[i] == KeyAbove(t, rq, n)
    ensures j < i <==> s[j] in Shallow(t, rq, n)
  {
    hide IsTree, Path, Depth, Under, TextLess, Decimal, Sort;
    var texts := AnnotationTexts(t);
    SortedUpFacts(t, n);
    ShallowFacts(t, rq, n);
    KeyAboveIs(t, rq, s[i], n);
    assert s[j] in s;
    UnderIsDeeper(t, s[j], n);
    PositiveDepth(t, s[j]);
    assert TextLess(Decimal(Depth(t, s[j])), Decimal(rq + 1)) <==> Depth(t, s[j]) < rq + 1;
    if j < i {
      assert TextLess(texts[s[j]], texts[s[i]]);
    } else if j > i {
      TextLessAsymmetric(texts[s[i]], texts[s[j]]);
    }
  }

  lemma PositiveDepth(t: Tree, x: Name)
    requires IsTree(t) && x in t.parent
    ensures x in t.Nodes() && Depth(t, x) > 0
  {
    hide IsTree;
    PathStep(t, x);
  }

  /** What is sorted before the key is then exactly what is shallower. */
  lemma FrontIsShallow(t: Tree, rq: nat, n: Name)
    requires IsTree(t) && n in t.Nodes() && Depth(t, n) > rq && SplitsAtKey(t, rq, n)
    ensures forall x :: x in SortedUp(t, n)[..rq] <==> x in Shallow(t, rq, n)
  {
    hide IsTree, Path, Depth, Under, Sort, TextLess, Decimal, AnnotationTexts;
    var s := SortedUp(t, n);
    SortedUpFacts(t, n);
    ShallowFacts(t, rq, n);
    KeyAboveIs(t, rq, KeyAbove(t, rq, n), n);
    var front := set x | x in s[..rq];
    assert Lists(s[..rq], front);
    ListingSize(s[..rq], front);
    forall x | x in Shallow(t, rq, n) ensures x in front {
      assert x in s;
      var i :| 0 <= i < |s| && s[i] == x;
      if i > rq {
        assert false;
      }
      assert i != rq;
      assert s[..rq][i] == x;
    }
    SubsetSameSize(Shallow(t, rq, n), front);
  }

  /** And where the sort cuts at the right place, text order fits. */
  lemma SplitMeansTextFits(t: Tree, rq: nat, n: Name)
    requires IsTree(t) && n in t.Nodes() && Depth(t, n) > rq && SplitsAtKey(t, rq, n)
    ensures TextFits(Depth(t, n), rq)
  {
    hide IsTree, Path, Depth, Under, TextLess, Decimal, Sort, AnnotationTexts;
    var s, k := SortedUp(t, n), KeyAbove(t, rq, n);
    SortedUpFacts(t, n);
    FrontIsShallow(t, rq, n);
    forall m: nat | 1 <= m <= Depth(t, n) ensures TextLess(Decimal(m), Decimal(rq + 1)) <==> m < rq + 1 {
      DepthDecides(t, rq, n, s, m);
    }
  }

  lemma SubsetSameSize(a: set<Name>, b: set<Name>)
    requires a <= b && |a| == |b|
    ensures a == b
  {
    if x :| x in b && x !in a {
      assert a <= b - {x};
      SubsetSize(a, b - {x});
      assert false;
    }
  }

  lemma DepthDecides(t: Tree, rq: nat, n: Name, s: seq<Name>, m: nat)
    requires IsTree(t) && n in t.Nodes() && Depth(t, n) > rq && s == SortedUp(t, n) && |s| > rq
    requires s[rq] == KeyAbove(t, rq, n) && (forall x :: x in s[..rq] <==> x in Shallow(t, rq, n))
    requires 1 <= m <= Depth(t, n)
    ensures TextLess(Decimal(m), Decimal(rq + 1)) <==> m < rq + 1
  {
    hide IsTree, Under, TextLess, Decimal, Sort;
    var x, texts := Path(t, n)[m], AnnotationTexts(t);
    SortedUpFacts(t, n);
    ShallowFacts(t, rq, n);
    PrefixIsPath(t, n, m);
    PrefixIsPath(t, n, rq + 1);
    AtDepth(t, n, m);
    var j :| 0 <= j < |s| && s[j] == x;
    assert j < rq ==> s[..rq][j] == x;
    if j < rq {
      assert TextLess(texts[s[j]], texts[s[rq]]);
    } else if j > rq {
      TextLessAsymmetric(texts[s[rq]], texts[s[j]]);
    } else if TextLess(texts[x], texts[x]) {
      TextLessAsymmetric(texts[x], texts[x]);
    }
  }

  lemma AtDepth(t: Tree, n: Name, m: nat)
    requires IsTree(t) && n in t.Nodes() && 1 <= m <= Depth(t, n)
    ensures Path(t, n)[m] in t.parent && Under(t, Path(t, n)[m], n)
  {
    hide IsTree;
    PathEdge(t, n, m - 1);
  }

  // ---------- all leaves ----------

  function AddMissing(f: Forest, key: Name, names: seq<Name>): (g: Forest)
    requires key in f
    ensures key in g
  {
    if names == [] then f
    else
      var g, x := AddMissing(f, key, names[..|names| - 1]), names[|names| - 1];
      if x in g[key] then g else Added(g, key, x)
  }

  /** What one sorted path adds. */
  function AddPath(f: Forest, rq: nat, names: seq<Name>): Forest {
    if |names| > rq
    then AddMissing(if names[rq] in f then f else Added(f, names[rq], names[rq]), names[rq], names[rq + 1..])
    else f
  }

  ghost function AddLeaves(t: Tree, rq: nat, leaves: seq<Name>): Forest
    requires IsTree(t) && forall l :: l in leaves ==> l in t.Nodes()
  {
    if leaves == [] then map[]
    else AddPath(AddLeaves(t, rq, leaves[..|leaves| - 1]), rq, SortedUp(t, leaves[|leaves| - 1]))
  }

  lemma {:induction false} AddMissingFacts(f: Forest, key: Name, names: seq<Name>)
    requires key in f && key !in names
    ensures AddMissing(f, key, names).Keys == f.Keys
    ensures forall k :: k in f && k != key ==> AddMissing(f, key, names)[k] == f[k]
    ensures forall x :: x in AddMissing(f, key, names)[key] <==> x in f[key] || x in names
    ensures NoDuplicates(f[key]) ==> NoDuplicates(AddMissing(f, key, names)[key])
  {
    if names != [] {
      var front, x := names[..|names| - 1], names[|names| - 1];
      assert names == front + [x];
      AddMissingFacts(f, key, front);
    }
  }

  /** What adding a path does to the keys and lists. */
  lemma AddPathFacts(f: Forest, rq: nat, names: seq<Name>)
    requires |names| > rq && forall i, j :: 0 <= i < j < |names| ==> names[i] != names[j]
    ensures var g := AddPath(f, rq, names);
            && g.Keys == f.Keys + {names[rq]}
            && (forall k :: k in f && k != names[rq] ==> g[k] == f[k])
            && (forall x :: x in g[names[rq]] <==> (names[rq] in f && x in f[names[rq]]) || x in names[rq + 1..])
            && (ListsDistinct(f) ==> ListsDistinct(g))
  {
    var key := names[rq];
    assert key !in names[rq + 1..];
    AddMissingFacts(if key in f then f else Added(f, key, key), key, names[rq + 1..]);
  }

  /** The grouping restricted to the namespaces above the leaves added so far. */
  ghost predicate PartGrouped(f: Forest, t: Tree, rq: nat, covered: set<Name>)
    requires IsTree(t)
  {
    && (forall k :: k in f <==> IsKey(t, rq, k) && k in covered)
    && ListsDistinct(f)
    && forall k, x :: k in f ==> (x in f[k] <==> x != k && Under(t, k, x) && x in covered)
  }

  ghost function Covered(t: Tree, leaves: seq<Name>): set<Name>
    requires IsTree(t)
  {
    set x | x in t.Nodes() && exists l :: l in leaves && Under(t, x, l)
  }

  ghost function Above(t: Tree, n: Name): set<Name>
    requires IsTree(t)
  {
    set x | x in t.Nodes() && Under(t, x, n)
  }

  lemma AddLeafGroups(f: Forest, t: Tree, rq: nat, covered: set<Name>, n: Name)
    requires IsTree(t) && n in t.Nodes() && PartGrouped(f, t, rq, covered)
    requires Depth(t, n) > rq ==> SplitsAtKey(t, rq, n)
    requires forall x, y :: x in covered && Under(t, y, x) ==> y in covered
    ensures PartGrouped(AddPath(f, rq, SortedUp(t, n)), t, rq, covered + Above(t, n))
  {
    hide IsTree, Path, Depth, Under, Sort, TextLess, Decimal, AnnotationTexts;
    var s := SortedUp(t, n);
    SortedUpFacts(t, n);
    if Depth(t, n) <= rq {
      ShallowAddsNothing(f, t, rq, covered, n);
    } else {
      AddPathFacts(f, rq, s);
      DeepLeafGroups(f, AddPath(f, rq, s), t, rq, covered, n);
    }
  }

  lemma ShallowAddsNothing(f: Forest, t: Tree, rq: nat, covered: set<Name>, n: Name)
    requires IsTree(t) && n in t.Nodes() && PartGrouped(f, t, rq, covered) && Depth(t, n) <= rq
    ensures PartGrouped(f, t, rq, covered + Above(t, n))
  {
    hide IsTree, Path, Depth, Under;
    forall x | x in Above(t, n) ensures Depth(t, x) <= rq {
      UnderIsDeeper(t, x, n);
    }
    forall k, x | k in f && x in Above(t, n) ensures !Under(t, k, x) {
      if Under(t, k, x) {
        UnderIsDeeper(t, k, x);
        assert false;
      }
    }
  }

  lemma DeepLeafGroups(f: Forest, g: Forest, t: Tree, rq: nat, covered: set<Name>, n: Name)
    requires IsTree(t) && n in t.Nodes() && PartGrouped(f, t, rq, covered) && Depth(t, n) > rq && SplitsAtKey(t, rq, n)
    requires g.Keys == f.Keys + {KeyAbove(t, rq, n)} && ListsDistinct(g)
    requires forall k :: k in f && k != KeyAbove(t, rq, n) ==> g[k] == f[k]
    requires var key := KeyAbove(t, rq, n);
             forall x :: x in g[key] <==> (key in f && x in f[key]) || x in SortedUp(t, n)[rq + 1..]
    requires forall x, y :: x in covered && Under(t, y, x) ==> y in covered
    ensures PartGrouped(g, t, rq, covered + Above(t, n))
  {
    hide IsTree, Path, Depth, Under, Sort, TextLess, Decimal, AnnotationTexts, SortedUp;
    var key, all := KeyAbove(t, rq, n), covered + Above(t, n);
    KeyAboveIs(t, rq, key, n);
    forall k ensures k in g <==> IsKey(t, rq, k) && k in all {
      KeyAboveIs(t, rq, k, n);
    }
    forall k, x | k in g ensures x in g[k] <==> x != k && Under(t, k, x) && x in all {
      if x in Above(t, n) && Under(t, k, x) {
        UnderTransitive(t, k, x, n);
        KeyAboveIs(t, rq, k, n);
      }
      if k == key {
        TailOfSorted(t, rq, n, x);
        if x in covered && Under(t, k, x) {
          assert k in covered;
        }
      }
    }
  }

  /** The names sorted behind the key are the ones on the path below it. */
  lemma TailOfSorted(t: Tree, rq: nat, n: Name, x: Name)
    requires IsTree(t) && n in t.Nodes() && Depth(t, n) > rq && SplitsAtKey(t, rq, n)
    ensures x in SortedUp(t, n)[rq + 1..] <==>
            x in Above(t, n) && x != KeyAbove(t, rq, n) && Under(t, KeyAbove(t, rq, n), x)
  {
    hide IsTree, Path, Depth, Under, Sort, TextLess, Decimal, AnnotationTexts;
    var s, key := SortedUp(t, n), KeyAbove(t, rq, n);
    SortedUpFacts(t, n);
    KeyAboveIs(t, rq, key, n);
    if x in s[rq + 1..] {
      assert x in s;
      OneAboveTheOther(t, x, key, n);
      if Under(t, x, key) {
        UnderIsDeeper(t, x, key);
        assert false;
      }
    }
    if x in Above(t, n) && x != key && Under(t, key, x) {
      UnderIsDeeper(t, key, x);
      DeepHasParent(t, x);
      assert x in s;
      var j :| 0 <= j < |s| && s[j] == x;
      FrontIsShallow(t, rq, n);
      ShallowFacts(t, rq, n);
      assert s[rq + 1..][j - rq - 1] == x;
    }
  }

  lemma DeepHasParent(t: Tree, x: Name)
    requires IsTree(t) && x in t.Nodes() && Depth(t, x) > 0
    ensures x in t.parent
  {
    hide IsTree;
    PathStep(t, x);
  }

  ghost predicate LeafNames(t: Tree, leaves: seq<Name>) {
    Lists(leaves, set n | n in t.parent && t.Children(n) == {})
  }

  /** Every namespace has a leaf below it. */
  lemma {:induction false} LeafBelow(t: Tree, n: Name) returns (l: Name)
    requires IsTree(t) && n in t.Nodes()
    ensures Under(t, n, l) && t.Children(l) == {}
    decreases Subtree(t, n)
  {
    hide IsTree, Path, Depth, Under;
    if t.Children(n) == {} {
      l := n;
      UnderSelf(t, n);
    } else {
      var c :| c in t.Children(n);
      ChildSubtree(t, c);
      l := LeafBelow(t, c);
      assert c in Subtree(t, n);
      UnderTransitive(t, n, c, l);
    }
  }

  lemma {:induction false} AddLeavesGroups(t: Tree, rq: nat, leaves: seq<Name>)
    requires IsTree(t) && forall l :: l in leaves ==> l in t.Nodes() && (Depth(t, l) > rq ==> TextFits(Depth(t, l), rq))
    ensures PartGrouped(AddLeaves(t, rq, leaves), t, rq, Covered(t, leaves))
  {
    hide IsTree, Path, Depth, Under, TextFits, SplitsAtKey, AddPath, SortedUp;
    if leaves != [] {
      var front, l := leaves[..|leaves| - 1], leaves[|leaves| - 1];
      assert leaves == front + [l];
      AddLeavesGroups(t, rq, front);
      if Depth(t, l) > rq {
        FittingTextSplits(t, rq, l);
      }
      forall x, y | x in Covered(t, front) && Under(t, y, x) ensures y in Covered(t, front) {
        var m :| m in front && Under(t, x, m);
        UnderTransitive(t, y, x, m);
        AncestorInTree(t, y, x);
      }
      AddLeafGroups(AddLeaves(t, rq, front), t, rq, Covered(t, front), l);
      assert Covered(t, leaves) == Covered(t, front) + Above(t, l);
    }
  }

  lemma AllCovered(t: Tree, leaves: seq<Name>, x: Name)
    requires IsTree(t) && LeafNames(t, leaves) && x in t.parent
    ensures x in Covered(t, leaves)
  {
    hide IsTree, Path, Depth, Under;
    var l := LeafBelow(t, x);
    NotRootBelow(t, x, l);
  }

  lemma NotRootBelow(t: Tree, x: Name, l: Name)
    requires IsTree(t) && x in t.parent && Under(t, x, l)
    ensures l in t.parent
  {
    hide IsTree;
    PathStep(t, l);
    PathStep(t, x);
  }

  lemma FullyCoveredGrouped(f: Forest, t: Tree, rq: nat, leaves: seq<Name>)
    requires IsTree(t) && "" !in t.Nodes() && LeafNames(t, leaves) && PartGrouped(f, t, rq, Covered(t, leaves))
    ensures Grouped(f, t, rq)
  {
    hide IsTree, Path, Depth, Under, Covered, LeafNames;
    forall k | IsKey(t, rq, k) ensures k in Covered(t, leaves) {
      KeyHasParent(t, rq, k);
      AllCovered(t, leaves, k);
    }
    forall k | k in f ensures GroupedAt(f, t, k) {
      forall x ensures x in f[k] <==> x != k && Under(t, k, x) {
        if x != k && Under(t, k, x) {
          KeyHasParent(t, rq, k);
          NotRootBelow(t, k, x);
          AllCovered(t, leaves, x);
        }
      }
    }
  }

  /** The path of a leaf is in the forest: its key, and what is sorted behind it. */
  ghost predicate HasPath(f: Forest, rq: nat, names: seq<Name>) {
    |names| > rq ==> names[rq] in f && forall x :: x in names[rq + 1..] ==> x in f[names[rq]]
  }

  lemma AddPathKeeps(f: Forest, rq: nat, names: seq<Name>, other: seq<Name>)
    requires forall i, j :: 0 <= i < j < |names| ==> names[i] != names[j]
    ensures HasPath(AddPath(f, rq, names), rq, names)
    ensures HasPath(f, rq, other) ==> HasPath(AddPath(f, rq, names), rq, other)
  {
    hide AddPath;
    if |names| > rq {
      AddPathFacts(f, rq, names);
    } else {
      ShortPath(f, rq, names);
    }
  }

  lemma ShortPath(f: Forest, rq: nat, names: seq<Name>)
    requires |names| <= rq
    ensures AddPath(f, rq, names) == f
  {
  }

  lemma {:induction false} AddLeavesHas(t: Tree, rq: nat, leaves: seq<Name>, l: Name)
    requires IsTree(t) && (forall l :: l in leaves ==> l in t.Nodes()) && l in leaves
    ensures HasPath(AddLeaves(t, rq, leaves), rq, SortedUp(t, l))
  {
    hide IsTree, Path, Depth, Under, SortedUp, AddPath, HasPath, SortedByText, AnnotationTexts;
    var front, m := leaves[..|leaves| - 1], leaves[|leaves| - 1];
    assert leaves == front + [m];
    SortedUpFacts(t, m);
    AddPathKeeps(AddLeaves(t, rq, front), rq, SortedUp(t, m), SortedUp(t, l));
    if l != m {
      AddLeavesHas(t, rq, front, l);
    }
  }

  lemma GroupedSplits(f: Forest, t: Tree, rq: nat, l: Name)
    requires Grouped(f, t, rq) && l in t.Nodes() && Depth(t, l) > rq && HasPath(f, rq, SortedUp(t, l))
    ensures SplitsAtKey(t, rq, l)
  {
    hide IsTree, Path, Depth, Under, Sort, SortedByText, AnnotationTexts;
    var s := SortedUp(t, l);
    SortedUpFacts(t, l);
    assert s[rq] in s;
    KeyAboveIs(t, rq, s[rq], l);
    assert GroupedAt(f, t, s[rq]);
    forall x | x in s[rq + 1..] ensures x in t.Nodes() && Depth(t, x) > rq + 1 {
      UnderIsDeeper(t, s[rq], x);
    }
  }

  /** Start-up builds the grouping of the hierarchy if and only if text order fits at every leaf that is
      deep enough to be in the database. */
  lemma InitGroupsIff(t: Tree, rq: nat, leaves: seq<Name>)
    requires IsTree(t) && "" !in t.Nodes() && LeafNames(t, leaves)
    ensures forall l :: l in leaves ==> l in t.Nodes()
    ensures Grouped(AddLeaves(t, rq, leaves), t, rq) <==>
            forall l :: l in leaves && Depth(t, l) > rq ==> TextFits(Depth(t, l), rq)
  {
    hide IsTree, Path, Depth, Under, TextFits, SplitsAtKey, SortedUp, PartGrouped, Grouped, HasPath;
    assert forall l :: l in leaves ==> l in t.parent;
    var f := AddLeaves(t, rq, leaves);
    if forall l :: l in leaves && Depth(t, l) > rq ==> TextFits(Depth(t, l), rq) {
      AddLeavesGroups(t, rq, leaves);
      FullyCoveredGrouped(f, t, rq, leaves);
    }
    if Grouped(f, t, rq) {
      forall l | l in leaves && Depth(t, l) > rq ensures TextFits(Depth(t, l), rq) {
        AddLeavesHas(t, rq, leaves, l);
        GroupedSplits(f, t, rq, l);
        SplitMeansTextFits(t, rq, l);
      }
    }
  }

  /** Up to depth 9 start-up always agrees with the hierarchy. */
  lemma InitGroupsUpToNine(t: Tree, rq: nat, leaves: seq<Name>)
    requires IsTree(t) && "" !in t.Nodes() && LeafNames(t, leaves)
    requires forall n :: n in t.Nodes() ==> Depth(t, n) <= 9
    ensures forall l :: l in leaves ==> l in t.Nodes()
    ensures Grouped(AddLeaves(t, rq, leaves), t, rq)
  {
    hide IsTree, Path, Depth, Under, TextFits, Grouped, AddLeaves;
    InitGroupsIff(t, rq, leaves);
    forall l | l in leaves && Depth(t, l) > rq ensures TextFits(Depth(t, l), rq) {
      SingleDigitsFit(Depth(t, l), rq);
    }
  }

  /** The two databases differ at most in the order within the lists. */
  ghost predicate SameLists(f: Forest, g: Forest) {
    f.Keys == g.Keys && forall k :: k in f ==> multiset(f[k]) == multiset(g[k])
  }

  /** The hierarchy determines its database, up to order. */
  lemma GroupedUnique(f: Forest, g: Forest, t: Tree, rq: nat)
    requires Grouped(f, t, rq)
    ensures Grouped(g, t, rq) <==> SameLists(f, g)
  {
    hide IsTree, Path, Depth, Under;
    if Grouped(g, t, rq) {
      assert f.Keys == g.Keys by {
        assert forall k :: k in f <==> k in g;
      }
      forall k | k in f ensures multiset(f[k]) == multiset(g[k]) {
        assert GroupedAt(f, t, k) && GroupedAt(g, t, k);
        assert forall x :: x in f[k] <==> x in g[k];
        SameNamesSameMultiset(f[k], g[k]);
      }
    }
    if SameLists(f, g) {
      forall k | k in g ensures GroupedAt(g, t, k) {
        assert k in f;
        assert GroupedAt(f, t, k);
        SameMultisetDistinct(f[k], g[k]);
      }
    }
  }

  lemma SameMultisetDistinct(a: seq<Name>, b: seq<Name>)
    requires NoDuplicates(a) && multiset(a) == multiset(b)
    ensures NoDuplicates(b) && forall x :: x in a <==> x in b
  {
    forall x ensures x in a <==> x in b {
      assert x in multiset(a) <==> x in multiset(b);
    }
    forall i, j | 0 <= i < j < |b| ensures b[i] != b[j] {
      CountDistinct(a, b[j]);
      assert b == b[..j] + [b[j]] + b[j + 1..];
      assert b[i] in b[..j];
    }
  }

  /** At any moment of any run, a restart would build the database that the incremental updates have
      reached, if and only if text order fits at every deep leaf. */
  lemma RestartMatchesIff(rq: nat, max: nat, ss: seq<DatabaseRuns.State>, ops: seq<DatabaseRuns.Op>, k: nat, leaves: seq<Name>)
    requires DatabaseRuns.Run(rq, max, ss, ops) && k < |ss| && LeafNames(ss[k].tree, leaves)
    requires Grouped(ss[0].forest, ss[0].tree, rq) && DatabaseRuns.Bounded(ss[0].forest, max)
    ensures IsTree(ss[k].tree) && forall l :: l in leaves ==> l in ss[k].tree.Nodes()
    ensures SameLists(ss[k].forest, AddLeaves(ss[k].tree, rq, leaves)) <==>
            forall l :: l in leaves && Depth(ss[k].tree, l) > rq ==> TextFits(Depth(ss[k].tree, l), rq)
  {
    hide IsTree, Path, Depth, Under, TextFits, AddLeaves, SameLists, DatabaseRuns.Run, DatabaseRuns.Bounded, LeafNames;
    DatabaseRuns.RunKeepsDatabase(rq, max, ss, ops, k);
    InitGroupsIff(ss[k].tree, rq, leaves);
    GroupedUnique(ss[k].forest, AddLeaves(ss[k].tree, rq, leaves), ss[k].tree, rq);
  }

  lemma {:induction false} SameNamesSameMultiset(a: seq<Name>, b: seq<Name>)
    requires NoDuplicates(a) && NoDuplicates(b) && forall x :: x in a <==> x in b
    ensures multiset(a) == multiset(b)
  {
    forall x ensures multiset(a)[x] == multiset(b)[x] {
      CountDistinct(a, x);
      CountDistinct(b, x);
    }
  }

  lemma {:induction false} CountDistinct(a: seq<Name>, x: Name)
    requires NoDuplicates(a)
    ensures multiset(a)[x] == if x in a then 1 else 0
  {
    if a != [] {
      assert a == [a[0]] + a[1..];
      CountDistinct(a[1..], x);
      assert a[0] !in a[1..];
    }
  }

  // ---------- the start-up code ----------

  /** Adds one path, entry by entry. */
  method AddHierarchy(f: Forest, rq: nat, names: seq<Name>) returns (g: Forest)
    ensures g == AddPath(f, rq, names)
  {
    g := f;
    if |names| > rq {
      var key := names[rq];
      if key !in g {
        g := g[key := []];
      }
      ghost var start := g;
      var rest := names[rq + 1..];
      for i := 0 to |rest|
        invariant key in start && key in g && g == AddMissing(start, key, rest[..i])
      {
        assert rest[..i + 1][..i] == rest[..i];
        if rest[i] !in g[key] {
          g := if key == rest[i] then g[key := []] else g[key := g[key] + [rest[i]]];
        }
      }
      assert rest[..|rest|] == rest;
    }
  }

  /** The namespaces from `n` up to but not including the root, from its display name. */
  method NSListUp(t: Tree, display: map<Name, string>, n: Name) returns (up: seq<Name>)
    requires IsTree(t) && DisplaysPaths(t, display) && n in display
    ensures up == Up(t, n)
  {
    hide IsTree, DisplaysPaths, Reversed;
    SplitsToPath(t, display, n);
    var pieces := SplitPieces(display[n]);
    PathShape(t, n);
    var index := IndexOf(t.root, pieces);
    assert pieces[index..][1..] == pieces[1..];
    up := LowestFirst(pieces[index..]);
  }

  /** Some listing of the leaves builds this database. */
  ghost predicate BuiltFromLeaves(f: Forest, t: Tree, rq: nat)
    requires IsTree(t)
  {
    exists leaves :: LeafNames(t, leaves) && (forall l :: l in leaves ==> l in t.Nodes()) && f == AddLeaves(t, rq, leaves)
  }

  /** Text order fits at every leaf that is deep enough to be in the database. */
  ghost predicate FitsAtLeaves(t: Tree, rq: nat)
    requires IsTree(t)
  {
    forall n :: n in t.parent && t.Children(n) == {} && n in t.Nodes() && Depth(t, n) > rq ==> TextFits(Depth(t, n), rq)
  }

  lemma BuiltGroupsIff(f: Forest, t: Tree, rq: nat, leaves: seq<Name>)
    requires IsTree(t) && "" !in t.Nodes() && LeafNames(t, leaves)
    requires (forall l :: l in leaves ==> l in t.Nodes()) && f == AddLeaves(t, rq, leaves)
    ensures Grouped(f, t, rq) <==> FitsAtLeaves(t, rq)
  {
    hide IsTree, Path, Depth, Under, Grouped, AddLeaves, TextFits;
    InitGroupsIff(t, rq, leaves);
  }

  /** The database as start-up builds it from the annotations of the leaf namespaces, in any order. */
  method Init(t: Tree, rq: nat, display: map<Name, string>, depths: map<Name, string>) returns (f: Forest)
    requires IsTree(t) && DisplaysPaths(t, display) && depths == AnnotationTexts(t)
    ensures BuiltFromLeaves(f, t, rq)
    ensures "" !in t.Nodes() ==> (Grouped(f, t, rq) <==> FitsAtLeaves(t, rq))
  {
    hide IsTree, Path, Depth, Under, AnnotationTexts, DisplaysPaths, Up, AddPath, Grouped, FitsAtLeaves;
    var names := ListNames(set n | n in t.parent && t.Children(n) == {});
    assert forall l :: l in names ==> l in t.parent;
    f := map[];
    for i := 0 to |names|
      invariant f == AddLeaves(t, rq, names[..i])
    {
      var up := NSListUp(t, display, names[i]);
      UpInTree(t, names[i]);
      var sorted := Sort(depths, up);
      f := AddHierarchy(f, rq, sorted);
      assert names[..i + 1][..i] == names[..i];
    }
    assert names[..|names|] == names;
    if "" !in t.Nodes() {
      BuiltGroupsIff(f, t, rq, names);
    }
  }
}
